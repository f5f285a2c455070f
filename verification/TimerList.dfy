/** The statements of timer.c on the links, flags and ticks of the timers of one list. */
module TimerCode {
  import opened Rings
  import opened TimerOrder
  import opened TimerRows
  import opened TimerRuns
  import opened Timer

  /** The stored ticks are the deadlines modulo 2^32, of pending timers and of those about to be inserted. */
  ghost predicate Stored(timeoutTick: seq<Tick>, p: Plain) {
    && (forall t :: t in p.pending ==> 0 <= t < |timeoutTick| && t in p.keys && timeoutTick[t] == Wrap(p.keys[t].deadline))
    && forall t :: t in p.flight && p.flight[t].Armed? ==> 0 <= t < |timeoutTick| && timeoutTick[t] == Wrap(p.flight[t].deadline)
  }

  /** All pending deadlines can be compared with d modulo 2^32. */
  ghost predicate Near(p: Plain, d: int) {
    forall t :: t in p.pending ==> t in p.keys && -HALF <= p.keys[t].deadline - d < HALF
  }

  class TimerList {
    const config: Config
    const levels: nat                 // RT_TIMER_SKIP_LIST_LEVEL
    const skip: nat                   // RT_TIMER_SKIP_LIST_MASK + 1
    var next: Links
    var prev: Links
    var timeoutTick: seq<Tick>
    var activated: seq<bool>
    var tick: Tick
    var randomNr: Tick
    ghost var rows: seq<seq<int>>
    ghost var plain: Plain

    ghost predicate Linked()
      reads this
    {
      && RowsGood(next, prev, rows, plain.keys, |config.init|)
      && |rows| == levels && skip > 0
      && Bottom(rows) == plain.pending
    }

    ghost predicate Ticks()
      reads this
    {
      && Listed(config, plain)
      && |timeoutTick| == |config.init|
      && tick == Wrap(plain.now)
      && Stored(timeoutTick, plain)
    }

    ghost predicate Flags()
      reads this
    {
      |activated| == |config.init| && forall t :: config.Timer(t) ==> (activated[t] <==> t in plain.pending)
    }

    /** The invariant between calls. */
    ghost predicate Valid()
      reads this
    {
      Linked() && Ticks() && Flags() && Good(config, plain)
    }

    /** _rt_timer_remove: unlinks the timer from every row. */
    method Remove(t: int)
      requires Linked() && config.Timer(t)
      modifies `next, `prev, `rows, `plain
      ensures Linked() && rows == UnlistedRows(old(rows), t)
      ensures plain == old(plain).(pending := Unlisted(old(plain).pending, t))
      ensures forall l :: 0 <= l < |rows| ==> t !in rows[l]
    {
      hide Row, Sorted, Within;
      ghost var n, old_ := |config.init|, rows;
      var i := 0;
      while i < levels
        modifies `next, `prev
        invariant 0 <= i <= levels && |next| == |prev| == levels
        invariant forall l :: 0 <= l < i ==> Row(next[l], prev[l], UnlistedRows(old_, t)[l], n)
        invariant forall l :: i <= l < levels ==> next[l] == old(next)[l] && prev[l] == old(prev)[l]
      {
        RowRemove(next[i], prev[i], old_[i], n, t);
        RowNodes(next[i], prev[i], old_[i], n, t);
        next, prev := next[i := RemovedNext(next[i], prev[i], t)], prev[i := RemovedPrev(next[i], prev[i], t)];
        i := i + 1;
      }
      UnlistedRowsGood(old(next), old(prev), old_, plain.keys, n, t, next, prev, plain.keys);
      rows := UnlistedRows(old_, t);
      plain := plain.(pending := Unlisted(plain.pending, t));
    }

    /** The search for the place in one row: past every timer that is not later. */
    method Walk(l: nat, from: int, t: int, ghost d: int) returns (head: int)
      requires Linked() && l < levels && config.Timer(t)
      requires 0 <= t < |timeoutTick| && timeoutTick[t] == Wrap(d)
      requires Near(plain, d) && Stored(timeoutTick, plain)
      requires from == HEAD || (from in rows[l] && from in plain.keys && plain.keys[from].deadline <= d)
      ensures head == NodeAt(rows[l], Slot(rows[l], plain.keys, d))
    {
      hide Wrap, Slot, Within;
      ghost var s, keys := rows[l], plain.keys;
      WithinBottom(next, prev, rows, keys, |config.init|, l);
      head := from;
      ghost var k := if from == HEAD then 0 else IndexOf(s, from) + 1;
      RowStep(next[l], prev[l], s, |config.init|, k);
      while head != prev[l][HEAD]
        invariant k <= |s| && head == NodeAt(s, k)
        invariant k > 0 ==> keys[s[k - 1]].deadline <= d
        decreases |s| - k
      {
        var p := next[l][head];
        RowStep(next[l], prev[l], s, |config.init|, k);
        assert p in s;
        WindowCompare(keys[p].deadline, d);
        if Minus(timeoutTick[p], timeoutTick[t]) == 0 {
          head := p;
        } else if Minus(timeoutTick[p], timeoutTick[t]) < HALF {
          break;
        } else {
          head := p;
        }
        k := k + 1;
      }
      RowStep(next[l], prev[l], s, |config.init|, k);
      SlotIs(s, keys, d, k);
    }

    /** The cursor of every row, found going down from row to row. */
    method Locate(t: int, ghost d: int) returns (heads: seq<int>)
      requires Linked() && config.Timer(t)
      requires 0 <= t < |timeoutTick| && timeoutTick[t] == Wrap(d)
      requires Near(plain, d) && Stored(timeoutTick, plain)
      ensures |heads| == levels
      ensures forall l :: 0 <= l < levels ==> heads[l] == NodeAt(rows[l], Slot(rows[l], plain.keys, d))
    {
      hide Wrap, Row;
      heads := [];
      var from, l := HEAD, 0;
      while l < levels
        invariant l == |heads| <= levels
        invariant forall i :: 0 <= i < l ==> heads[i] == NodeAt(rows[i], Slot(rows[i], plain.keys, d))
        invariant l < levels ==> from == HEAD || (from in rows[l] && from in plain.keys && plain.keys[from].deadline <= d)
      {
        from := Walk(l, from, t, d);
        heads := heads + [from];
        SlotSplits(rows[l], plain.keys, d);
        assert from == HEAD || from in rows[l];
        assert l + 1 < levels ==> Within(rows[l + 1 - 1], rows[l + 1]);
        l := l + 1;
      }
    }

    /** Links the timer into the bottom row and, by the digits of the start counter, into rows above. */
    method Link(t: int, heads: seq<int>, ghost d: int) returns (ghost up: nat)
      requires Linked() && config.Timer(t) && |heads| == levels
      requires forall l :: 0 <= l < levels ==> heads[l] == NodeAt(rows[l], Slot(rows[l], plain.keys, d))
      requires forall l :: 0 <= l < levels ==> t !in rows[l]
      modifies `next, `prev
      ensures |next| == |prev| == levels
      ensures forall l :: 0 <= l < levels ==> Row(next[l], prev[l], InsertedRows(rows, plain.keys, t, d, up)[l], |config.init|)
      ensures up > 0 && forall i :: 0 <= i < levels ==> (i < up <==> Climbs(randomNr, skip, i))
    {
      hide Row, Within, Slot, Climbs;
      var tst: nat := randomNr;
      InsertNode(levels - 1, t, heads[levels - 1], d);
      up := 1;
      var i := 1;
      ClimbStart(randomNr, skip);
      while i < levels && tst % skip == 0
        modifies `next, `prev
        invariant 1 <= up == i <= levels && |next| == |prev| == levels
        invariant forall l :: levels - i <= l < levels ==> Row(next[l], prev[l], StableInsert(rows[l], t, plain.keys, d), |config.init|)
        invariant forall l :: 0 <= l < levels - i ==> next[l] == old(next)[l] && prev[l] == old(prev)[l]
        invariant Climbing(randomNr, skip, i, tst)
      {
        InsertNode(levels - 1 - i, t, heads[levels - 1 - i], d);
        ClimbStep(randomNr, skip, i, tst);
        tst := tst / skip;
        i := i + 1;
        up := i;
      }
      ClimbAll(randomNr, skip, i, tst);
      if i < levels { ClimbStop(randomNr, skip, i, tst); }
    }

    /** Puts the timer into the rows. */
    method Insert(t: int, heads: seq<int>, ghost d: int) returns (ghost up: nat)
      requires Linked() && Listed(config, plain) && config.Timer(t) && |heads| == levels
      requires forall l :: 0 <= l < levels ==> heads[l] == NodeAt(rows[l], Slot(rows[l], plain.keys, d))
      requires forall l :: 0 <= l < levels ==> t !in rows[l]
      modifies `next, `prev, `rows, `plain, `randomNr
      ensures Linked() && randomNr == Wrap(old(randomNr) as int + 1)
      ensures plain == Placed(old(plain), t, d)
      ensures rows == InsertedRows(old(rows), old(plain).keys, t, d, up)
      ensures up > 0 && forall i :: 0 <= i < levels ==> (i < up <==> Climbs(randomNr, skip, i))
    {
      hide Row, Within, Slot, Climbs, Wrap, StableInsert, Sorted;
      randomNr := Wrap(randomNr as int + 1);
      up := Link(t, heads, d);
      ghost var key := Key(d, plain.starts);
      InsertedRowsGood(old(next), old(prev), rows, plain.keys, |config.init|, t, key, up, next, prev);
      rows := InsertedRows(rows, plain.keys, t, d, up);
      SortedKeyed(plain.pending, plain.keys);
      plain := Placed(plain, t, d);
    }

    /** rt_list_insert_after for one row. */
    method InsertNode(l: nat, t: int, head: int, ghost d: int)
      requires |next| == |prev| == |rows| == levels && l < levels && config.Timer(t)
      requires Row(next[l], prev[l], rows[l], |config.init|) && t !in rows[l]
      requires Sorted(rows[l], plain.keys) && head == NodeAt(rows[l], Slot(rows[l], plain.keys, d))
      modifies `next, `prev
      ensures |next| == |prev| == levels
      ensures Row(next[l], prev[l], StableInsert(rows[l], t, plain.keys, d), |config.init|)
      ensures forall i :: 0 <= i < levels && i != l ==> next[i] == old(next)[i] && prev[i] == old(prev)[i]
    {
      hide Row, Slot;
      RowInsert(next[l], prev[l], rows[l], |config.init|, Slot(rows[l], plain.keys, d), t);
      next, prev := next[l := InsertedNext(next[l], head, t)], prev[l := InsertedPrev(next[l], prev[l], head, t)];
    }

    /** The first section of rt_timer_start. */
    method Detach(t: int)
      requires Linked() && Ticks() && Flags() && Window(config, plain, config.slack + 1) && config.Timer(t)
      modifies this
      ensures Linked() && Ticks() && Flags() && Window(config, plain, config.slack + 1)
      ensures plain == Stopped(old(plain), t) && t !in plain.pending && tick == old(tick) && timeoutTick == old(timeoutTick)
      ensures forall l :: 0 <= l < levels ==> t !in rows[l]
    {
      hide Row, RowsGood, Wrap, Stored, Sorted;
      ghost var p := plain;
      Remove(t);
      activated := activated[t := false];
      StoppedWindow(config, p, t, config.slack + 1);
      StoppedStored(config, p, t, timeoutTick);
    }

    /** The computation of timeout_tick, which reads the tick with interrupts enabled. */
    method SetTimeout(t: int)
      requires Linked() && Ticks() && Flags() && config.Timer(t) && t !in plain.pending
      requires t in plain.flight ==> plain.flight[t].Removed?
      modifies `timeoutTick
      ensures Linked() && Ticks() && Flags() && t < |timeoutTick| && timeoutTick[t] == Wrap(plain.now + config.init[t])
      ensures forall x :: 0 <= x < |timeoutTick| && x != t ==> timeoutTick[x] == old(timeoutTick)[x]
    {
      hide Row, RowsGood, Wrap, Sorted;
      WrapAdd(plain.now, config.init[t]);
      timeoutTick := timeoutTick[t := Wrap(tick as int + config.init[t])];
    }

    /** The second section of rt_timer_start: the search and the insertion. */
    method Attach(t: int, ghost d: int)
      requires Linked() && Ticks() && Flags() && Window(config, plain, config.slack + 1) && config.Timer(t)
      requires t !in plain.flight && t !in plain.pending && timeoutTick[t] == Wrap(d) && Near(plain, d)
      requires plain.now - config.slack <= d < plain.now + HALF - config.slack
      modifies this
      ensures Linked() && Ticks() && Flags() && Window(config, plain, config.slack + 1)
      ensures plain == Placed(old(plain), t, d) && tick == old(tick) && timeoutTick == old(timeoutTick)
      ensures forall i :: 0 <= i < levels ==> (t in rows[levels - 1 - i] <==> Climbs(randomNr, skip, i))
    {
      hide Row, RowsGood, StableInsert, InsertedRows, Wrap, Climbs, Slot, Sorted, Stored, Near;
      ghost var p := plain;
      NotInRows(next, prev, rows, plain.keys, |config.init|, t);
      ListedKeyed(config, p);
      var heads := Locate(t, d);
      ghost var next1, prev1, rows1, keys1 := next, prev, rows, plain.keys;
      ghost var up := Insert(t, heads, d);
      InsertedRowsMembers(next1, prev1, rows1, keys1, |config.init|, t, d, up);
      activated := activated[t := true];
      PlacedWindow(config, p, t, d, config.slack + 1);
      PlacedMembers(p, t, d);
      PlacedStored(config, p, t, d, timeoutTick);
    }

    // which timers are between the sections

    ghost method MarkRemoved(t: int)
      requires Linked() && Ticks() && Flags() && config.Timer(t) && t !in plain.pending
      modifies `plain
      ensures Linked() && Ticks() && Flags() && plain == old(plain).(flight := old(plain).flight[t := TimerRuns.Removed])
    {
      hide RowsGood, Wrap, Sorted;
      plain := plain.(flight := plain.flight[t := TimerRuns.Removed]);
    }

    ghost method MarkArmed(t: int)
      requires Linked() && Ticks() && Flags() && config.Timer(t) && t !in plain.pending && t < |timeoutTick|
      requires timeoutTick[t] == Wrap(plain.now + config.init[t])
      modifies `plain
      ensures Linked() && Ticks() && Flags()
      ensures plain == old(plain).(flight := old(plain).flight[t := Armed(old(plain).now + config.init[t])])
    {
      hide RowsGood, Wrap, Sorted;
      plain := plain.(flight := plain.flight[t := Armed(plain.now + config.init[t])]);
    }

    ghost method Unmark(t: int)
      requires Valid() && Enabled(config, plain, TimerRuns.Insert(t))
      modifies `plain
      ensures Linked() && Ticks() && Flags() && Window(config, plain, config.slack + 1) && config.Timer(t) && t !in plain.pending
      ensures plain == old(plain).(flight := old(plain).flight - {t})
      ensures var d := old(plain).flight[t].deadline;
              t < |timeoutTick| && timeoutTick[t] == Wrap(d) && Near(plain, d) && plain.now - config.slack <= d < plain.now + HALF - config.slack
    {
      hide RowsGood, Wrap, Sorted, Near;
      LateNear(config, plain.(flight := plain.flight - {t}), plain.flight[t].deadline);
      plain := plain.(flight := plain.flight - {t});
    }

    /** rt_timer_start, without a tick between its sections. */
    method Start(t: int)
      requires Linked() && Ticks() && Flags() && Window(config, plain, config.slack + 1) && config.Timer(t) && t !in plain.flight
      modifies this
      ensures Linked() && Ticks() && Flags() && Window(config, plain, config.slack + 1)
      ensures plain == Started(config, old(plain), t) && tick == old(tick)
      ensures forall i :: 0 <= i < levels ==> (t in rows[levels - 1 - i] <==> Climbs(randomNr, skip, i))
    {
      hide Row, RowsGood, Wrap, Climbs, Sorted, Stored, Near;
      StoppedListed(config, plain, t);
      Detach(t);
      SetTimeout(t);
      StartNear(config, plain, plain.now + config.init[t]);
      Attach(t, plain.now + config.init[t]);
    }

    /** rt_timer_stop; an inactive timer is an error. */
    method Stop(t: int) returns (ok: bool)
      requires Valid() && config.Timer(t)
      modifies this
      ensures Valid() && ok == (t in old(plain).pending)
      ensures plain == Stopped(old(plain), t)
      ensures !ok ==> unchanged(this)
    {
      hide Row, RowsGood, Wrap, Sorted;
      UnlistedMembers(plain.pending, t, plain.keys);
      StoppedGood(config, plain, t);
      if !activated[t] { return false; }
      Remove(t);
      activated := activated[t := false];
      ok := true;
    }

    /** What rt_timer_check does with a timer that is due: the callback is called between the removal
        and the restart. */
    method Fire(t: int)
      requires Linked() && Ticks() && Flags() && Window(config, plain, config.slack + 1) && plain.pending != [] && t == plain.pending[0]
      modifies this
      ensures Linked() && Ticks() && Flags() && Window(config, plain, config.slack + 1)
      ensures plain == Fired(config, old(plain)) && tick == old(tick)
    {
      hide Row, RowsGood, Wrap, Stored, Window, Unlisted, Started;
      FiredWindow(config, plain, config.slack + 1);
      PopIsStopped(config, plain);
      PopKept(config, plain, timeoutTick);
      Remove(t);
      if config.periodic[t] && activated[t] {
        activated := activated[t := false];
        Start(t);
      } else {
        activated := activated[t := false];
      }
    }

    /** rt_timer_check, with the timers whose callbacks it calls. */
    method Check() returns (fired: seq<int>)
      requires Linked() && Ticks() && Flags() && Window(config, plain, config.slack + 1)
      modifies this
      ensures Linked() && Ticks() && Flags() && Window(config, plain, config.slack + 1)
      ensures plain == TimerRuns.Check(config, old(plain)).state
      ensures fired == Timers(TimerRuns.Check(config, old(plain)).log)
    {
      hide Row, RowsGood, Wrap, Stored, DueCount, Timers, Fired, TimerRuns.Check;
      fired := [];
      ghost var all := TimerRuns.Check(config, plain);
      var currentTick := tick;
      FirstTimer(next, prev, rows, plain.keys, |config.init|);
      while next[levels - 1][HEAD] != HEAD
        invariant Linked() && Ticks() && Flags() && Window(config, plain, config.slack + 1) && currentTick == tick
        invariant |next| == levels > 0 && HEAD in next[levels - 1]
        invariant next[levels - 1][HEAD] == FirstOf(plain.pending)
        invariant plain.pending != [] ==> plain.pending[0] != HEAD
        invariant TimerRuns.Check(config, plain).state == all.state
        invariant fired + Timers(TimerRuns.Check(config, plain).log) == Timers(all.log)
        decreases DueCount(plain)
      {
        var t := next[levels - 1][HEAD];
        DueCompare(config, plain, timeoutTick);
        if Minus(currentTick, timeoutTick[t]) < HALF {
          CheckStep(config, plain);
          Fire(t);
          fired := fired + [t];
          currentTick := tick;
          FirstTimer(next, prev, rows, plain.keys, |config.init|);
        } else {
          break;
        }
      }
      NothingDue(config, plain);
    }

    /** rt_tick_increase: the tick wraps around and the list is checked. */
    method TickIncrease() returns (fired: seq<int>)
      requires Valid()
      modifies this
      ensures Valid()
      ensures plain == Step(config, old(plain), Tick).state
      ensures fired == Timers(Step(config, old(plain), Tick).log)
    {
      hide Row, RowsGood, Wrap, Sorted, Timers, TimerRuns.Check;
      ghost var p := plain;
      StepGood(config, p, Tick);
      WrapAdd(plain.now, 1);
      tick := Wrap(tick as int + 1);
      plain := plain.(now := plain.now + 1);
      fired := Check();
    }

    /** rt_timer_list_next_timeout. */
    method NextTimeout() returns (r: Tick)
      requires Valid()
      ensures plain.pending == [] ==> r == TICK_MAX
      ensures plain.pending != [] ==> exists t :: t in plain.pending && r == Wrap(plain.keys[t].deadline)
                                        && forall x :: x in plain.pending ==> plain.keys[t].deadline <= plain.keys[x].deadline
    {
      hide Row, RowsGood, Wrap;
      FirstTimer(next, prev, rows, plain.keys, |config.init|);
      if next[levels - 1][HEAD] == HEAD { return TICK_MAX; }
      var t := next[levels - 1][HEAD];
      assert t in plain.pending;
      forall x | x in plain.pending
        ensures plain.keys[t].deadline <= plain.keys[x].deadline
      {
        FirstIsLeast(plain.pending, plain.keys, x);
      }
      r := timeoutTick[t];
    }

    /** All timers are initialised and inactive, and the tick is zero. */
    constructor (config: Config, levels: nat, skip: nat)
      requires config.Ok() && levels > 0 && (skip == 2 || skip == 4)
      ensures Valid() && this.config == config && this.levels == levels && this.skip == skip
      ensures plain == Plain([], map[], 0, 0, map[])
    {
      this.config, this.levels, this.skip := config, levels, skip;
      next := seq(levels, l => Alone(|config.init|));
      prev := seq(levels, l => Alone(|config.init|));
      timeoutTick := seq(|config.init|, t => 0);
      activated := seq(|config.init|, t => false);
      tick, randomNr := 0, 0;
      rows := seq(levels, l => []);
      plain := Plain([], map[], 0, 0, map[]);
    }

    /** One call or one tick. */
    method Do(cmd: Command) returns (fired: seq<int>)
      requires Valid() && Enabled(config, plain, cmd)
      modifies this
      ensures Valid()
      ensures plain == Step(config, old(plain), cmd).state
      ensures fired == Timers(Step(config, old(plain), cmd).log)
    {
      hide Row, RowsGood, Wrap, Sorted, Good, Ticks, Flags, Linked, Started;
      StepGood(config, plain, cmd);
      WiderWindow(config, plain);
      fired := [];
      match cmd
      case Start(t) => Start(t);
      case Remove(t) =>
        Detach(t);
        MarkRemoved(t);
      case Arm(t) =>
        FlightIdle(config, plain, t);
        SetTimeout(t);
        MarkArmed(t);
      case Insert(t) =>
        ghost var d := plain.flight[t].deadline;
        Unmark(t);
        Attach(t, d);
      case Stop(t) => var _ := Stop(t);
      case Tick => fired := TickIncrease();
    }

    /** Any run of calls behaves as the plain list over absolute time. */
    method RunAll(cmds: seq<Command>) returns (fired: seq<int>)
      requires Valid() && Possible(config, plain, cmds)
      modifies this
      ensures Valid()
      ensures plain == Run(config, old(plain), cmds).state
      ensures fired == Timers(Run(config, old(plain), cmds).log)
      decreases |cmds|
    {
      hide Good, Ticks, Flags, Linked, Step, Timers;
      fired := [];
      NoTimers();
      if cmds != [] {
        ghost var p := plain;
        StepGood(config, p, cmds[0]);
        WiderWindow(config, p);
        fired := Do(cmds[0]);
        ghost var q := plain;
        var rest := RunAll(cmds[1..]);
        TimersConcat(Step(config, p, cmds[0]).log, Run(config, q, cmds[1..]).log);
        fired := fired + rest;
      }
    }
  }

  lemma StoppedStored(c: Config, p: Plain, t: int, ticks: seq<Tick>)
    requires Listed(c, p) && Stored(ticks, p)
    ensures Listed(c, Stopped(p, t)) && Stored(ticks, Stopped(p, t))
    ensures forall x :: x in Stopped(p, t).pending <==> x in p.pending && x != t
  {
    hide Wrap;
    StoppedListed(c, p, t);
    UnlistedMembers(p.pending, t, p.keys);
  }

  /** For deadlines inside the window the search compares inside the half range. */
  lemma StartNear(c: Config, p: Plain, d: int)
    requires Listed(c, p) && Window(c, p, c.slack + 1) && p.now <= d < p.now + HALF - c.slack
    ensures Near(p, d)
  {}

  lemma LateNear(c: Config, p: Plain, d: int)
    requires Listed(c, p) && Window(c, p, c.slack) && p.now - c.slack <= d < p.now + HALF - c.slack
    ensures Near(p, d)
  {}

  lemma ListedKeyed(c: Config, p: Plain)
    requires Listed(c, p)
    ensures Keyed(p)
  {}

  lemma FlightIdle(c: Config, p: Plain, t: int)
    requires Good(c, p) && t in p.flight
    ensures c.Timer(t) && t !in p.pending
  {}

  lemma NotInRows(next: Links, prev: Links, rows: seq<seq<int>>, keys: Keys, count: nat, t: int)
    requires RowsGood(next, prev, rows, keys, count) && t !in Bottom(rows)
    ensures forall l :: 0 <= l < |rows| ==> t !in rows[l]
  {
    forall l | 0 <= l < |rows|
      ensures t !in rows[l]
    {
      WithinBottom(next, prev, rows, keys, count, l);
    }
  }

  lemma PlacedStored(c: Config, p: Plain, t: int, d: int, ticks: seq<Tick>)
    requires Listed(c, p) && c.Timer(t) && Stored(ticks, p) && t < |ticks| && ticks[t] == Wrap(d)
    ensures Stored(ticks, Placed(p, t, d))
  {
    hide Wrap;
    PlacedMembers(p, t, d);
  }

  lemma WiderWindow(c: Config, p: Plain)
    requires Good(c, p)
    ensures Listed(c, p) && Window(c, p, c.slack + 1)
  {}

  /** rt_list_init for the list head and every timer: each node points to itself. */
  function Alone(count: nat): (m: map<int, int>)
    ensures forall t :: HEAD <= t < count <==> t in m
    ensures forall t :: t in m ==> m[t] == t
  {
    if count == 0 then map[HEAD := HEAD] else Alone(count - 1)[count - 1 := count - 1]
  }

  ghost function Timers(log: seq<Fire>): seq<int> {
    seq(|log|, i requires 0 <= i < |log| => log[i].timer)
  }

  function FirstOf(s: seq<int>): int {
    if s == [] then HEAD else s[0]
  }

  /** The head of the bottom row points to the first pending timer. */
  lemma FirstTimer(next: Links, prev: Links, rows: seq<seq<int>>, keys: Keys, count: nat)
    requires RowsGood(next, prev, rows, keys, count)
    ensures |next| == |rows| > 0 && HEAD in next[|rows| - 1]
    ensures next[|rows| - 1][HEAD] == FirstOf(Bottom(rows))
    ensures Bottom(rows) != [] ==> Bottom(rows)[0] != HEAD
  {
    var l := |rows| - 1;
    assert Row(next[l], prev[l], rows[l], count);
    RowStep(next[l], prev[l], rows[l], count, 0);
    RowDistinct(next[l], prev[l], rows[l], count);
    if rows[l] == [] {
      RingNext(next[l], prev[l], [HEAD] + rows[l], 0);
    }
  }

  /** The comparison of rt_timer_check finds out whether the first timer is due. */
  lemma DueCompare(c: Config, p: Plain, ticks: seq<Tick>)
    requires Listed(c, p) && Window(c, p, c.slack + 1) && Stored(ticks, p) && p.pending != []
    ensures c.Timer(p.pending[0]) && p.pending[0] < |ticks|
    ensures Minus(Wrap(p.now), ticks[p.pending[0]]) < HALF <==> Due(p)
  {
    hide Wrap, Minus;
    var t := p.pending[0];
    assert t in p.pending;
    WindowCompare(p.now, p.keys[t].deadline);
  }

  lemma PopIsStopped(c: Config, p: Plain)
    requires Listed(c, p) && p.pending != []
    ensures Stopped(p, p.pending[0]) == p.(pending := p.pending[1..]) && p.pending[0] !in p.pending[1..]
    ensures forall t :: t in p.pending <==> t == p.pending[0] || t in p.pending[1..]
  {
    PopListed(c, p);
    SortedDistinct(p.pending, p.keys);
    IndexUnique(p.pending, 0);
    assert p.pending[0] in p.pending;
    assert Unlisted(p.pending, p.pending[0]) == p.pending[1..];
  }

  lemma PopKept(c: Config, p: Plain, ticks: seq<Tick>)
    requires Listed(c, p) && Window(c, p, c.slack + 1) && p.pending != [] && Stored(ticks, p)
    ensures var q := p.(pending := p.pending[1..]); Listed(c, q) && Window(c, q, c.slack + 1) && Stored(ticks, q)
  {
    hide Wrap;
    PopListed(c, p);
  }

  /** One round of the loop. */
  lemma CheckStep(c: Config, p: Plain)
    requires Listed(c, p) && Due(p)
    ensures Listed(c, Fired(c, p)) && DueCount(Fired(c, p)) < DueCount(p)
    ensures TimerRuns.Check(c, Fired(c, p)).state == TimerRuns.Check(c, p).state
    ensures Timers(TimerRuns.Check(c, p).log) == [p.pending[0]] + Timers(TimerRuns.Check(c, Fired(c, p)).log)
  {
    hide Fired, DueCount, Sorted;
    FiredDue(c, p);
  }

  lemma NothingDue(c: Config, p: Plain)
    requires Listed(c, p) && !Due(p)
    ensures TimerRuns.Check(c, p).state == p && Timers(TimerRuns.Check(c, p).log) == []
  {}

  lemma NoTimers()
    ensures Timers([]) == []
  {}

  lemma TimersConcat(a: seq<Fire>, b: seq<Fire>)
    ensures Timers(a + b) == Timers(a) + Timers(b)
  {}

  /** After up rows the remaining digits are those of tst. */
  ghost predicate Climbing(nr: nat, skip: nat, up: nat, tst: nat)
    requires skip > 0 && up > 0
  {
    && Climbs(nr, skip, up - 1)
    && forall i: nat :: Climbs(nr, skip, up - 1 + i) <==> Climbs(tst, skip, i)
  }

  lemma ClimbStart(nr: nat, skip: nat)
    requires skip > 0
    ensures Climbing(nr, skip, 1, nr)
  {}

  lemma ClimbStep(nr: nat, skip: nat, up: nat, tst: nat)
    requires skip > 0 && up > 0 && Climbing(nr, skip, up, tst) && tst % skip == 0
    ensures tst / skip >= 0 && Climbing(nr, skip, up + 1, tst / skip)
  {
    assert Climbs(tst / skip, skip, 0);
    assert Climbs(nr, skip, up - 1 + 1) <==> Climbs(tst, skip, 1);
    forall i: nat
      ensures Climbs(nr, skip, up + i) <==> Climbs(tst / skip, skip, i)
    {
      assert Climbs(nr, skip, up - 1 + (i + 1)) <==> Climbs(tst, skip, i + 1);
    }
  }

  lemma ClimbStop(nr: nat, skip: nat, up: nat, tst: nat)
    requires skip > 0 && up > 0 && Climbing(nr, skip, up, tst) && tst % skip != 0
    ensures forall i: nat :: i >= up ==> !Climbs(nr, skip, i)
  {
    forall i: nat | i >= up
      ensures !Climbs(nr, skip, i)
    {
      assert Climbs(nr, skip, up - 1 + (i - up + 1)) <==> Climbs(tst, skip, i - up + 1);
    }
  }

  lemma ClimbAll(nr: nat, skip: nat, up: nat, tst: nat)
    requires skip > 0 && up > 0 && Climbing(nr, skip, up, tst)
    ensures forall i: nat :: i < up ==> Climbs(nr, skip, i)
  {
    forall i: nat | i < up
      ensures Climbs(nr, skip, i)
    {
      ClimbsLess(nr, skip, up - 1, i);
    }
  }

  lemma SortedKeyed(s: seq<int>, keys: Keys)
    requires Sorted(s, keys)
    ensures forall i :: 0 <= i < |s| ==> s[i] in keys
  {}

  lemma RowNodes(next: map<int, int>, prev: map<int, int>, s: seq<int>, count: nat, t: int)
    requires Row(next, prev, s, count) && 0 <= t < count
    ensures TimerRows.Linked(next, prev, t)
  {}

  /** Stepping along a row. */
  lemma RowStep(next: map<int, int>, prev: map<int, int>, s: seq<int>, count: nat, k: nat)
    requires Row(next, prev, s, count) && k <= |s|
    ensures HEAD in prev && prev[HEAD] == NodeAt(s, |s|)
    ensures NodeAt(s, k) == prev[HEAD] <==> k == |s|
    ensures NodeAt(s, k) in next && (k < |s| ==> next[NodeAt(s, k)] == s[k])
  {
    hide Ring;
    var r := [HEAD] + s;
    RingPrev(next, prev, r, 0);
    RingNext(next, prev, r, k);
    RowDistinct(next, prev, s, count);
    assert NodeAt(s, k) == r[k] && NodeAt(s, |s|) == r[|s|];
  }
}
