/** What the timers of timer.c promise, on one plain list of pending timers over absolute time. */
module TimerRuns {
  import opened Rings
  import opened TimerOrder

  const HALF := 0x7fff_ffff   // RT_TICK_MAX / 2

  /** The fixed part of the timers: initial ticks and the periodic flag. slack bounds how many ticks past its
      deadline a timer may be when it is inserted; initial ticks stay that much below the half range. */
  datatype Config = Config(init: seq<nat>, periodic: seq<bool>, slack: nat) {
    predicate Ok() {
      && |init| == |periodic| && slack + 1 < HALF
      && forall t :: 0 <= t < |init| ==> init[t] + slack < HALF && (periodic[t] ==> init[t] > 0)
    }

    predicate Timer(t: int) { 0 <= t < |init| }
  }

  /** A timer on its way through rt_timer_start: removed, and then with its deadline computed. */
  datatype Phase = Removed | Armed(deadline: int)

  /** The pending timers in firing order, the key each timer was last started with, the absolute
      time, the number of insertions so far, and the timers between the sections of rt_timer_start. */
  datatype Plain = Plain(pending: seq<int>, keys: Keys, now: int, starts: nat, flight: map<int, Phase>)

  ghost predicate Keyed(p: Plain) {
    forall i :: 0 <= i < |p.pending| ==> p.pending[i] in p.keys
  }

  /** Deadlines stay in a window of half the tick range. */
  ghost predicate Window(c: Config, p: Plain, back: nat)
    requires Keyed(p)
  {
    forall t :: t in p.pending ==> p.now - back <= p.keys[t].deadline < p.now + HALF - c.slack
  }

  ghost predicate Listed(c: Config, p: Plain) {
    && c.Ok()
    && (forall t :: t in p.pending ==> c.Timer(t))
    && Sorted(p.pending, p.keys)
    && (forall t :: t in p.pending ==> p.keys[t].start < p.starts)
    && forall t :: t in p.flight ==> c.Timer(t) && t !in p.pending
  }

  ghost predicate Good(c: Config, p: Plain) {
    && Listed(c, p) && Window(c, p, c.slack)
    && forall t :: t in p.flight && p.flight[t].Armed? ==> p.flight[t].deadline < p.now + HALF - c.slack
  }

  // ---- starting and stopping ----

  /** Insertion behind every timer that is not later. */
  ghost function Placed(p: Plain, t: int, d: int): Plain
    requires Keyed(p)
  {
    p.(pending := StableInsert(p.pending, t, p.keys, d), keys := p.keys[t := Key(d, p.starts)], starts := p.starts + 1)
  }

  /** rt_timer_start without a tick in between: remove, then insert. */
  ghost function Started(c: Config, p: Plain, t: int): Plain
    requires Listed(c, p) && c.Timer(t)
  {
    StoppedListed(c, p, t);
    Placed(Stopped(p, t), t, p.now + c.init[t])
  }

  lemma UnlistedKept(s: seq<int>, t: int, keys: Keys)
    requires Sorted(s, keys)
    ensures Sorted(Unlisted(s, t), keys)
  {
    WithoutSorted(s, t, keys, keys);
  }

  lemma UnlistedMembers(s: seq<int>, t: int, keys: Keys)
    requires Sorted(s, keys)
    ensures forall x :: x in Unlisted(s, t) <==> x in s && x != t
  {
    SortedDistinct(s, keys);
    forall x
      ensures x in Unlisted(s, t) <==> x in s && x != t
    {
      UnlistedMember(s, t, x);
    }
  }

  /** rt_timer_stop. */
  ghost function Stopped(p: Plain, t: int): Plain {
    p.(pending := Unlisted(p.pending, t))
  }

  lemma StoppedListed(c: Config, p: Plain, t: int)
    requires Listed(c, p)
    ensures Listed(c, Stopped(p, t)) && t !in Stopped(p, t).pending
  {
    UnlistedKept(p.pending, t, p.keys);
    UnlistedMembers(p.pending, t, p.keys);
  }

  lemma StoppedWindow(c: Config, p: Plain, t: int, back: nat)
    requires Listed(c, p) && Window(c, p, back)
    ensures Listed(c, Stopped(p, t)) && Window(c, Stopped(p, t), back)
  {
    UnlistedKept(p.pending, t, p.keys);
    UnlistedMembers(p.pending, t, p.keys);
  }

  lemma StoppedGood(c: Config, p: Plain, t: int)
    requires Good(c, p)
    ensures Good(c, Stopped(p, t))
  {
    StoppedWindow(c, p, t, c.slack);
  }

  lemma PlacedMembers(p: Plain, t: int, d: int)
    requires Keyed(p)
    ensures forall x :: x in Placed(p, t, d).pending <==> x in p.pending || x == t
  {
    forall x
      ensures x in Placed(p, t, d).pending <==> x in p.pending || x == t
    {
      InsertMembers(p.pending, t, p.keys, d, x);
    }
  }

  lemma PlacedListed(c: Config, p: Plain, t: int, d: int)
    requires Listed(c, p) && c.Timer(t) && t !in p.pending && t !in p.flight
    ensures Listed(c, Placed(p, t, d))
  {
    PlacedMembers(p, t, d);
    var s := p.pending;
    forall i | 0 <= i < |s|
      ensures p.keys[s[i]].start < p.starts
    {
      var x := s[i];
      assert x in s;
    }
    InsertSorted(s, t, p.keys, d, p.starts);
  }

  lemma PlacedWindow(c: Config, p: Plain, t: int, d: int, back: nat)
    requires Listed(c, p) && Window(c, p, back) && c.Timer(t) && t !in p.pending && t !in p.flight
    requires p.now - back <= d < p.now + HALF - c.slack
    ensures Listed(c, Placed(p, t, d)) && Window(c, Placed(p, t, d), back)
  {
    PlacedListed(c, p, t, d);
    PlacedMembers(p, t, d);
  }

  lemma StartedMembers(c: Config, p: Plain, t: int)
    requires Listed(c, p) && c.Timer(t)
    ensures forall x :: x in Started(c, p, t).pending <==> x in p.pending || x == t
  {
    StoppedListed(c, p, t);
    UnlistedMembers(p.pending, t, p.keys);
    PlacedMembers(Stopped(p, t), t, p.now + c.init[t]);
  }

  lemma StartedListed(c: Config, p: Plain, t: int)
    requires Listed(c, p) && c.Timer(t) && t !in p.flight
    ensures Listed(c, Started(c, p, t))
  {
    StoppedListed(c, p, t);
    PlacedListed(c, Stopped(p, t), t, p.now + c.init[t]);
  }

  lemma StartedWindow(c: Config, p: Plain, t: int, back: nat)
    requires Listed(c, p) && Window(c, p, back) && c.Timer(t) && t !in p.flight
    ensures Listed(c, Started(c, p, t)) && Window(c, Started(c, p, t), back)
  {
    StoppedWindow(c, p, t, back);
    StoppedListed(c, p, t);
    PlacedWindow(c, Stopped(p, t), t, p.now + c.init[t], back);
  }

  lemma StartedGood(c: Config, p: Plain, t: int)
    requires Good(c, p) && c.Timer(t) && t !in p.flight
    ensures Good(c, Started(c, p, t))
  {
    StartedWindow(c, p, t, c.slack);
  }

  // ---- checking ----

  datatype Fire = Fire(timer: int, key: Key, at: int)

  datatype Checked = Checked(state: Plain, log: seq<Fire>)

  predicate Due(p: Plain) {
    p.pending != [] && p.pending[0] in p.keys && p.keys[p.pending[0]].deadline <= p.now
  }

  lemma PopListed(c: Config, p: Plain)
    requires Listed(c, p) && p.pending != []
    ensures Listed(c, p.(pending := p.pending[1..])) && p.pending[0] !in p.pending[1..]
    ensures forall t :: t in p.pending <==> t == p.pending[0] || t in p.pending[1..]
  {
    SortedTail(p.pending, p.keys);
    assert p.pending == [p.pending[0]] + p.pending[1..];
  }

  /** The first pending timer leaves the list and, when periodic, starts again. */
  ghost function Fired(c: Config, p: Plain): Plain
    requires Listed(c, p) && p.pending != []
  {
    PopListed(c, p);
    var t, q := p.pending[0], p.(pending := p.pending[1..]);
    if c.periodic[t] then Started(c, q, t) else q
  }

  lemma FiredListed(c: Config, p: Plain)
    requires Listed(c, p) && p.pending != []
    ensures Listed(c, Fired(c, p)) && Fired(c, p).now == p.now && Fired(c, p).flight == p.flight
    ensures forall t :: t in p.pending[1..] ==> Fired(c, p).keys[t] == p.keys[t]
    ensures forall t :: t in Fired(c, p).pending ==> t in p.pending
  {
    PopListed(c, p);
    var t, q := p.pending[0], p.(pending := p.pending[1..]);
    if c.periodic[t] {
      StartedListed(c, q, t);
      StartedMembers(c, q, t);
    }
  }

  /** How many pending timers are due. */
  ghost function DueCount(p: Plain): (k: nat)
    requires Keyed(p)
    ensures k <= |p.pending|
  {
    Slot(p.pending, p.keys, p.now)
  }

  lemma {:induction false} SlotMonotone(s: seq<int>, keys: Keys, d: int, e: int)
    requires d <= e && forall i :: 0 <= i < |s| ==> s[i] in keys
    ensures Slot(s, keys, d) <= Slot(s, keys, e)
  {
    if s != [] { SlotMonotone(s[1..], keys, d, e); }
  }

  /** A timer that starts in the future goes behind all that are due. */
  lemma SlotBehind(s: seq<int>, keys: Keys, now: int, t: int, d: int, key: Key)
    requires Sorted(s, keys) && t !in s && d >= now && key.deadline == d > now
    ensures forall i :: 0 <= i < |StableInsert(s, t, keys, d)| ==> StableInsert(s, t, keys, d)[i] in keys[t := key]
    ensures Slot(StableInsert(s, t, keys, d), keys[t := key], now) == Slot(s, keys, now)
    ensures StableInsert(s, t, keys, d)[..Slot(s, keys, now)] == s[..Slot(s, keys, now)]
  {
    hide Slot, Less;
    var r, k, n := StableInsert(s, t, keys, d), Slot(s, keys, d), Slot(s, keys, now);
    SlotSplits(s, keys, d);
    SlotSplits(s, keys, now);
    SlotMonotone(s, keys, now, d);
    assert forall i :: 0 <= i < |r| ==> r[i] == if i < k then s[i] else if i == k then t else s[i - 1];
    SlotPrefix(r, keys[t := key], now, n);
  }

  lemma {:induction false} SlotPrefix(s: seq<int>, keys: Keys, d: int, n: nat)
    requires n <= |s| && forall i :: 0 <= i < |s| ==> s[i] in keys
    requires forall i :: 0 <= i < n ==> keys[s[i]].deadline <= d
    requires n < |s| ==> keys[s[n]].deadline > d
    ensures Slot(s, keys, d) == n
  {
    if n > 0 {
      assert forall i :: 0 <= i < |s| - 1 ==> s[1..][i] == s[i + 1];
      SlotPrefix(s[1..], keys, d, n - 1);
    }
  }

  lemma PopDue(s: seq<int>, keys: Keys, now: int)
    requires Sorted(s, keys) && s != [] && keys[s[0]].deadline <= now
    ensures Slot(s[1..], keys, now) == Slot(s, keys, now) - 1
    ensures s[1..][..Slot(s[1..], keys, now)] == s[1..Slot(s, keys, now)]
  {}

  /** Firing takes the first due timer off the due ones and leaves the others in place. */
  lemma FiredDue(c: Config, p: Plain)
    requires Listed(c, p) && Due(p)
    ensures Listed(c, Fired(c, p)) && Fired(c, p).now == p.now
    ensures DueCount(p) > 0 && DueCount(Fired(c, p)) == DueCount(p) - 1
    ensures Fired(c, p).pending[..DueCount(p) - 1] == p.pending[1..DueCount(p)]
  {
    hide Sorted, Slot;
    PopListed(c, p);
    PopDue(p.pending, p.keys, p.now);
    var t, q := p.pending[0], p.(pending := p.pending[1..]);
    FiredListed(c, p);
    if c.periodic[t] { RestartDue(c, q, t); }
  }

  lemma RestartDue(c: Config, q: Plain, t: int)
    requires Listed(c, q) && c.Timer(t) && c.periodic[t] && t !in q.pending && t !in q.flight
    ensures Listed(c, Started(c, q, t)) && DueCount(Started(c, q, t)) == DueCount(q)
    ensures Started(c, q, t).pending[..DueCount(q)] == q.pending[..DueCount(q)]
  {
    hide Sorted, Slot;
    StartedListed(c, q, t);
    assert Stopped(q, t) == q;
    SlotBehind(q.pending, q.keys, q.now, t, q.now + c.init[t], Key(q.now + c.init[t], q.starts));
  }

  /** rt_timer_check: as long as the first pending timer is due, it fires. */
  ghost function Check(c: Config, p: Plain): (r: Checked)
    requires Listed(c, p)
    decreases DueCount(p)
  {
    if Due(p) then
      FiredDue(c, p);
      var r := Check(c, Fired(c, p));
      r.(log := [Fire(p.pending[0], p.keys[p.pending[0]], p.now)] + r.log)
    else
      Checked(p, [])
  }

  /** The check fires exactly the due timers, in the order of the list. */
  lemma {:induction false} CheckFiresDue(c: Config, p: Plain)
    requires Listed(c, p)
    ensures |Check(c, p).log| == DueCount(p)
    ensures forall i :: 0 <= i < DueCount(p) ==> Check(c, p).log[i] == Fire(p.pending[i], p.keys[p.pending[i]], p.now)
    decreases DueCount(p)
  {
    if Due(p) {
      var f, n := Fired(c, p), DueCount(p);
      FiredDue(c, p);
      FiredListed(c, p);
      CheckFiresDue(c, f);
      forall i | 0 <= i < n
        ensures Check(c, p).log[i] == Fire(p.pending[i], p.keys[p.pending[i]], p.now)
      {
        if i > 0 {
          var t := p.pending[i];
          assert f.pending[..n - 1][i - 1] == p.pending[1..n][i - 1] == t;
          assert p.pending[1..][i - 1] == t;
          assert f.pending[i - 1] == t;
        }
      }
    }
  }

  /** Nothing that is due stays behind, and what is pending is still listed in order. */
  lemma {:induction false} CheckListed(c: Config, p: Plain)
    requires Listed(c, p)
    ensures Listed(c, Check(c, p).state) && Check(c, p).state.now == p.now && Check(c, p).state.flight == p.flight
    ensures !Due(Check(c, p).state)
    decreases DueCount(p)
  {
    if Due(p) {
      FiredDue(c, p);
      FiredListed(c, p);
      CheckListed(c, Fired(c, p));
    }
  }

  lemma {:induction false} CheckWindow(c: Config, p: Plain, back: nat)
    requires Listed(c, p) && Window(c, p, back)
    ensures Listed(c, Check(c, p).state) && Window(c, Check(c, p).state, back)
    decreases DueCount(p)
  {
    if Due(p) {
      FiredDue(c, p);
      FiredWindow(c, p, back);
      CheckWindow(c, Fired(c, p), back);
    }
  }

  lemma FiredWindow(c: Config, p: Plain, back: nat)
    requires Listed(c, p) && Window(c, p, back) && p.pending != []
    ensures Listed(c, Fired(c, p)) && Window(c, Fired(c, p), back)
  {
    PopListed(c, p);
    var t, q := p.pending[0], p.(pending := p.pending[1..]);
    if c.periodic[t] { StartedWindow(c, q, t, back); }
  }

  /** When the first pending timer is not due, none is. */
  lemma NoneDue(c: Config, p: Plain)
    requires Listed(c, p) && !Due(p)
    ensures forall t :: t in p.pending ==> p.keys[t].deadline > p.now
  {
    forall t | t in p.pending
      ensures p.keys[t].deadline > p.now
    {
      FirstIsLeast(p.pending, p.keys, t);
    }
  }

  // ---- runs ----

  /** rt_timer_start as a whole, as the check calls it, or in its parts: the section that removes the timer, the
      computation of the deadline, and the section that inserts it. */
  datatype Command = Start(timer: int) | Remove(timer: int) | Arm(timer: int) | Insert(timer: int) | Stop(timer: int) | Tick

  /** Calls on one timer do not overlap, and a timer is inserted at most slack ticks past its deadline. */
  ghost predicate Enabled(c: Config, p: Plain, cmd: Command) {
    match cmd
    case Start(t) => c.Timer(t) && t !in p.flight
    case Remove(t) => c.Timer(t) && t !in p.flight
    case Arm(t) => t in p.flight && p.flight[t].Removed?
    case Insert(t) => t in p.flight && p.flight[t].Armed? && p.now - p.flight[t].deadline <= c.slack
    case Stop(t) => c.Timer(t) && t !in p.flight
    case Tick => true
  }

  /** One command; a tick advances the time and checks the list. */
  ghost function Step(c: Config, p: Plain, cmd: Command): Checked
    requires Listed(c, p) && Enabled(c, p, cmd)
  {
    match cmd
    case Start(t) => Checked(Started(c, p, t), [])
    case Remove(t) => Checked(Stopped(p, t).(flight := p.flight[t := Removed]), [])
    case Arm(t) => Checked(p.(flight := p.flight[t := Armed(p.now + c.init[t])]), [])
    case Insert(t) => Checked(Placed(p.(flight := p.flight - {t}), t, p.flight[t].deadline), [])
    case Stop(t) => Checked(Stopped(p, t), [])
    case Tick => Check(c, p.(now := p.now + 1))
  }

  lemma GoodListed(c: Config, p: Plain)
    requires Good(c, p)
    ensures Listed(c, p) && Keyed(p)
  {}

  lemma InsertGood(c: Config, p: Plain, t: int)
    requires Good(c, p) && Enabled(c, p, Insert(t))
    ensures Good(c, Step(c, p, Insert(t)).state)
  {
    PlacedWindow(c, p.(flight := p.flight - {t}), t, p.flight[t].deadline, c.slack);
  }

  lemma TickGood(c: Config, p: Plain)
    requires Good(c, p)
    ensures Good(c, Step(c, p, Tick).state)
    ensures forall t :: t in Step(c, p, Tick).state.pending ==> Step(c, p, Tick).state.keys[t].deadline > p.now + 1
  {
    hide Sorted, Check;
    var q := p.(now := p.now + 1);
    CheckWindow(c, q, c.slack + 1);
    CheckListed(c, q);
    NoneDue(c, Check(c, q).state);
  }

  lemma StepGood(c: Config, p: Plain, cmd: Command)
    requires Good(c, p) && Enabled(c, p, cmd)
    ensures Good(c, Step(c, p, cmd).state)
  {
    match cmd
    case Start(t) => StartedGood(c, p, t);
    case Remove(t) =>
      StoppedGood(c, p, t);
      StoppedListed(c, p, t);
    case Arm(t) =>
    case Insert(t) => InsertGood(c, p, t);
    case Stop(t) => StoppedGood(c, p, t);
    case Tick => TickGood(c, p);
  }

  ghost predicate Possible(c: Config, p: Plain, cmds: seq<Command>)
    requires Good(c, p)
    decreases |cmds|
  {
    cmds == [] || (Enabled(c, p, cmds[0]) && (StepGood(c, p, cmds[0]); Possible(c, Step(c, p, cmds[0]).state, cmds[1..])))
  }

  ghost function Run(c: Config, p: Plain, cmds: seq<Command>): Checked
    requires Good(c, p) && Possible(c, p, cmds)
    decreases |cmds|
  {
    if cmds == [] then Checked(p, [])
    else
      StepGood(c, p, cmds[0]);
      var s := Step(c, p, cmds[0]);
      var r := Run(c, s.state, cmds[1..]);
      r.(log := s.log + r.log)
  }

  lemma {:induction false} RunGood(c: Config, p: Plain, cmds: seq<Command>)
    requires Good(c, p) && Possible(c, p, cmds)
    ensures Good(c, Run(c, p, cmds).state)
    ensures Run(c, p, cmds).state.now == p.now + Ticks(cmds)
    decreases |cmds|
  {
    hide Good, Step;
    GoodListed(c, p);
    if cmds != [] {
      StepGood(c, p, cmds[0]);
      StepNow(c, p, cmds[0]);
      RunGood(c, Step(c, p, cmds[0]).state, cmds[1..]);
    }
  }

  function Ticks(cmds: seq<Command>): nat {
    if cmds == [] then 0 else (if cmds[0] == Tick then 1 else 0) + Ticks(cmds[1..])
  }

  lemma StepNow(c: Config, p: Plain, cmd: Command)
    requires Good(c, p) && Enabled(c, p, cmd)
    ensures Step(c, p, cmd).state.now == p.now + if cmd == Tick then 1 else 0
  {
    if cmd == Tick { CheckListed(c, p.(now := p.now + 1)); }
  }

  // ---- never early, never late, always in order ----

  /** The tick at which a pending timer fires: its deadline, or the next tick when that has passed. */
  ghost function FireTime(p: Plain, t: int): int
    requires t in p.keys
  {
    if p.keys[t].deadline > p.now then p.keys[t].deadline else p.now + 1
  }

  lemma StepFires(c: Config, p: Plain, cmd: Command)
    requires Good(c, p) && Enabled(c, p, cmd)
    ensures forall f :: f in Step(c, p, cmd).log ==>
              f.timer in p.pending && f.key == p.keys[f.timer] && f.at == FireTime(p, f.timer) == p.now + 1
    ensures forall i, j :: 0 <= i < j < |Step(c, p, cmd).log| ==> Less(Step(c, p, cmd).log[i].key, Step(c, p, cmd).log[j].key)
  {
    hide Check, Slot;
    if cmd == Tick {
      var q := p.(now := p.now + 1);
      CheckFiresDue(c, q);
      SlotSplits(p.pending, p.keys, q.now);
      var log := Check(c, q).log;
      forall f | f in log
        ensures f.timer in p.pending && f.key == p.keys[f.timer] && f.at == FireTime(p, f.timer) == p.now + 1
      {
        var i :| 0 <= i < |log| && log[i] == f;
        assert p.pending[i] in p.pending;
      }
    }
  }

  /** A step leaves the key of a pending timer alone or replaces it by a later insertion. */
  ghost predicate KeptOrLater(p: Plain, q: Plain) {
    forall t :: t in q.pending && t in q.keys ==> (t in p.pending && t in p.keys && q.keys[t] == p.keys[t]) || q.keys[t].start >= p.starts
  }

  lemma {:induction false} CheckKeys(c: Config, p: Plain)
    requires Listed(c, p)
    ensures KeptOrLater(p, Check(c, p).state) && Check(c, p).state.starts >= p.starts
    decreases DueCount(p)
  {
    if Due(p) {
      FiredDue(c, p);
      FiredListed(c, p);
      PopListed(c, p);
      CheckKeys(c, Fired(c, p));
    }
  }

  lemma StepKeys(c: Config, p: Plain, cmd: Command)
    requires Good(c, p) && Enabled(c, p, cmd)
    ensures KeptOrLater(p, Step(c, p, cmd).state) && Step(c, p, cmd).state.starts >= p.starts
  {
    match cmd
    case Start(t) => StartedMembers(c, p, t);
    case Remove(t) => UnlistedMembers(p.pending, t, p.keys);
    case Arm(t) =>
    case Insert(t) => PlacedMembers(p.(flight := p.flight - {t}), t, p.flight[t].deadline);
    case Stop(t) => UnlistedMembers(p.pending, t, p.keys);
    case Tick => CheckKeys(c, p.(now := p.now + 1));
  }

  /** What fires in the future is pending now or will be inserted. */
  ghost predicate FreshOrPending(p: Plain, f: Fire) {
    && f.at > p.now && f.at >= f.key.deadline
    && (f.key.start >= p.starts || (f.timer in p.pending && f.timer in p.keys && f.key == p.keys[f.timer] && f.at == FireTime(p, f.timer)))
  }

  lemma {:induction false} RunFires(c: Config, p: Plain, cmds: seq<Command>)
    requires Good(c, p) && Possible(c, p, cmds)
    ensures forall f :: f in Run(c, p, cmds).log ==> FreshOrPending(p, f)
    decreases |cmds|
  {
    hide Check, Slot, Good;
    GoodListed(c, p);
    if cmds != [] {
      var s := Step(c, p, cmds[0]);
      StepGood(c, p, cmds[0]);
      StepFires(c, p, cmds[0]);
      var r := Run(c, s.state, cmds[1..]);
      RunFires(c, s.state, cmds[1..]);
      forall f | f in s.log + r.log
        ensures FreshOrPending(p, f)
      {
        if f in r.log { FiresLater(c, p, cmds[0], f); }
      }
    }
  }

  lemma FiresLater(c: Config, p: Plain, cmd: Command, f: Fire)
    requires Good(c, p) && Enabled(c, p, cmd) && FreshOrPending(Step(c, p, cmd).state, f)
    ensures FreshOrPending(p, f)
  {
    hide Check, Slot, Sorted;
    StepKeys(c, p, cmd);
    StepNow(c, p, cmd);
    if cmd == Tick { TickGood(c, p); }
  }

  /** f fires before g: at an earlier tick, or at the same tick with the earlier deadline, or with the same
      deadline and inserted first. A timer that is inserted in time does not fire behind a later deadline. */
  ghost predicate InOrder(f: Fire, g: Fire) {
    && (f.at < g.at || (f.at == g.at && Less(f.key, g.key)))
    && (g.at <= g.key.deadline + 1 ==> Less(f.key, g.key))
  }

  /** Over any run timers fire in order, and none before its deadline. */
  lemma {:induction false} RunFiresInOrder(c: Config, p: Plain, cmds: seq<Command>)
    requires Good(c, p) && Possible(c, p, cmds)
    ensures forall f :: f in Run(c, p, cmds).log ==> f.at >= f.key.deadline
    ensures forall i, j :: 0 <= i < j < |Run(c, p, cmds).log| ==> InOrder(Run(c, p, cmds).log[i], Run(c, p, cmds).log[j])
    decreases |cmds|
  {
    hide InOrder, Step, Good, FreshOrPending;
    GoodListed(c, p);
    RunFires(c, p, cmds);
    FreshDeadline(p);
    if cmds != [] {
      var s := Step(c, p, cmds[0]);
      StepGood(c, p, cmds[0]);
      var r := Run(c, s.state, cmds[1..]);
      RunFiresInOrder(c, s.state, cmds[1..]);
      RunFires(c, s.state, cmds[1..]);
      forall i, j | 0 <= i < j < |s.log|
        ensures InOrder(s.log[i], s.log[j])
      {
        SameTick(c, p, cmds[0], i, j);
      }
      forall i, j | 0 <= i < |s.log| && 0 <= j < |r.log|
        ensures InOrder(s.log[i], r.log[j])
      {
        assert s.log[i] in s.log && r.log[j] in r.log;
        TickThenLater(c, p, cmds[0], s.log[i], r.log[j]);
      }
    }
  }

  lemma FreshDeadline(p: Plain)
    ensures forall f :: FreshOrPending(p, f) ==> f.at >= f.key.deadline
  {}

  lemma SameTick(c: Config, p: Plain, cmd: Command, i: nat, j: nat)
    requires Good(c, p) && Enabled(c, p, cmd) && i < j < |Step(c, p, cmd).log|
    ensures InOrder(Step(c, p, cmd).log[i], Step(c, p, cmd).log[j])
  {
    hide Step, Good;
    GoodListed(c, p);
    StepFires(c, p, cmd);
    var log := Step(c, p, cmd).log;
    assert log[i] in log && log[j] in log;
  }

  lemma TickThenLater(c: Config, p: Plain, cmd: Command, f: Fire, g: Fire)
    requires Good(c, p) && Enabled(c, p, cmd)
    requires f in Step(c, p, cmd).log && FreshOrPending(Step(c, p, cmd).state, g)
    ensures InOrder(f, g)
  {
    hide Check, Slot, Sorted;
    StepFires(c, p, cmd);
    StepKeys(c, p, cmd);
    StepNow(c, p, cmd);
    assert cmd == Tick;
    TickGood(c, p);
  }

  // ---- every timer fires on time ----

  ghost function Times(log: seq<Fire>, t: int): seq<int> {
    if log == [] then [] else (if log[0].timer == t then [log[0].at] else []) + Times(log[1..], t)
  }

  lemma {:induction false} TimesConcat(a: seq<Fire>, b: seq<Fire>, t: int)
    ensures Times(a + b, t) == Times(a, t) + Times(b, t)
  {
    if a == [] {
      assert a + b == b;
    } else {
      var ab := a + b;
      assert ab[0] == a[0] && ab[1..] == a[1..] + b;
      TimesConcat(a[1..], b, t);
      var first := if a[0].timer == t then [a[0].at] else [];
      assert first + (Times(a[1..], t) + Times(b, t)) == (first + Times(a[1..], t)) + Times(b, t);
    }
  }

  /** The moments d, d + period, ... up to end; only d for a one-shot timer. */
  ghost function Beats(c: Config, t: int, d: int, end: int): seq<int>
    requires c.Ok() && c.Timer(t)
    decreases end - d
  {
    if d > end then [] else [d] + if c.periodic[t] then Beats(c, t, d + c.init[t], end) else []
  }

  /** What one check does to one timer. */
  ghost predicate CheckedTimer(c: Config, p: Plain, t: int, r: Checked) {
    if t !in p.pending then Times(r.log, t) == [] && t !in r.state.pending
    else if t in p.keys && p.keys[t].deadline <= p.now then
      && Times(r.log, t) == [p.now]
      && (t in r.state.pending <==> c.Timer(t) && t < |c.periodic| && c.periodic[t])
      && (t in r.state.pending ==> t in r.state.keys && r.state.keys[t].deadline == p.now + c.init[t])
    else
      && Times(r.log, t) == []
      && t in r.state.pending && t in r.state.keys && t in p.keys && r.state.keys[t] == p.keys[t]
  }

  lemma FiredTimer(c: Config, p: Plain, t: int)
    requires Listed(c, p) && p.pending != []
    ensures p.pending[0] in p.pending
    ensures t != p.pending[0] ==> (t in Fired(c, p).pending <==> t in p.pending)
    ensures t != p.pending[0] && t in p.pending ==> t in Fired(c, p).keys && Fired(c, p).keys[t] == p.keys[t]
    ensures t == p.pending[0] ==> (t in Fired(c, p).pending <==> c.periodic[t])
    ensures t == p.pending[0] && c.periodic[t] ==> t in Fired(c, p).keys && Fired(c, p).keys[t].deadline == p.now + c.init[t]
  {
    PopListed(c, p);
    var h, q := p.pending[0], p.(pending := p.pending[1..]);
    assert h in p.pending;
    if c.periodic[h] { StartedMembers(c, q, h); }
  }

  lemma {:induction false} CheckTimer(c: Config, p: Plain, t: int)
    requires Listed(c, p)
    ensures CheckedTimer(c, p, t, Check(c, p))
    decreases DueCount(p)
  {
    if Due(p) {
      FiredDue(c, p);
      FiredListed(c, p);
      PopListed(c, p);
      CheckTimer(c, Fired(c, p), t);
      FiredTimer(c, p, t);
    } else {
      NoneDue(c, p);
    }
  }

  /** The command starts or stops this timer. */
  predicate About(cmd: Command, t: int) { cmd != Tick && cmd.timer == t }

  lemma {:induction false} SilentTimer(c: Config, p: Plain, cmds: seq<Command>, t: int)
    requires Good(c, p) && Possible(c, p, cmds)
    requires t !in p.pending && forall i :: 0 <= i < |cmds| ==> !About(cmds[i], t)
    ensures var r := Run(c, p, cmds); Times(r.log, t) == [] && t !in r.state.pending
    ensures var r := Run(c, p, cmds); (t in r.state.flight <==> t in p.flight) && (t in p.flight ==> r.state.flight[t] == p.flight[t])
    decreases |cmds|
  {
    hide Good, Check;
    GoodListed(c, p);
    if cmds != [] {
      var s := Step(c, p, cmds[0]);
      StepGood(c, p, cmds[0]);
      SilentStep(c, p, cmds[0], t);
      SilentTimer(c, s.state, cmds[1..], t);
      TimesConcat(s.log, Run(c, s.state, cmds[1..]).log, t);
    }
  }

  lemma SilentStep(c: Config, p: Plain, cmd: Command, t: int)
    requires Good(c, p) && Enabled(c, p, cmd) && t !in p.pending && !About(cmd, t)
    ensures var s := Step(c, p, cmd); Times(s.log, t) == [] && t !in s.state.pending
    ensures var s := Step(c, p, cmd); (t in s.state.flight <==> t in p.flight) && (t in p.flight ==> s.state.flight[t] == p.flight[t])
  {
    hide Check, Sorted;
    GoodListed(c, p);
    match cmd
    case Start(u) => StartedMembers(c, p, u);
    case Remove(u) => UnlistedMembers(p.pending, u, p.keys);
    case Arm(u) =>
    case Insert(u) => PlacedMembers(p.(flight := p.flight - {u}), u, p.flight[u].deadline);
    case Stop(u) => UnlistedMembers(p.pending, u, p.keys);
    case Tick =>
      CheckTimer(c, p.(now := p.now + 1), t);
      CheckListed(c, p.(now := p.now + 1));
  }

  lemma StepTimer(c: Config, p: Plain, cmd: Command, t: int)
    requires Good(c, p) && Enabled(c, p, cmd) && t in p.pending && !About(cmd, t)
    ensures var s := Step(c, p, cmd); Good(c, s.state) && FireTime(p, t) > p.now
    ensures var s := Step(c, p, cmd); s.state.now < FireTime(p, t) ==> Times(s.log, t) == [] && t in s.state.pending
    ensures var s := Step(c, p, cmd); s.state.now < FireTime(p, t) ==> t in s.state.keys && FireTime(s.state, t) == FireTime(p, t)
    ensures var s := Step(c, p, cmd); s.state.now >= FireTime(p, t) ==> Times(s.log, t) == [FireTime(p, t)]
    ensures var s := Step(c, p, cmd); s.state.now >= FireTime(p, t) ==> (t in s.state.pending <==> c.periodic[t])
    ensures var s := Step(c, p, cmd); s.state.now >= FireTime(p, t) && c.periodic[t] ==>
              t in s.state.keys && FireTime(s.state, t) == FireTime(p, t) + c.init[t]
  {
    hide Check, Sorted;
    GoodListed(c, p);
    StepGood(c, p, cmd);
    StepNow(c, p, cmd);
    match cmd
    case Start(u) => StartedMembers(c, p, u);
    case Remove(u) => UnlistedMembers(p.pending, u, p.keys);
    case Arm(u) =>
    case Insert(u) => PlacedMembers(p.(flight := p.flight - {u}), u, p.flight[u].deadline);
    case Stop(u) => UnlistedMembers(p.pending, u, p.keys);
    case Tick => CheckTimer(c, p.(now := p.now + 1), t);
  }

  lemma NothingYet(c: Config, p: Plain, t: int)
    requires Good(c, p) && t in p.pending
    ensures Listed(c, p) && c.Timer(t) && t in p.keys && FireTime(p, t) > p.now
  {}

  /** A pending timer that is neither stopped nor started again fires at its deadline, or at the next tick when
      that has passed, and when periodic at every period after it; never at another time. */
  lemma {:induction false} FiresOnTime(c: Config, p: Plain, cmds: seq<Command>, t: int)
    requires Good(c, p) && Possible(c, p, cmds)
    requires t in p.pending && forall i :: 0 <= i < |cmds| ==> !About(cmds[i], t)
    ensures t in p.keys && Times(Run(c, p, cmds).log, t) == Beats(c, t, FireTime(p, t), Run(c, p, cmds).state.now)
    decreases |cmds|
  {
    hide Good, Step;
    NothingYet(c, p, t);
    if cmds != [] {
      var s, rest := Step(c, p, cmds[0]), cmds[1..];
      StepTimer(c, p, cmds[0], t);
      var r := Run(c, s.state, rest);
      TimesConcat(s.log, r.log, t);
      RunGood(c, s.state, rest);
      if t in s.state.pending {
        FiresOnTime(c, s.state, rest, t);
      } else {
        SilentTimer(c, s.state, rest, t);
      }
    }
  }

  // ---- a call, and what comes of it ----

  predicate NotAbout(cmds: seq<Command>, t: int) { forall i :: 0 <= i < |cmds| ==> !About(cmds[i], t) }

  lemma StartedRun(c: Config, p: Plain, t: int, e: seq<Command>)
    requires Good(c, p) && Possible(c, p, [Start(t)] + e)
    ensures Listed(c, p) && Enabled(c, p, Start(t)) && c.Ok() && c.Timer(t)
    ensures var s := Step(c, p, Start(t)); s.log == [] && Good(c, s.state) && Possible(c, s.state, e)
    ensures Run(c, p, [Start(t)] + e) == Run(c, Step(c, p, Start(t)).state, e)
  {
    hide Good, Started;
    GoodListed(c, p);
    assert ([Start(t)] + e)[0] == Start(t) && ([Start(t)] + e)[1..] == e;
    StepGood(c, p, Start(t));
    TimerListed(c, p);
    var r := Run(c, Step(c, p, Start(t)).state, e);
    assert [] + r.log == r.log;
  }

  lemma TimerListed(c: Config, p: Plain)
    requires Listed(c, p)
    ensures c.Ok()
  {}

  /** A timer that is started fires after its initial ticks, a periodic one again after every further period, and at no
      other time, as long as no other call names it; a timer of no ticks fires at the next one. */
  lemma StartFires(c: Config, p: Plain, t: int, e: seq<Command>)
    requires Good(c, p) && Possible(c, p, [Start(t)] + e) && NotAbout(e, t)
    ensures c.Ok() && c.Timer(t)
    ensures var r := Run(c, p, [Start(t)] + e);
            Times(r.log, t) == Beats(c, t, p.now + if c.init[t] > 0 then c.init[t] else 1, r.state.now)
  {
    hide Good, Possible, Run, Times, Beats;
    StartedRun(c, p, t, e);
    StartedMembers(c, p, t);
    FiresOnTime(c, Step(c, p, Start(t)).state, e, t);
  }

  /** A timer that is stopped, pending or not, does not fire until another call names it. */
  lemma StopSilences(c: Config, p: Plain, t: int, e: seq<Command>)
    requires Good(c, p) && Possible(c, p, [Stop(t)] + e) && NotAbout(e, t)
    ensures Times(Run(c, p, [Stop(t)] + e).log, t) == [] && t !in Run(c, p, [Stop(t)] + e).state.pending
  {
    hide Good, Times, Sorted;
    GoodListed(c, p);
    assert ([Stop(t)] + e)[0] == Stop(t) && ([Stop(t)] + e)[1..] == e;
    StepGood(c, p, Stop(t));
    StoppedListed(c, p, t);
    SilentTimer(c, Stopped(p, t), e, t);
    var r := Run(c, Stopped(p, t), e);
    assert [] + r.log == r.log;
  }

  // ---- rt_timer_start in two sections ----

  lemma {:induction false} RunConcat(c: Config, p: Plain, a: seq<Command>, b: seq<Command>)
    requires Good(c, p) && Possible(c, p, a + b)
    ensures Possible(c, p, a) && Good(c, Run(c, p, a).state) && Possible(c, Run(c, p, a).state, b)
    ensures Run(c, p, a + b).state == Run(c, Run(c, p, a).state, b).state
    ensures Run(c, p, a + b).log == Run(c, p, a).log + Run(c, Run(c, p, a).state, b).log
    decreases |a|
  {
    hide Good, Step;
    GoodListed(c, p);
    if a == [] {
      assert a + b == b;
    } else {
      assert (a + b)[0] == a[0] && (a + b)[1..] == a[1..] + b;
      StepGood(c, p, a[0]);
      RunConcat(c, Step(c, p, a[0]).state, a[1..], b);
    }
  }

  lemma RunOne(c: Config, p: Plain, cmd: Command)
    requires Good(c, p) && Possible(c, p, [cmd])
    ensures Listed(c, p) && Enabled(c, p, cmd) && Run(c, p, [cmd]) == Step(c, p, cmd)
  {
    hide Good, Step;
    GoodListed(c, p);
    StepGood(c, p, cmd);
    assert [cmd][1..] == [];
  }

  /** Once inserted, a timer fires at its deadline exactly if no tick at or past it has come before the insertion,
      and otherwise at the first tick after the insertion. */
  lemma InsertedFires(c: Config, p: Plain, t: int)
    requires Good(c, p) && Enabled(c, p, Insert(t))
    ensures var s, d := Step(c, p, Insert(t)).state, p.flight[t].deadline;
            t in s.pending && t in s.keys && s.now == p.now && FireTime(s, t) == (if d > p.now then d else p.now + 1)
    ensures FireTime(Step(c, p, Insert(t)).state, t) == p.flight[t].deadline <==> p.now < p.flight[t].deadline
  {
    GoodListed(c, p);
    PlacedMembers(p.(flight := p.flight - {t}), t, p.flight[t].deadline);
  }

  /** rt_timer_start in its parts: a comes between the first section and the computation of the deadline, b
      between that and the second section, e afterwards. */
  function InsertThen(t: int, e: seq<Command>): seq<Command> { [Insert(t)] + e }

  function ArmThen(t: int, b: seq<Command>, e: seq<Command>): seq<Command> { [Arm(t)] + (b + InsertThen(t, e)) }

  function RemoveThen(t: int, a: seq<Command>, b: seq<Command>, e: seq<Command>): seq<Command> { [Remove(t)] + (a + ArmThen(t, b, e)) }

  /** From the second section on. */
  lemma InsertRun(c: Config, p: Plain, t: int, e: seq<Command>)
    requires Good(c, p) && Possible(c, p, InsertThen(t, e)) && NotAbout(e, t)
    ensures Listed(c, p) && c.Timer(t) && t in p.flight && p.flight[t].Armed?
    ensures var r, d := Run(c, p, InsertThen(t, e)), p.flight[t].deadline;
            Times(r.log, t) == Beats(c, t, if d > p.now then d else p.now + 1, r.state.now)
  {
    hide Good, Step, Run, Possible, Times, Beats, FireTime;
    RunConcat(c, p, [Insert(t)], e);
    RunOne(c, p, Insert(t));
    InsertedFires(c, p, t);
    Inserting(c, p, t);
    FiresOnTime(c, Step(c, p, Insert(t)).state, e, t);
    NothingBefore([], Run(c, Step(c, p, Insert(t)).state, e).log, t);
  }

  /** Whatever happens before the second section. */
  lemma WaitRun(c: Config, p: Plain, t: int, b: seq<Command>, e: seq<Command>)
    requires Good(c, p) && Possible(c, p, b + InsertThen(t, e)) && t !in p.pending && t in p.flight && p.flight[t].Armed?
    requires NotAbout(b, t) && NotAbout(e, t)
    ensures c.Ok() && c.Timer(t)
    ensures var r, d, n := Run(c, p, b + InsertThen(t, e)), p.flight[t].deadline, p.now + Ticks(b);
            Times(r.log, t) == Beats(c, t, if d > n then d else n + 1, r.state.now)
  {
    hide Good, Step, Run, Possible, Ticks, Times, Beats, InsertThen;
    RunConcat(c, p, b, InsertThen(t, e));
    SilentTimer(c, p, b, t);
    RunGood(c, p, b);
    InsertRun(c, Run(c, p, b).state, t, e);
    NothingBefore(Run(c, p, b).log, Run(c, Run(c, p, b).state, InsertThen(t, e)).log, t);
  }

  lemma ArmRun(c: Config, p: Plain, t: int, b: seq<Command>, e: seq<Command>)
    requires Good(c, p) && Possible(c, p, ArmThen(t, b, e)) && t !in p.pending && NotAbout(b, t) && NotAbout(e, t)
    ensures c.Ok() && c.Timer(t)
    ensures var r := Run(c, p, ArmThen(t, b, e)); Times(r.log, t) == Beats(c, t, Met(c, t, p.now, b), r.state.now)
  {
    hide Good, Step, Run, Possible, Ticks, Times, Beats, InsertThen;
    ghost var rest := b + InsertThen(t, e);
    RunConcat(c, p, [Arm(t)], rest);
    RunOne(c, p, Arm(t));
    Arming(c, p, t);
    WaitRun(c, Step(c, p, Arm(t)).state, t, b, e);
    NothingBefore([], Run(c, Step(c, p, Arm(t)).state, rest).log, t);
  }

  /** When a timer fires whose deadline was computed at a tick, with b between that and its insertion. */
  function Met(c: Config, t: int, at: int, b: seq<Command>): int
    requires c.Timer(t)
  {
    if Ticks(b) < c.init[t] then at + c.init[t] else at + Ticks(b) + 1
  }

  /** Whatever the interrupts do between the sections: the deadline counts from the moment it is computed, and it is
      met exactly when fewer ticks than that come before the insertion. */
  lemma SectionsFire(c: Config, p: Plain, t: int, a: seq<Command>, b: seq<Command>, e: seq<Command>)
    requires Good(c, p) && Possible(c, p, RemoveThen(t, a, b, e)) && NotAbout(a, t) && NotAbout(b, t) && NotAbout(e, t)
    ensures c.Ok() && c.Timer(t)
    ensures var r := Run(c, p, RemoveThen(t, a, b, e)); Times(r.log, t) == Beats(c, t, Met(c, t, p.now + Ticks(a), b), r.state.now)
  {
    hide Good, Step, Run, Possible, Ticks, Times, Beats, Met, ArmThen;
    var rest := a + ArmThen(t, b, e);
    RunConcat(c, p, [Remove(t)], rest);
    RunOne(c, p, Remove(t));
    Removing(c, p, t);
    AfterRemove(c, Step(c, p, Remove(t)).state, t, a, b, e);
    NothingBefore([], Run(c, Step(c, p, Remove(t)).state, rest).log, t);
  }

  lemma AfterRemove(c: Config, p: Plain, t: int, a: seq<Command>, b: seq<Command>, e: seq<Command>)
    requires Good(c, p) && Possible(c, p, a + ArmThen(t, b, e)) && t !in p.pending && NotAbout(a, t) && NotAbout(b, t) && NotAbout(e, t)
    ensures c.Ok() && c.Timer(t)
    ensures var r := Run(c, p, a + ArmThen(t, b, e)); Times(r.log, t) == Beats(c, t, Met(c, t, p.now + Ticks(a), b), r.state.now)
  {
    hide Good, Step, Run, Possible, Ticks, Times, Beats, Met, ArmThen;
    RunConcat(c, p, a, ArmThen(t, b, e));
    SilentTimer(c, p, a, t);
    RunGood(c, p, a);
    ArmRun(c, Run(c, p, a).state, t, b, e);
    NothingBefore(Run(c, p, a).log, Run(c, Run(c, p, a).state, ArmThen(t, b, e)).log, t);
  }

  lemma NothingBefore(x: seq<Fire>, y: seq<Fire>, t: int)
    requires Times(x, t) == [] || x == []
    ensures Times(x + y, t) == Times(y, t)
  {
    TimesConcat(x, y, t);
  }

  lemma Removing(c: Config, p: Plain, t: int)
    requires Good(c, p) && Enabled(c, p, Remove(t))
    ensures Listed(c, p) && c.Ok() && c.Timer(t)
    ensures var s := Step(c, p, Remove(t)); s.log == [] && s.state.now == p.now && t !in s.state.pending && Good(c, s.state)
  {
    StepGood(c, p, Remove(t));
    StoppedListed(c, p, t);
  }

  lemma Arming(c: Config, p: Plain, t: int)
    requires Good(c, p) && Enabled(c, p, Arm(t)) && t !in p.pending
    ensures Listed(c, p) && c.Timer(t) && Good(c, Step(c, p, Arm(t)).state)
    ensures var s := Step(c, p, Arm(t)); s.log == [] && s.state.now == p.now && t !in s.state.pending
                                          && t in s.state.flight && s.state.flight[t] == Armed(p.now + c.init[t])
  {
    StepGood(c, p, Arm(t));
  }

  lemma Inserting(c: Config, p: Plain, t: int)
    requires Good(c, p) && Enabled(c, p, Insert(t))
    ensures Listed(c, p) && Good(c, Step(c, p, Insert(t)).state) && Step(c, p, Insert(t)).log == []
  {
    StepGood(c, p, Insert(t));
  }

  /** Without anything in between, the parts make up the whole call. */
  lemma PartsAreStart(c: Config, p: Plain, t: int)
    requires Good(c, p) && Possible(c, p, [Remove(t)] + ([Arm(t)] + [Insert(t)]))
    ensures Enabled(c, p, Start(t)) && Run(c, p, [Remove(t)] + ([Arm(t)] + [Insert(t)])) == Step(c, p, Start(t))
  {
    hide Sorted, StableInsert, Unlisted;
    RunConcat(c, p, [Remove(t)], [Arm(t)] + [Insert(t)]);
    RunOne(c, p, Remove(t));
    var q := Step(c, p, Remove(t)).state;
    RunConcat(c, q, [Arm(t)], [Insert(t)]);
    RunOne(c, q, Arm(t));
    RunOne(c, Step(c, q, Arm(t)).state, Insert(t));
    assert p.flight[t := Removed][t := Armed(p.now + c.init[t])] - {t} == p.flight;
  }

  // ---- a timer that is inserted late ----

  const Two := Config([1, 2], [false, false], 1)

  lemma RunCons(c: Config, p: Plain, cmd: Command, s: Checked, rest: seq<Command>)
    requires Good(c, p) && Enabled(c, p, cmd) && Step(c, p, cmd) == s && Good(c, s.state) && Possible(c, s.state, rest)
    ensures Possible(c, p, [cmd] + rest)
    ensures Run(c, p, [cmd] + rest) == Checked(Run(c, s.state, rest).state, s.log + Run(c, s.state, rest).log)
  {
    hide Good, Step;
    GoodListed(c, p);
    assert ([cmd] + rest)[1..] == rest;
  }

  lemma CheckNone(c: Config, p: Plain)
    requires Listed(c, p) && !Due(p)
    ensures Check(c, p) == Checked(p, [])
  {}

  lemma CheckLast(c: Config, p: Plain, t: int)
    requires Listed(c, p) && p.pending == [t] && p.keys[t].deadline <= p.now && !c.periodic[t]
    ensures Check(c, p) == Checked(p.(pending := []), [Fire(t, p.keys[t], p.now)])
  {
    FiredDue(c, p);
    assert p.pending[1..] == [];
    CheckNone(c, Fired(c, p));
  }

  const L0 := Plain([], map[], 0, 0, map[])
  const L1 := Plain([], map[], 0, 0, map[0 := Removed])
  const L2 := Plain([], map[], 0, 0, map[0 := Armed(1)])
  const L3 := Plain([1], map[1 := Key(2, 0)], 0, 1, map[0 := Armed(1)])
  const L4 := Plain([1], map[1 := Key(2, 0)], 1, 1, map[0 := Armed(1)])
  const L5 := Plain([], map[1 := Key(2, 0)], 2, 1, map[0 := Armed(1)])
  const L6 := Plain([0], map[1 := Key(2, 0), 0 := Key(1, 1)], 2, 2, map[])
  const L7 := Plain([], map[1 := Key(2, 0), 0 := Key(1, 1)], 3, 2, map[])

  /** From the start on: timer 0 is armed with deadline 1 and inserted only at tick 2, after timer 1 with deadline 2
      has fired. */
  lemma LateInsertOutOfOrder()
    ensures var late := [Remove(0)] + ([Arm(0)] + ([Start(1)] + ([Tick] + ([Tick] + ([Insert(0)] + ([Tick] + []))))));
            && Good(Two, Plain([], map[], 0, 0, map[])) && Possible(Two, Plain([], map[], 0, 0, map[]), late)
            && Run(Two, Plain([], map[], 0, 0, map[]), late).log == [Fire(1, Key(2, 0), 2), Fire(0, Key(1, 1), 3)]
  {
    hide Check, Good, Run, Possible, Step, Enabled;
    LateStart();
    LateTicks();
    LateEnd();
    var late := [Insert(0)] + ([Tick] + []);
    RunCons(Two, L4, Tick, Checked(L5, [Fire(1, Key(2, 0), 2)]), late);
    RunCons(Two, L3, Tick, Checked(L4, []), [Tick] + late);
    RunCons(Two, L2, Start(1), Checked(L3, []), [Tick] + ([Tick] + late));
    RunCons(Two, L1, Arm(0), Checked(L2, []), [Start(1)] + ([Tick] + ([Tick] + late)));
    RunCons(Two, L0, Remove(0), Checked(L1, []), [Arm(0)] + ([Start(1)] + ([Tick] + ([Tick] + late))));
  }

  lemma LateEnd()
    ensures Good(Two, L5) && Possible(Two, L5, [Insert(0)] + ([Tick] + []))
    ensures Run(Two, L5, [Insert(0)] + ([Tick] + [])).log == [Fire(0, Key(1, 1), 3)]
  {
    hide Check, Good, Step;
    LateInsert();
    LateLast();
    NoCommands(L7);
    RunCons(Two, L6, Tick, Checked(L7, [Fire(0, Key(1, 1), 3)]), []);
    RunCons(Two, L5, Insert(0), Checked(L6, []), [Tick] + []);
  }

  lemma NoCommands(p: Plain)
    requires Good(Two, p)
    ensures Possible(Two, p, []) && Run(Two, p, []) == Checked(p, [])
  {}

  lemma TwoOk()
    ensures Two.Ok() && Two.Timer(0) && Two.Timer(1)
  {}

  lemma LateStart()
    ensures Good(Two, L0) && Enabled(Two, L0, Remove(0)) && Step(Two, L0, Remove(0)) == Checked(L1, [])
    ensures Good(Two, L1) && Enabled(Two, L1, Arm(0)) && Step(Two, L1, Arm(0)) == Checked(L2, [])
    ensures Good(Two, L2) && Enabled(Two, L2, Start(1)) && Step(Two, L2, Start(1)) == Checked(L3, [])
  {
    TwoOk();
    assert map[0 := Removed][0 := Armed(1)] == L2.flight;
  }

  lemma LateTicks()
    ensures Good(Two, L3) && Enabled(Two, L3, Tick) && Step(Two, L3, Tick) == Checked(L4, [])
    ensures Good(Two, L4) && Enabled(Two, L4, Tick) && Step(Two, L4, Tick) == Checked(L5, [Fire(1, Key(2, 0), 2)])
    ensures Good(Two, L5)
  {
    hide Check;
    TwoOk();
    CheckNone(Two, L4);
    CheckLast(Two, L4.(now := 2), 1);
  }

  lemma LateInsert()
    ensures Good(Two, L5) && Enabled(Two, L5, Insert(0)) && Step(Two, L5, Insert(0)) == Checked(L6, [])
  {
    TwoOk();
    assert L5.flight - {0} == map[];
    assert L5.keys[0 := Key(1, 1)] == L6.keys;
  }

  lemma LateLast()
    ensures Good(Two, L6) && Enabled(Two, L6, Tick) && Step(Two, L6, Tick) == Checked(L7, [Fire(0, Key(1, 1), 3)])
    ensures Good(Two, L7)
  {
    hide Check;
    TwoOk();
    CheckLast(Two, L6.(now := 3), 0);
  }
}
