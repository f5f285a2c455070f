/** The memory pool of mempool.c as a step machine: every section with interrupts disabled is one step. Blocks are
    numbered; callers that find none wait, the last one in front. */
module PoolModel {
  import opened Rings
  import opened IpcLists

  /** Where a thread is: outside, suspended, woken to try again, or woken by its timer. */
  datatype Phase = Outside | Waiting(time: int) | Woken(time: int) | Late

  /** free: the free blocks in list order; held: the blocks that were given away; count: suspend_thread_count;
      expired: how many waits have ended by their timer. */
  datatype Pool = Pool(total: nat, free: seq<int>, held: set<int>, waiters: seq<int>, count: int, expired: nat, phases: seq<Phase>)

  datatype Action =
    | Alloc(thread: int, time: int)
    | Free(block: int)
    | Resume(thread: int, elapsed: nat)
    | Expire(thread: int)

  datatype Outcome =
    | Given(thread: int, block: int)
    | Freed(block: int)
    | Blocked(thread: int)
    | Refused(thread: int)
    | TimedOut(thread: int)
    | Expired(thread: int)

  datatype Result = Result(state: Pool, outcome: Outcome)

  predicate Thread(s: Pool, t: int) { 0 <= t < |s.phases| }

  // ---- the invariant ----

  /** Each block is either on the free list, once, or given away. */
  ghost predicate Parted(s: Pool) {
    && Distinct(s.free)
    && (forall b :: b in s.free ==> b !in s.held)
    && forall b :: 0 <= b < s.total <==> b in s.free || b in s.held
  }

  ghost predicate Listed(s: Pool) {
    && Distinct(s.waiters)
    && forall t :: t in s.waiters <==> Thread(s, t) && s.phases[t].Waiting?
  }

  function IsWoken(): Phase -> bool { (p: Phase) => p.Woken? }

  function Retrying(s: Pool): nat { CountIf(s.phases, IsWoken()) }

  /** suspend_thread_count also counts the waits that have timed out; no wake-up is lost. */
  ghost predicate Good(s: Pool) {
    && Parted(s) && Listed(s) && s.count == |s.waiters| + s.expired
    && (s.waiters != [] ==> |s.free| <= Retrying(s))
  }

  // ---- the steps ----

  /** One round of the loop of rt_mp_alloc. */
  function Attempt(s: Pool, t: int, time: int): Result
    requires Thread(s, t)
  {
    if s.free == [] then
      if time == 0 then Result(s.(phases := s.phases[t := Outside]), Refused(t))
      else Result(s.(waiters := [t] + s.waiters, count := s.count + 1, phases := s.phases[t := Waiting(time)]), Blocked(t))
    else
      Result(s.(free := s.free[1..], held := s.held + {s.free[0]}, phases := s.phases[t := Outside]), Given(t, s.free[0]))
  }

  /** rt_mp_free resumes the first thread of the list when the count says that there is one. */
  predicate Wakes(s: Pool) { s.count > 0 }

  function FreeStep(s: Pool, b: int): Result
    requires Wakes(s) ==> s.waiters != [] && Thread(s, s.waiters[0]) && s.phases[s.waiters[0]].Waiting?
  {
    var n := s.(free := [b] + s.free, held := s.held - {b});
    if Wakes(s) then
      var t := s.waiters[0];
      Result(n.(waiters := s.waiters[1..], count := s.count - 1, phases := s.phases[t := Woken(s.phases[t].time)]), Freed(b))
    else Result(n, Freed(b))
  }

  /** The free finds a count but no thread: it would resume the list head as if it were one. */
  predicate Astray(s: Pool) { Wakes(s) && s.waiters == [] }

  ghost predicate Enabled(s: Pool, a: Action) {
    match a
    case Alloc(t, _) => Thread(s, t) && s.phases[t].Outside?
    case Free(b) => b in s.held && !Astray(s)
    case Resume(t, _) => Thread(s, t) && (s.phases[t].Woken? || s.phases[t].Late?)
    case Expire(t) => Thread(s, t) && s.phases[t].Waiting? && s.phases[t].time > 0
  }

  ghost function Step(s: Pool, a: Action): Result
    requires Good(s) && Enabled(s, a)
  {
    match a
    case Alloc(t, time) => Attempt(s, t, time)
    case Free(b) =>
      assert s.waiters != [] ==> s.waiters[0] in s.waiters;
      FreeStep(s, b)
    case Resume(t, elapsed) =>
      if s.phases[t].Late? then Result(s.(phases := s.phases[t := Outside]), TimedOut(t))
      else Attempt(s, t, Remaining(s.phases[t].time, elapsed))
    case Expire(t) =>
      Result(s.(waiters := Unlisted(s.waiters, t), expired := s.expired + 1, phases := s.phases[t := Late]), Expired(t))
  }

  // ---- every step keeps the invariant ----

  lemma PhaseCount(s: Pool, t: int, p: Phase)
    requires Thread(s, t)
    ensures CountIf(s.phases[t := p], IsWoken()) == Retrying(s) - One(s.phases[t].Woken?) + One(p.Woken?)
  {
    CountUpdate(s.phases, IsWoken(), t, p);
  }

  lemma TakeParted(s: Pool)
    requires Parted(s) && s.free != []
    ensures Parted(s.(free := s.free[1..], held := s.held + {s.free[0]}))
  {
    TailDistinct(s.free);
    assert s.free[0] in s.free;
  }

  lemma GiveParted(s: Pool, b: int)
    requires Parted(s) && b in s.held
    ensures Parted(s.(free := [b] + s.free, held := s.held - {b}))
  {
    var f := [b] + s.free;
    assert forall i :: 0 < i < |f| ==> f[i] == s.free[i - 1];
    assert forall x :: x in f <==> x == b || x in s.free;
  }

  lemma PushListed(s: Pool, t: int, time: int)
    requires Listed(s) && Thread(s, t) && !s.phases[t].Waiting?
    ensures Listed(s.(waiters := [t] + s.waiters, phases := s.phases[t := Waiting(time)]))
  {
    var w := [t] + s.waiters;
    assert t !in s.waiters;
    assert forall i :: 0 < i < |w| ==> w[i] == s.waiters[i - 1];
    assert forall x :: x in w <==> x == t || x in s.waiters;
  }

  lemma PopListed(s: Pool, p: Phase)
    requires Listed(s) && s.waiters != [] && !p.Waiting?
    ensures Thread(s, s.waiters[0]) && s.phases[s.waiters[0]].Waiting?
    ensures Listed(s.(waiters := s.waiters[1..], phases := s.phases[s.waiters[0] := p]))
  {
    assert s.waiters[0] in s.waiters;
    TailDistinct(s.waiters);
  }

  lemma AttemptGood(s: Pool, t: int, time: int)
    requires Good(s) && Thread(s, t) && (s.phases[t].Outside? || s.phases[t].Woken?)
    ensures Good(Attempt(s, t, time).state)
  {
    hide Parted;
    if s.free == [] {
      if time == 0 {
        PhaseCount(s, t, Outside);
      } else {
        hide Listed;
        PushListed(s, t, time);
        PhaseCount(s, t, Waiting(time));
      }
    } else {
      TakeParted(s);
      PhaseCount(s, t, Outside);
      PartedOnly(s.(free := s.free[1..], held := s.held + {s.free[0]}), Attempt(s, t, time).state);
    }
    if s.free == [] { PartedOnly(s, Attempt(s, t, time).state); }
  }

  /** Only the blocks matter. */
  lemma PartedOnly(s: Pool, n: Pool)
    requires s.total == n.total && s.free == n.free && s.held == n.held
    ensures Parted(s) <==> Parted(n)
  {}

  lemma FreeGood(s: Pool, b: int)
    requires Good(s) && Enabled(s, Free(b))
    ensures Good(Step(s, Free(b)).state)
  {
    hide Parted, Listed;
    GiveParted(s, b);
    var n := Step(s, Free(b)).state;
    PartedOnly(s.(free := [b] + s.free, held := s.held - {b}), n);
    if Wakes(s) {
      HeadWaits(s);
      var t := s.waiters[0];
      PopListed(s, Woken(s.phases[t].time));
      PhaseCount(s, t, Woken(s.phases[t].time));
      ListedOnly(s.(waiters := s.waiters[1..], phases := s.phases[t := Woken(s.phases[t].time)]), n);
    } else {
      ListedOnly(s, n);
    }
  }

  lemma HeadWaits(s: Pool)
    requires Listed(s) && s.waiters != []
    ensures Thread(s, s.waiters[0]) && s.phases[s.waiters[0]].Waiting?
  {
    assert s.waiters[0] in s.waiters;
  }

  lemma ListedOnly(s: Pool, n: Pool)
    requires s.waiters == n.waiters && s.phases == n.phases
    ensures Listed(s) <==> Listed(n)
  {}

  lemma ExpireGood(s: Pool, t: int)
    requires Good(s) && Enabled(s, Expire(t))
    ensures Good(Step(s, Expire(t)).state)
  {
    hide Parted, Unlisted;
    PartedOnly(s, Step(s, Expire(t)).state);
    PhaseCount(s, t, Late);
    UnlistedMember(s.waiters, t, t);
    forall x
      ensures x in Unlisted(s.waiters, t) <==> x in s.waiters && x != t
    {
      UnlistedMember(s.waiters, t, x);
    }
    UnlistedOne(s.waiters, t);
  }

  lemma UnlistedOne(s: seq<int>, t: int)
    requires t in s
    ensures |Unlisted(s, t)| == |s| - 1
  {}

  lemma StepGood(s: Pool, a: Action)
    requires Good(s) && Enabled(s, a)
    ensures Good(Step(s, a).state)
  {
    match a
    case Alloc(t, time) => AttemptGood(s, t, time);
    case Free(b) => FreeGood(s, b);
    case Resume(t, elapsed) =>
      if s.phases[t].Late? { PhaseCount(s, t, Outside); } else { AttemptGood(s, t, Remaining(s.phases[t].time, elapsed)); }
    case Expire(t) => ExpireGood(s, t);
  }

  // ---- what every call answers ----

  /** A caller gets the first free block exactly if there is one; otherwise it is refused if it does not wait, and waits in
      front of the others. */
  ghost predicate Answers(s: Pool, t: int, time: int, r: Result)
    requires Thread(s, t)
  {
    var n := r.state;
    if s.free != [] then
      && r.outcome == Given(t, s.free[0]) && s.free == [s.free[0]] + n.free && n.held == s.held + {s.free[0]}
      && n == s.(free := n.free, held := n.held, phases := s.phases[t := Outside])
    else if time == 0 then r == Result(s.(phases := s.phases[t := Outside]), Refused(t))
    else r == Result(s.(waiters := [t] + s.waiters, count := s.count + 1, phases := s.phases[t := Waiting(time)]), Blocked(t))
  }

  /** An allocation, and a woken caller for the rest of its time, answers like this. A freed block comes first on the list
      and the first waiting thread, if the count says that there is one, may try again. A wait that runs out takes the
      thread out of the list and leaves the count. */
  lemma StepAnswer(s: Pool, a: Action)
    requires Good(s) && Enabled(s, a)
    ensures var r := Step(s, a); var n := r.state; match a
      case Alloc(t, time) => Answers(s, t, time, r)
      case Free(b) =>
        && r.outcome == Freed(b) && n.free == [b] + s.free && n.held == s.held - {b} && n.total == s.total && n.expired == s.expired
        && if s.count > 0 then
             && s.waiters != [] && s.waiters == [s.waiters[0]] + n.waiters && n.count == s.count - 1
             && Thread(s, s.waiters[0]) && s.phases[s.waiters[0]].Waiting?
             && n.phases == s.phases[s.waiters[0] := Woken(s.phases[s.waiters[0]].time)]
           else n.waiters == s.waiters && n.count == s.count && n.phases == s.phases
      case Resume(t, elapsed) =>
        if s.phases[t].Woken? then Answers(s, t, Remaining(s.phases[t].time, elapsed), r)
        else r == Result(s.(phases := s.phases[t := Outside]), TimedOut(t))
      case Expire(t) =>
        && r.outcome == Expired(t) && Leaves(s.waiters, n.waiters, t)
        && n == s.(waiters := n.waiters, expired := s.expired + 1, phases := s.phases[t := Late])
  {
    hide Parted, Unlisted, Leaves;
    match a
    case Free(b) => if s.waiters != [] { HeadWaits(s); }
    case Expire(t) => UnlistedLeaves(s.waiters, t);
    case _ =>
  }

  // ---- runs ----

  datatype History = History(state: Pool, log: seq<Outcome>)

  ghost predicate Possible(s: Pool, acts: seq<Action>)
    requires Good(s)
    decreases |acts|
  {
    acts == [] || (Enabled(s, acts[0]) && (StepGood(s, acts[0]); Possible(Step(s, acts[0]).state, acts[1..])))
  }

  ghost function Run(s: Pool, acts: seq<Action>): History
    requires Good(s) && Possible(s, acts)
    decreases |acts|
  {
    if acts == [] then History(s, [])
    else
      StepGood(s, acts[0]);
      var r := Step(s, acts[0]);
      var h := Run(r.state, acts[1..]);
      h.(log := [r.outcome] + h.log)
  }

  lemma {:induction false} RunGood(s: Pool, acts: seq<Action>)
    requires Good(s) && Possible(s, acts)
    ensures Good(Run(s, acts).state) && Run(s, acts).state.total == s.total && |Run(s, acts).state.phases| == |s.phases|
    decreases |acts|
  {
    hide Good, Step;
    if acts != [] {
      StepGood(s, acts[0]);
      StepSizes(s, acts[0]);
      RunGood(Step(s, acts[0]).state, acts[1..]);
    }
  }

  lemma StepSizes(s: Pool, a: Action)
    requires Good(s) && Enabled(s, a)
    ensures Step(s, a).state.total == s.total && |Step(s, a).state.phases| == |s.phases|
  {}

  /** All blocks are free and nobody waits. */
  ghost function Init(total: nat, threads: nat): (s: Pool)
    ensures Good(s)
  {
    UpMembers(total);
    Pool(total, Up(total), {}, [], 0, 0, seq(threads, t => Outside))
  }

  function Up(n: nat): seq<int> { seq(n, i => i) }

  lemma UpMembers(n: nat)
    ensures Distinct(Up(n)) && forall b :: b in Up(n) <==> 0 <= b < n
  {
    forall b
      ensures b in Up(n) <==> 0 <= b < n
    {
      if 0 <= b < n { assert Up(n)[b] == b; }
    }
  }

  /** No block is ever lost or in two places: free and given blocks together are all there are. */
  lemma BlocksConserved(s: Pool, acts: seq<Action>)
    requires Good(s) && Possible(s, acts)
    ensures var e := Run(s, acts).state; |e.free| + |e.held| == s.total && Distinct(e.free) && Elements(e.free) !! e.held
  {
    RunGood(s, acts);
    var e := Run(s, acts).state;
    DistinctSize(e.free);
    assert Range(e.total) == Elements(e.free) + e.held;
  }

  /** Over all interleavings no wake-up is lost: once all woken threads have tried again, a waiting thread means that
      no block is free. */
  lemma NobodyForgotten(s: Pool, acts: seq<Action>)
    requires Good(s) && Possible(s, acts)
    requires forall t :: Thread(Run(s, acts).state, t) ==> !Run(s, acts).state.phases[t].Woken?
    ensures Run(s, acts).state.waiters != [] ==> Run(s, acts).state.free == []
  {
    RunGood(s, acts);
    CountZero(Run(s, acts).state.phases, IsWoken());
  }

  // ---- every block has one owner ----

  datatype Owners = Wrong | Owned(blocks: set<int>)

  /** A block is given only when nobody holds it, and freed only when somebody does. */
  function Replay(held: set<int>, log: seq<Outcome>): Owners
    decreases |log|
  {
    if log == [] then Owned(held)
    else
      match log[0]
      case Given(_, b) => if b in held then Wrong else Replay(held + {b}, log[1..])
      case Freed(b) => if b in held then Replay(held - {b}, log[1..]) else Wrong
      case _ => Replay(held, log[1..])
  }

  lemma StepReplays(s: Pool, a: Action, rest: seq<Outcome>)
    requires Good(s) && Enabled(s, a)
    ensures Replay(s.held, [Step(s, a).outcome] + rest) == Replay(Step(s, a).state.held, rest)
  {
    assert ([Step(s, a).outcome] + rest)[1..] == rest;
    if s.free != [] { assert s.free[0] in s.free; }
  }

  /** Over every run the blocks that callers hold are exactly those given and not freed since, and no block is given
      to two callers. */
  lemma {:induction false} RunReplays(s: Pool, acts: seq<Action>)
    requires Good(s) && Possible(s, acts)
    ensures Replay(s.held, Run(s, acts).log) == Owned(Run(s, acts).state.held)
    decreases |acts|
  {
    hide Good, Step, Enabled;
    if acts != [] {
      StepGood(s, acts[0]);
      StepReplays(s, acts[0], Run(Step(s, acts[0]).state, acts[1..]).log);
      RunReplays(Step(s, acts[0]).state, acts[1..]);
    }
  }

  // ---- timed waits ----

  function Timeouts(acts: seq<Action>): nat {
    if acts == [] then 0 else (if acts[0].Expire? then 1 else 0) + Timeouts(acts[1..])
  }

  lemma {:induction false} RunExpired(s: Pool, acts: seq<Action>)
    requires Good(s) && Possible(s, acts)
    ensures Run(s, acts).state.expired == s.expired + Timeouts(acts)
    decreases |acts|
  {
    hide Good, Step;
    if acts != [] {
      StepGood(s, acts[0]);
      StepExpired(s, acts[0]);
      RunExpired(Step(s, acts[0]).state, acts[1..]);
    }
  }

  lemma StepExpired(s: Pool, a: Action)
    requires Good(s) && Enabled(s, a)
    ensures Step(s, a).state.expired == s.expired + if a.Expire? then 1 else 0
  {}

  /** After any run of a new pool, a free would go astray exactly if no thread waits and some wait has timed out: the
      count is not lowered on a timeout. */
  lemma AstrayExactly(total: nat, threads: nat, acts: seq<Action>)
    requires Possible(Init(total, threads), acts)
    ensures var e := Run(Init(total, threads), acts).state; Astray(e) <==> e.waiters == [] && Timeouts(acts) > 0
  {
    RunGood(Init(total, threads), acts);
    RunExpired(Init(total, threads), acts);
  }

  lemma RunCons(s: Pool, a: Action, n: Pool, rest: seq<Action>)
    requires Good(s) && Enabled(s, a) && Step(s, a).state == n && Good(n) && Possible(n, rest)
    ensures Possible(s, [a] + rest) && Run(s, [a] + rest).state == Run(n, rest).state
  {
    hide Good, Step;
    assert ([a] + rest)[1..] == rest;
  }

  const Taken0 := Pool(1, [], {0}, [], 0, 0, [Outside, Outside])
  const Waits1 := Pool(1, [], {0}, [1], 1, 0, [Outside, Waiting(5)])
  const Late1 := Pool(1, [], {0}, [], 1, 1, [Outside, Late])

  lemma AstraySteps()
    ensures Enabled(Init(1, 2), Alloc(0, 0)) && Step(Init(1, 2), Alloc(0, 0)).state == Taken0
    ensures Good(Taken0) && Enabled(Taken0, Alloc(1, 5)) && Step(Taken0, Alloc(1, 5)).state == Waits1
  {
    StepGood(Init(1, 2), Alloc(0, 0));
    assert Init(1, 2).free == [0] && Init(1, 2).phases == [Outside, Outside];
    assert {} + {0} == {0};
  }

  lemma AstrayEnds()
    requires Good(Waits1)
    ensures Enabled(Waits1, Expire(1)) && Step(Waits1, Expire(1)).state == Late1
  {
    assert Unlisted([1], 1) == [];
  }

  /** One block, taken by thread 0; the wait of thread 1 times out; then thread 0 frees the block. */
  lemma AstrayCase()
    ensures Possible(Init(1, 2), [Alloc(0, 0)] + ([Alloc(1, 5)] + ([Expire(1)] + [])))
    ensures var e := Run(Init(1, 2), [Alloc(0, 0)] + ([Alloc(1, 5)] + ([Expire(1)] + []))).state; 0 in e.held && Astray(e)
  {
    hide Good, Step, Possible, Run;
    AstraySteps();
    StepGood(Taken0, Alloc(1, 5));
    AstrayEnds();
    StepGood(Waits1, Expire(1));
    NoActions(Late1);
    RunCons(Waits1, Expire(1), Late1, []);
    RunCons(Taken0, Alloc(1, 5), Waits1, [Expire(1)] + []);
    RunCons(Init(1, 2), Alloc(0, 0), Taken0, [Alloc(1, 5)] + ([Expire(1)] + []));
  }

  lemma NoActions(s: Pool)
    requires Good(s)
    ensures Possible(s, []) && Run(s, []).state == s
  {}
}
