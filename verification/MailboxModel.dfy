/** The mailbox of ipc.c as a step machine: every section with interrupts disabled is one step, a blocking
    call is the step that suspends the caller and, after a wake-up, the step in which it tries again. */
module MailboxModel {
  import opened Rings
  import opened IpcLists

  type Word = bv32

  datatype Op = Recv | Send(value: Word)

  datatype Code = Timeout | Full | Error

  /** Where a thread is: outside, suspended, woken to try again, or woken with an error. */
  datatype Phase =
    | Idle
    | Waiting(op: Op, timeout: int)
    | Woken(op: Op, timeout: int)
    | Failing(op: Op, code: Code)

  datatype Mail = Mail(size: nat, order: Order, prio: seq<int>, queue: seq<Word>,
                       receivers: seq<int>, senders: seq<int>, phases: seq<Phase>)

  datatype Action =
    | Call(thread: int, op: Op, timeout: int)   // rt_mb_recv, rt_mb_send_wait
    | Resume(thread: int, elapsed: nat)         // the scheduler lets a woken thread go on
    | Expire(thread: int)                       // the thread timer
    | Reset                                     // rt_mb_control

  datatype Outcome =
    | Blocked(thread: int)
    | Sent(thread: int, value: Word)
    | Received(thread: int, value: Word)
    | Refused(thread: int, op: Op, code: Code)
    | Expired(thread: int)
    | Cleared

  datatype Result = Result(state: Mail, outcome: Outcome)

  // ---- counting woken threads ----

  function WokenFor(recv: bool): Phase -> bool {
    (p: Phase) => p.Woken? && p.op.Recv? == recv
  }

  function Weight(p: Phase, recv: bool): nat {
    One(WokenFor(recv)(p))
  }

  /** Woken receivers or senders that have not tried again yet. */
  function Count(phases: seq<Phase>, recv: bool): nat {
    CountIf(phases, WokenFor(recv))
  }

  lemma CountChange(phases: seq<Phase>, t: int, p: Phase, recv: bool)
    requires 0 <= t < |phases|
    ensures Count(phases[t := p], recv) == Count(phases, recv) - Weight(phases[t], recv) + Weight(p, recv)
  {
    CountUpdate(phases, WokenFor(recv), t, p);
  }

  // ---- the invariant ----

  predicate WaitsIn(p: Phase, recv: bool) { p.Waiting? && p.op.Recv? == recv }

  /** A suspend list holds exactly the threads that wait in it, once each, and in order of urgency if asked for. */
  ghost predicate Listed(phases: seq<Phase>, order: Order, prio: seq<int>, list: seq<int>, recv: bool) {
    && |prio| == |phases| && Distinct(list) && Threads(list, |phases|)
    && (forall t :: 0 <= t < |phases| ==> (t in list <==> WaitsIn(phases[t], recv)))
    && (order == Prio ==> Urgent(list, prio))
  }

  /** No wake-up is lost: as long as somebody waits, there are enough woken threads for what is available. */
  ghost predicate NoneLost(s: Mail) {
    && (s.receivers != [] ==> |s.queue| <= Count(s.phases, true))
    && (s.senders != [] ==> s.size - |s.queue| <= Count(s.phases, false))
  }

  ghost predicate Good(s: Mail) {
    && |s.queue| <= s.size
    && Listed(s.phases, s.order, s.prio, s.receivers, true)
    && Listed(s.phases, s.order, s.prio, s.senders, false)
    && NoneLost(s)
  }

  // ---- the steps ----

  function Set(s: Mail, t: int, p: Phase): Mail
    requires 0 <= t < |s.phases|
  {
    s.(phases := s.phases[t := p])
  }

  function Again(p: Phase): Phase
    requires p.Waiting?
  {
    Woken(p.op, p.timeout)
  }

  ghost predicate Heads(s: Mail) {
    && (s.receivers != [] ==> 0 <= s.receivers[0] < |s.phases| && s.phases[s.receivers[0]].Waiting?)
    && (s.senders != [] ==> 0 <= s.senders[0] < |s.phases| && s.phases[s.senders[0]].Waiting?)
  }

  /** rt_ipc_list_resume on the receivers, if there are any. */
  ghost function WakeReceiver(s: Mail): Mail
    requires Heads(s)
  {
    if s.receivers == [] then s
    else Set(s.(receivers := s.receivers[1..]), s.receivers[0], Again(s.phases[s.receivers[0]]))
  }

  ghost function WakeSender(s: Mail): Mail
    requires Heads(s)
  {
    if s.senders == [] then s
    else Set(s.(senders := s.senders[1..]), s.senders[0], Again(s.phases[s.senders[0]]))
  }

  ghost function Block(s: Mail, t: int, op: Op, timeout: int): Result
    requires 0 <= t < |s.phases| && |s.prio| == |s.phases| && Threads(s.receivers, |s.prio|) && Threads(s.senders, |s.prio|)
  {
    if timeout == 0 then
      Result(Set(s, t, Idle), Refused(t, op, if op.Recv? then Timeout else Full))
    else
      var w := Set(s, t, Waiting(op, timeout));
      if op.Recv? then Result(w.(receivers := Suspended(s.order, s.receivers, s.prio, t)), Blocked(t))
      else Result(w.(senders := Suspended(s.order, s.senders, s.prio, t)), Blocked(t))
  }

  /** From the test for an empty or full mailbox to the end of the section; t is running. */
  ghost function Attempt(s: Mail, t: int, op: Op, timeout: int): Result
    requires Good(s) && 0 <= t < |s.phases| && !s.phases[t].Waiting?
  {
    match op
    case Recv =>
      if s.queue == [] then Block(s, t, op, timeout)
      else Result(WakeSender(Set(s.(queue := s.queue[1..]), t, Idle)), Received(t, s.queue[0]))
    case Send(v) =>
      if |s.queue| == s.size then Block(s, t, op, timeout)
      else Result(WakeReceiver(Set(s.(queue := s.queue + [v]), t, Idle)), Sent(t, v))
  }

  function Fail(p: Phase, code: Code): Phase {
    if p.Waiting? then Failing(p.op, code) else p
  }

  function FailAll(phases: seq<Phase>): seq<Phase> {
    seq(|phases|, i requires 0 <= i < |phases| => Fail(phases[i], Error))
  }

  ghost predicate Enabled(s: Mail, a: Action) {
    match a
    case Call(t, _, _) => 0 <= t < |s.phases| && s.phases[t].Idle?
    case Resume(t, _) => 0 <= t < |s.phases| && (s.phases[t].Woken? || s.phases[t].Failing?)
    case Expire(t) => 0 <= t < |s.phases| && s.phases[t].Waiting? && s.phases[t].timeout > 0
    case Reset => true
  }

  ghost function Step(s: Mail, a: Action): Result
    requires Good(s) && Enabled(s, a)
  {
    match a
    case Call(t, op, timeout) => Attempt(s, t, op, timeout)
    case Resume(t, elapsed) =>
      var p := s.phases[t];
      if p.Failing? then Result(Set(s, t, Idle), Refused(t, p.op, p.code))
      else Attempt(s, t, p.op, Remaining(p.timeout, elapsed))
    case Expire(t) =>
      var w := Set(s, t, Failing(s.phases[t].op, Timeout));
      Result(w.(receivers := Unlisted(s.receivers, t), senders := Unlisted(s.senders, t)), Expired(t))
    case Reset =>
      Result(s.(queue := [], receivers := [], senders := [], phases := FailAll(s.phases)), Cleared)
  }

  // ---- every step keeps the invariant ----

  lemma HeadWaits(phases: seq<Phase>, order: Order, prio: seq<int>, list: seq<int>, recv: bool)
    requires Listed(phases, order, prio, list, recv) && list != []
    ensures 0 <= list[0] < |phases| && WaitsIn(phases[list[0]], recv)
  {
    assert list[0] in list;
  }

  /** Changing the phase of a thread that is in the list neither before nor after. */
  lemma SetListed(phases: seq<Phase>, order: Order, prio: seq<int>, list: seq<int>, recv: bool, t: int, p: Phase)
    requires 0 <= t < |phases| && Listed(phases, order, prio, list, recv)
    requires WaitsIn(p, recv) == WaitsIn(phases[t], recv)
    ensures Listed(phases[t := p], order, prio, list, recv)
  {}

  lemma PopListed(phases: seq<Phase>, order: Order, prio: seq<int>, list: seq<int>, recv: bool, p: Phase)
    requires Listed(phases, order, prio, list, recv) && list != [] && !WaitsIn(p, recv)
    ensures 0 <= list[0] < |phases| && Listed(phases[list[0] := p], order, prio, list[1..], recv)
  {
    TailDistinct(list);
    assert list[0] in list;
    assert forall i :: 0 <= i < |list| - 1 ==> list[1..][i] == list[i + 1];
  }

  lemma DropListed(phases: seq<Phase>, order: Order, prio: seq<int>, list: seq<int>, recv: bool, t: int, p: Phase)
    requires 0 <= t < |phases| && Listed(phases, order, prio, list, recv) && !WaitsIn(p, recv)
    ensures Listed(phases[t := p], order, prio, Unlisted(list, t), recv)
  {
    hide Unlisted, Urgent;
    UnlistedUrgent(list, prio, t);
    UnlistedMember(list, t, t);
    forall x
      ensures x in Unlisted(list, t) <==> x in list && x != t
    {
      UnlistedMember(list, t, x);
    }
  }

  lemma PushListed(phases: seq<Phase>, order: Order, prio: seq<int>, list: seq<int>, recv: bool, t: int, p: Phase)
    requires 0 <= t < |phases| && Listed(phases, order, prio, list, recv)
    requires WaitsIn(p, recv) && !WaitsIn(phases[t], recv)
    ensures Listed(phases[t := p], order, prio, Suspended(order, list, prio, t), recv)
  {
    hide Suspended, Urgent;
    assert t !in list;
    var r := Suspended(order, list, prio, t);
    SuspendedMembers(order, list, prio, t);
    if order == Prio { SuspendedUrgent(list, prio, t); }
    assert Distinct(r) && Threads(r, |phases|);
    assert forall u :: 0 <= u < |phases| ==> (u in r <==> WaitsIn(phases[t := p][u], recv));
  }

  lemma WakeReceiverGood(s: Mail)
    requires |s.queue| <= s.size
    requires Listed(s.phases, s.order, s.prio, s.receivers, true) && Listed(s.phases, s.order, s.prio, s.senders, false)
    requires s.receivers != [] ==> |s.queue| <= Count(s.phases, true) + 1
    requires s.senders != [] ==> s.size - |s.queue| <= Count(s.phases, false)
    ensures Heads(s) && Good(WakeReceiver(s))
  {
    hide Listed, Count;
    if s.senders != [] { HeadWaits(s.phases, s.order, s.prio, s.senders, false); }
    if s.receivers != [] {
      HeadWaits(s.phases, s.order, s.prio, s.receivers, true);
      var t := s.receivers[0];
      var p := Again(s.phases[t]);
      PopListed(s.phases, s.order, s.prio, s.receivers, true, p);
      SetListed(s.phases, s.order, s.prio, s.senders, false, t, p);
      CountChange(s.phases, t, p, true);
      CountChange(s.phases, t, p, false);
    }
  }

  lemma WakeSenderGood(s: Mail)
    requires |s.queue| <= s.size
    requires Listed(s.phases, s.order, s.prio, s.receivers, true) && Listed(s.phases, s.order, s.prio, s.senders, false)
    requires s.receivers != [] ==> |s.queue| <= Count(s.phases, true)
    requires s.senders != [] ==> s.size - |s.queue| <= Count(s.phases, false) + 1
    ensures Heads(s) && Good(WakeSender(s))
  {
    hide Listed, Count;
    if s.receivers != [] { HeadWaits(s.phases, s.order, s.prio, s.receivers, true); }
    if s.senders != [] {
      HeadWaits(s.phases, s.order, s.prio, s.senders, false);
      var t := s.senders[0];
      var p := Again(s.phases[t]);
      PopListed(s.phases, s.order, s.prio, s.senders, false, p);
      SetListed(s.phases, s.order, s.prio, s.receivers, true, t, p);
      CountChange(s.phases, t, p, true);
      CountChange(s.phases, t, p, false);
    }
  }

  /** A thread that runs is in no list; when it leaves, the lists stay, and it may have been the one that was woken. */
  lemma LeaveListed(s: Mail, t: int)
    requires Good(s) && 0 <= t < |s.phases| && !s.phases[t].Waiting?
    ensures Listed(s.phases[t := Idle], s.order, s.prio, s.receivers, true)
    ensures Listed(s.phases[t := Idle], s.order, s.prio, s.senders, false)
    ensures forall recv :: Count(s.phases[t := Idle], recv) == Count(s.phases, recv) - Weight(s.phases[t], recv)
  {
    hide Listed, Count;
    SetListed(s.phases, s.order, s.prio, s.receivers, true, t, Idle);
    SetListed(s.phases, s.order, s.prio, s.senders, false, t, Idle);
    forall recv
      ensures Count(s.phases[t := Idle], recv) == Count(s.phases, recv) - Weight(s.phases[t], recv)
    {
      CountChange(s.phases, t, Idle, recv);
    }
  }

  /** The phase a thread may be in when it runs op. */
  predicate Running(p: Phase, op: Op) {
    p.Idle? || (p.Woken? && p.op == op)
  }

  lemma BlockGood(s: Mail, t: int, op: Op, timeout: int)
    requires Good(s) && 0 <= t < |s.phases| && Running(s.phases[t], op)
    requires if op.Recv? then s.queue == [] else |s.queue| == s.size
    ensures Good(Block(s, t, op, timeout).state)
  {
    hide Count, Suspended, Urgent;
    LeaveListed(s, t);
    CountChange(s.phases, t, Waiting(op, timeout), true);
    CountChange(s.phases, t, Waiting(op, timeout), false);
    PushListed(s.phases, s.order, s.prio, if op.Recv? then s.receivers else s.senders, op.Recv?, t, Waiting(op, timeout));
    SetListed(s.phases, s.order, s.prio, if op.Recv? then s.senders else s.receivers, !op.Recv?, t, Waiting(op, timeout));
  }

  lemma AttemptGood(s: Mail, t: int, op: Op, timeout: int)
    requires Good(s) && 0 <= t < |s.phases| && Running(s.phases[t], op)
    ensures Good(Attempt(s, t, op, timeout).state)
  {
    hide Count, Listed, Block;
    if (op.Recv? && s.queue == []) || (op.Send? && |s.queue| == s.size) {
      BlockGood(s, t, op, timeout);
    } else {
      LeaveListed(s, t);
      match op
      case Recv => WakeSenderGood(Set(s.(queue := s.queue[1..]), t, Idle));
      case Send(v) => WakeReceiverGood(Set(s.(queue := s.queue + [v]), t, Idle));
    }
  }

  lemma ExpireGood(s: Mail, t: int)
    requires Good(s) && Enabled(s, Expire(t))
    ensures Good(Step(s, Expire(t)).state)
  {
    hide Count, Unlisted, Urgent;
    var p := Failing(s.phases[t].op, Timeout);
    DropListed(s.phases, s.order, s.prio, s.receivers, true, t, p);
    DropListed(s.phases, s.order, s.prio, s.senders, false, t, p);
    CountChange(s.phases, t, p, true);
    CountChange(s.phases, t, p, false);
    UnlistedEmpty(s.receivers, t);
    UnlistedEmpty(s.senders, t);
  }

  lemma UnlistedEmpty(s: seq<int>, t: int)
    ensures s == [] ==> Unlisted(s, t) == []
  {}

  lemma ResetGood(s: Mail)
    requires Good(s)
    ensures Good(Step(s, Reset).state)
  {}

  lemma StepGood(s: Mail, a: Action)
    requires Good(s) && Enabled(s, a)
    ensures Good(Step(s, a).state)
  {
    hide Good, Attempt;
    match a
    case Call(t, op, timeout) => AttemptGood(s, t, op, timeout);
    case Resume(t, elapsed) =>
      if s.phases[t].Failing? { FailedGood(s, t); }
      else { AttemptGood(s, t, s.phases[t].op, Remaining(s.phases[t].timeout, elapsed)); }
    case Expire(t) => ExpireGood(s, t);
    case Reset => ResetGood(s);
  }

  lemma FailedGood(s: Mail, t: int)
    requires Good(s) && 0 <= t < |s.phases| && s.phases[t].Failing?
    ensures Good(Set(s, t, Idle))
  {
    hide Count, Listed;
    LeaveListed(s, t);
  }

  // ---- what every call answers ----

  /** t goes on, and the first thread of the other side's list, if there is one, leaves it and may try again. */
  ghost predicate Wakes(s: Mail, n: Mail, t: int, list: seq<int>, list': seq<int>)
    requires 0 <= t < |s.phases|
  {
    if list == [] then list' == [] && n.phases == s.phases[t := Idle]
    else
      && list == [list[0]] + list'
      && 0 <= list[0] < |s.phases| && s.phases[list[0]].Waiting?
      && n.phases == s.phases[t := Idle][list[0] := Woken(s.phases[list[0]].op, s.phases[list[0]].timeout)]
  }

  /** A receive gets the oldest mail exactly if there is one, a send puts its value behind the others exactly if there is
      room; otherwise a caller that does not wait is refused, and any other one waits. */
  ghost predicate Answers(s: Mail, t: int, op: Op, timeout: int, r: Result)
    requires Good(s) && 0 <= t < |s.phases|
  {
    var n := r.state;
    && (n.size, n.order, n.prio) == (s.size, s.order, s.prio)
    && if op.Recv? && s.queue != [] then
         r.outcome == Received(t, s.queue[0]) && s.queue == [s.queue[0]] + n.queue && n.receivers == s.receivers && Wakes(s, n, t, s.senders, n.senders)
       else if op.Send? && |s.queue| < s.size then
         r.outcome == Sent(t, op.value) && n.queue == s.queue + [op.value] && n.senders == s.senders && Wakes(s, n, t, s.receivers, n.receivers)
       else if timeout == 0 then
         r.outcome == Refused(t, op, if op.Recv? then Timeout else Full) && n == s.(phases := s.phases[t := Idle])
       else
         && r.outcome == Blocked(t) && n.queue == s.queue && n.phases == s.phases[t := Waiting(op, timeout)]
         && if op.Recv? then n.senders == s.senders && Joins(s.order, s.receivers, n.receivers, s.prio, t)
            else n.receivers == s.receivers && Joins(s.order, s.senders, n.senders, s.prio, t)
  }

  lemma AttemptAnswer(s: Mail, t: int, op: Op, timeout: int)
    requires Good(s) && 0 <= t < |s.phases| && Running(s.phases[t], op)
    ensures Answers(s, t, op, timeout, Attempt(s, t, op, timeout))
  {
    hide Suspended, Urgent, Joins, Count;
    SuspendedJoins(s.order, s.receivers, s.prio, t);
    SuspendedJoins(s.order, s.senders, s.prio, t);
    if s.receivers != [] { HeadWaits(s.phases, s.order, s.prio, s.receivers, true); }
    if s.senders != [] { HeadWaits(s.phases, s.order, s.prio, s.senders, false); }
  }

  /** A call, and a woken thread for the rest of its time, answers like this; a thread woken with an error returns it, a
      waiting time that runs out takes a thread out of its list, and a reset wakes everybody with an error and empties the
      mailbox. */
  lemma StepAnswer(s: Mail, a: Action)
    requires Good(s) && Enabled(s, a)
    ensures var r := Step(s, a); match a
      case Call(t, op, timeout) => Answers(s, t, op, timeout, r)
      case Resume(t, elapsed) =>
        if s.phases[t].Woken? then Answers(s, t, s.phases[t].op, Remaining(s.phases[t].timeout, elapsed), r)
        else r == Result(s.(phases := s.phases[t := Idle]), Refused(t, s.phases[t].op, s.phases[t].code))
      case Expire(t) =>
        && r.outcome == Expired(t)
        && r.state == s.(receivers := r.state.receivers, senders := r.state.senders, phases := s.phases[t := Failing(s.phases[t].op, Timeout)])
        && if s.phases[t].op.Recv? then Leaves(s.receivers, r.state.receivers, t) && r.state.senders == s.senders
           else Leaves(s.senders, r.state.senders, t) && r.state.receivers == s.receivers
      case Reset =>
        && r.outcome == Cleared && r.state == s.(queue := [], receivers := [], senders := [], phases := r.state.phases)
        && |r.state.phases| == |s.phases|
        && forall u :: 0 <= u < |s.phases| ==>
             r.state.phases[u] == if s.phases[u].Waiting? then Failing(s.phases[u].op, Error) else s.phases[u]
  {
    hide Attempt, Answers, Urgent, Count, Unlisted;
    match a
    case Call(t, op, timeout) => AttemptAnswer(s, t, op, timeout);
    case Resume(t, elapsed) => if s.phases[t].Woken? { AttemptAnswer(s, t, s.phases[t].op, Remaining(s.phases[t].timeout, elapsed)); }
    case Expire(t) => ExpireAnswer(s, t);
    case Reset =>
  }

  lemma ExpireAnswer(s: Mail, t: int)
    requires Good(s) && Enabled(s, Expire(t))
    ensures if s.phases[t].op.Recv? then Leaves(s.receivers, Unlisted(s.receivers, t), t) && Unlisted(s.senders, t) == s.senders
            else Leaves(s.senders, Unlisted(s.senders, t), t) && Unlisted(s.receivers, t) == s.receivers
  {
    hide Urgent, Count, Leaves;
    if t in s.receivers { UnlistedLeaves(s.receivers, t); }
    if t in s.senders { UnlistedLeaves(s.senders, t); }
  }

  // ---- runs ----

  datatype History = History(state: Mail, log: seq<Outcome>)

  /** A run in which the scheduler, the timers and the callers choose the actions in any order. */
  ghost predicate Possible(s: Mail, acts: seq<Action>)
    requires Good(s)
    decreases |acts|
  {
    acts == [] || (Enabled(s, acts[0]) && (StepGood(s, acts[0]); Possible(Step(s, acts[0]).state, acts[1..])))
  }

  ghost function Run(s: Mail, acts: seq<Action>): History
    requires Good(s) && Possible(s, acts)
    decreases |acts|
  {
    if acts == [] then History(s, [])
    else
      StepGood(s, acts[0]);
      var r := Step(s, acts[0]);
      var h := Run(r.state, acts[1..]);
      h.(log := [r.outcome] + h.log)
  }

  lemma {:induction false} RunGood(s: Mail, acts: seq<Action>)
    requires Good(s) && Possible(s, acts)
    ensures Good(Run(s, acts).state)
    decreases |acts|
  {
    if acts != [] {
      StepGood(s, acts[0]);
      RunGood(Step(s, acts[0]).state, acts[1..]);
    }
  }

  /** Once every woken thread has tried again, nobody waits for something that is there. */
  lemma NobodyForgotten(s: Mail, acts: seq<Action>)
    requires Good(s) && Possible(s, acts)
    requires forall i :: 0 <= i < |Run(s, acts).state.phases| ==> !Run(s, acts).state.phases[i].Woken?
    ensures var e := Run(s, acts).state; e.receivers != [] ==> e.queue == []
    ensures var e := Run(s, acts).state; e.senders != [] ==> |e.queue| == e.size
    ensures var e := Run(s, acts).state; e.size > 0 ==> e.receivers == [] || e.senders == []
  {
    RunGood(s, acts);
    CountZero(Run(s, acts).state.phases, WokenFor(true));
    CountZero(Run(s, acts).state.phases, WokenFor(false));
  }

  // ---- the mailbox is a first-in first-out queue ----

  /** The values that the outcomes of a run leave in a plain queue; none when a value is received out of order. */
  datatype Replayed = Wrong | Holds(values: seq<Word>)

  function Replay(q: seq<Word>, log: seq<Outcome>): Replayed
    decreases |log|
  {
    if log == [] then Holds(q)
    else match log[0]
      case Sent(_, v) => Replay(q + [v], log[1..])
      case Received(_, v) => if q != [] && q[0] == v then Replay(q[1..], log[1..]) else Wrong
      case Cleared => Replay([], log[1..])
      case _ => Replay(q, log[1..])
  }

  lemma StepIsFifo(s: Mail, a: Action, rest: seq<Outcome>)
    requires Good(s) && Enabled(s, a)
    ensures Replay(s.queue, [Step(s, a).outcome] + rest) == Replay(Step(s, a).state.queue, rest)
  {
    hide Good, Suspended;
    assert ([Step(s, a).outcome] + rest)[1..] == rest;
  }

  lemma {:induction false} RunIsFifo(s: Mail, acts: seq<Action>)
    requires Good(s) && Possible(s, acts)
    ensures Replay(s.queue, Run(s, acts).log) == Holds(Run(s, acts).state.queue)
    decreases |acts|
  {
    hide Good, Step;
    if acts != [] {
      var r := Step(s, acts[0]);
      StepGood(s, acts[0]);
      RunIsFifo(r.state, acts[1..]);
      StepIsFifo(s, acts[0], Run(r.state, acts[1..]).log);
    }
  }

  function SentIn(log: seq<Outcome>): seq<Word> {
    if log == [] then [] else (if log[0].Sent? then [log[0].value] else []) + SentIn(log[1..])
  }

  function ReceivedIn(log: seq<Outcome>): seq<Word> {
    if log == [] then [] else (if log[0].Received? then [log[0].value] else []) + ReceivedIn(log[1..])
  }

  lemma SentReceived(log: seq<Outcome>)
    ensures log == [] ==> SentIn(log) == ReceivedIn(log) == []
    ensures log != [] && log[0].Sent? ==> SentIn(log) == [log[0].value] + SentIn(log[1..])
    ensures log != [] && !log[0].Sent? ==> SentIn(log) == SentIn(log[1..])
    ensures log != [] && log[0].Received? ==> ReceivedIn(log) == [log[0].value] + ReceivedIn(log[1..])
    ensures log != [] && !log[0].Received? ==> ReceivedIn(log) == ReceivedIn(log[1..])
  {
    if log != [] {
      assert [] + SentIn(log[1..]) == SentIn(log[1..]);
      assert [] + ReceivedIn(log[1..]) == ReceivedIn(log[1..]);
    }
  }

  lemma Regroup(a: seq<Word>, b: seq<Word>, c: seq<Word>)
    ensures (a + b) + c == a + (b + c)
  {}

  /** Without a reset nothing is lost, duplicated or reordered. */
  lemma {:induction false} ReplayConserves(q: seq<Word>, log: seq<Outcome>)
    requires Replay(q, log).Holds? && forall i :: 0 <= i < |log| ==> log[i] != Cleared
    ensures q + SentIn(log) == ReceivedIn(log) + Replay(q, log).values
    decreases |log|
  {
    hide SentIn, ReceivedIn;
    SentReceived(log);
    if log != [] {
      var rest, v := log[1..], if log[0].Sent? || log[0].Received? then [log[0].value] else [];
      assert log[0] != Cleared;
      if log[0].Received? {
        ReplayConserves(q[1..], rest);
        assert q == v + q[1..];
        Regroup(v, q[1..], SentIn(rest));
        Regroup(v, ReceivedIn(rest), Replay(q, log).values);
      } else {
        assert q + [] == q;
        ReplayConserves(q + v, rest);
        Regroup(q, v, SentIn(rest));
      }
    }
  }
}
