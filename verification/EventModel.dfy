/** The event set of ipc.c as a step machine over its sections with interrupts disabled. */
module EventModel {
  import opened Rings
  import opened IpcLists
  import WordBits

  type Bits = bv32

  /** RT_EVENT_FLAG_AND, RT_EVENT_FLAG_OR and RT_EVENT_FLAG_CLEAR; AND wins over OR. */
  datatype Option = Option(all: bool, any: bool, clear: bool)

  datatype Code = Timeout | Error

  datatype Phase =
    | Outside
    | Waiting(want: Bits, option: Option, timeout: int)   // event_set, event_info
    | Woken(got: Bits)
    | Failing(code: Code)

  datatype Event = Event(events: Bits, order: Order, prio: seq<int>, waiters: seq<int>, phases: seq<Phase>)

  // ---- one receive ----

  function Common(x: Bits, y: Bits): Bits { WordBits.And(x, y) }

  function Joined(x: Bits, y: Bits): Bits { WordBits.Or(x, y) }

  function Minus(x: Bits, y: Bits): Bits { WordBits.Off(x, y) }

  /** The condition of a receiver. */
  predicate Satisfied(events: Bits, want: Bits, option: Option) {
    if option.all then Common(events, want) == want
    else option.any && Common(events, want) != 0
  }

  /** What an immediate receive leaves in the event. */
  function Left(events: Bits, want: Bits, option: Option): Bits {
    if option.clear then Minus(events, want) else events
  }

  lemma MinusLess(x: Bits, y: Bits, z: Bits)
    ensures Common(Minus(x, y), z) == z ==> Common(x, z) == z
    ensures Common(Minus(x, y), z) != 0 ==> Common(x, z) != 0
  {}

  lemma MinusCommon(x: Bits, y: Bits)
    ensures Minus(x, Common(y, x)) == Minus(x, y) == Minus(x, Common(x, y))
    ensures Common(y, x) == Common(x, y) && Common(Common(x, y), x) == Common(x, y)
  {}

  /** Taking bits out satisfies nobody who was not satisfied before. */
  lemma LeftMonotone(events: Bits, want: Bits, option: Option, want': Bits, option': Option)
    ensures Satisfied(Left(events, want, option), want', option') ==> Satisfied(events, want', option')
  {
    hide Common, Minus;
    MinusLess(events, want, want');
  }

  // ---- serving the waiting threads ----

  ghost predicate Listed(e: Event) {
    && |e.prio| == |e.phases| && Distinct(e.waiters) && Threads(e.waiters, |e.phases|)
    && (forall t :: 0 <= t < |e.phases| ==> (t in e.waiters <==> e.phases[t].Waiting?))
    && (forall t :: 0 <= t < |e.phases| && e.phases[t].Waiting? ==> e.phases[t].want != 0)
    && (e.order == Prio ==> Urgent(e.waiters, e.prio))
  }

  predicate Ready(e: Event, t: int) {
    0 <= t < |e.phases| && e.phases[t].Waiting? && Satisfied(e.events, e.phases[t].want, e.phases[t].option)
  }

  /** The invariant: nobody waits whose condition is satisfied. */
  ghost predicate Good(e: Event) {
    Listed(e) && forall t :: t in e.waiters ==> !Ready(e, t)
  }

  datatype Note =
    | Sent(bits: Bits)
    | Given(thread: int, got: Bits, clear: bool)   // an immediate receive, or what a sender leaves for a waiter
    | Returned(thread: int, got: Bits)
    | Blocked(thread: int)
    | Refused(thread: int, code: Code)
    | Expired(thread: int)
    | Cleared

  datatype Result = Result(state: Event, notes: seq<Note>)

  lemma ListedThread(e: Event, n: nat)
    requires Listed(e) && n < |e.waiters|
    ensures 0 <= e.waiters[n] < |e.phases| && e.phases[e.waiters[n]].Waiting?
  {
    assert e.waiters[n] in e.waiters;
  }

  /** The n-th waiting thread receives now, as if it had just asked, and leaves the list. */
  ghost function Serve(e: Event, n: nat): Event
    requires Listed(e) && n < |e.waiters|
  {
    ListedThread(e, n);
    var t := e.waiters[n];
    var p := e.phases[t];
    e.(events := Left(e.events, p.want, p.option), waiters := Without(e.waiters, n), phases := e.phases[t := Woken(Common(e.events, p.want))])
  }

  lemma ServeListed(e: Event, n: nat)
    requires Listed(e) && n < |e.waiters|
    ensures Listed(Serve(e, n))
  {
    hide Urgent;
    WithoutUrgent(e.waiters, e.prio, n);
    WithoutDistinct(e.waiters, n);
    forall x
      ensures x in Without(e.waiters, n) <==> x in e.waiters && x != e.waiters[n]
    {
      WithoutMember(e.waiters, n, x);
    }
  }

  /** From position n on, everybody whose condition holds receives, in list order. */
  ghost function ServeFrom(e: Event, n: nat): Result
    requires Listed(e) && n <= |e.waiters|
    decreases |e.waiters| - n
  {
    if n == |e.waiters| then Result(e, [])
    else
      ListedThread(e, n);
      var t := e.waiters[n];
      if Ready(e, t) then
        ServeListed(e, n);
        var r := ServeFrom(Serve(e, n), n);
        r.(notes := [Given(t, Common(e.events, e.phases[t].want), e.phases[t].option.clear)] + r.notes)
      else
        ServeFrom(e, n + 1)
  }

  /** Those before n are not ready. */
  ghost predicate Passed(e: Event, n: nat) {
    n <= |e.waiters| && forall i :: 0 <= i < n ==> !Ready(e, e.waiters[i])
  }

  lemma ServePassed(e: Event, n: nat)
    requires Listed(e) && n < |e.waiters| && Passed(e, n)
    ensures Passed(Serve(e, n), n)
  {
    hide Satisfied, Left, Common;
    ListedThread(e, n);
    var p, e' := e.phases[e.waiters[n]], Serve(e, n);
    forall i | 0 <= i < n
      ensures !Ready(e', e'.waiters[i])
    {
      var u := e.waiters[i];
      ListedThread(e, i);
      assert e'.waiters[i] == u && u != e.waiters[n];
      LeftMonotone(e.events, p.want, p.option, e.phases[u].want, e.phases[u].option);
    }
  }

  /** Nobody who could receive is left waiting. */
  lemma {:induction false} ServeFromGood(e: Event, n: nat)
    requires Listed(e) && Passed(e, n)
    ensures Good(ServeFrom(e, n).state)
    decreases |e.waiters| - n
  {
    if n < |e.waiters| {
      ListedThread(e, n);
      if Ready(e, e.waiters[n]) {
        ServeListed(e, n);
        ServePassed(e, n);
        ServeFromGood(Serve(e, n), n);
      } else {
        ServeFromGood(e, n + 1);
      }
    }
  }

  // ---- the steps ----

  datatype Action =
    | Send(bits: Bits)
    | Recv(thread: int, want: Bits, option: Option, timeout: int)
    | Resume(thread: int)
    | Expire(thread: int)
    | Reset

  ghost predicate Enabled(e: Event, a: Action) {
    match a
    case Send(_) => true
    case Recv(t, _, option, _) => 0 <= t < |e.phases| && e.phases[t].Outside? && (option.all || option.any)
    case Resume(t) => 0 <= t < |e.phases| && (e.phases[t].Woken? || e.phases[t].Failing?)
    case Expire(t) => 0 <= t < |e.phases| && e.phases[t].Waiting? && e.phases[t].timeout > 0
    case Reset => true
  }

  ghost function SendStep(e: Event, bits: Bits): Result
    requires Listed(e)
  {
    if bits == 0 then Result(e, [])
    else
      var r := ServeFrom(e.(events := Joined(e.events, bits)), 0);
      r.(notes := [Sent(bits)] + r.notes)
  }

  ghost function RecvStep(e: Event, t: int, want: Bits, option: Option, timeout: int): Result
    requires Listed(e) && 0 <= t < |e.phases|
  {
    if want == 0 then Result(e, [Refused(t, Error)])
    else if Satisfied(e.events, want, option) then
      Result(e.(events := Left(e.events, want, option)), [Given(t, Common(e.events, want), option.clear)])
    else if timeout == 0 then Result(e, [Refused(t, Timeout)])
    else Result(e.(waiters := Suspended(e.order, e.waiters, e.prio, t), phases := e.phases[t := Waiting(want, option, timeout)]), [Blocked(t)])
  }

  function Fail(p: Phase, code: Code): Phase {
    if p.Waiting? then Failing(code) else p
  }

  ghost function Step(e: Event, a: Action): Result
    requires Good(e) && Enabled(e, a)
  {
    match a
    case Send(bits) => SendStep(e, bits)
    case Recv(t, want, option, timeout) => RecvStep(e, t, want, option, timeout)
    case Resume(t) =>
      Result(e.(phases := e.phases[t := Outside]),
             [if e.phases[t].Woken? then Returned(t, e.phases[t].got) else Refused(t, e.phases[t].code)])
    case Expire(t) =>
      Result(e.(waiters := Unlisted(e.waiters, t), phases := e.phases[t := Failing(Timeout)]), [Expired(t)])
    case Reset =>
      Result(e.(events := 0, waiters := [], phases := seq(|e.phases|, i requires 0 <= i < |e.phases| => Fail(e.phases[i], Error))), [Cleared])
  }

  lemma RecvGood(e: Event, t: int, want: Bits, option: Option, timeout: int)
    requires Good(e) && Enabled(e, Recv(t, want, option, timeout))
    ensures Good(RecvStep(e, t, want, option, timeout).state)
  {
    hide Urgent, Suspended, Satisfied, Left, Common;
    if want != 0 {
      if Satisfied(e.events, want, option) {
        forall u | u in e.waiters
          ensures !Ready(e.(events := Left(e.events, want, option)), u)
        {
          assert !Ready(e, u);
          LeftMonotone(e.events, want, option, e.phases[u].want, e.phases[u].option);
        }
      } else if timeout != 0 {
        assert t !in e.waiters;
        SuspendedMembers(e.order, e.waiters, e.prio, t);
        if e.order == Prio { SuspendedUrgent(e.waiters, e.prio, t); }
        var n := RecvStep(e, t, want, option, timeout).state;
        forall u | u in n.waiters
          ensures !Ready(n, u)
        {
          assert u != t ==> !Ready(e, u);
        }
      }
    }
  }

  lemma ExpireGood(e: Event, t: int)
    requires Good(e) && Enabled(e, Expire(t))
    ensures Good(Step(e, Expire(t)).state)
  {
    hide Unlisted, Urgent, Satisfied;
    UnlistedUrgent(e.waiters, e.prio, t);
    UnlistedMember(e.waiters, t, t);
    forall x
      ensures x in Unlisted(e.waiters, t) <==> x in e.waiters && x != t
    {
      UnlistedMember(e.waiters, t, x);
    }
    var n := Step(e, Expire(t)).state;
    forall u | u in n.waiters
      ensures !Ready(n, u)
    {
      assert !Ready(e, u);
    }
  }

  lemma ResumeGood(e: Event, t: int)
    requires Good(e) && Enabled(e, Resume(t))
    ensures Good(Step(e, Resume(t)).state)
  {
    hide Urgent, Satisfied;
    var n := Step(e, Resume(t)).state;
    forall u | u in n.waiters
      ensures !Ready(n, u)
    {
      assert !Ready(e, u);
    }
  }

  lemma StepGood(e: Event, a: Action)
    requires Good(e) && Enabled(e, a)
    ensures Good(Step(e, a).state)
  {
    hide RecvStep, ServeFrom, Satisfied;
    match a
    case Send(bits) => if bits != 0 { ServeFromGood(e.(events := Joined(e.events, bits)), 0); }
    case Recv(t, want, option, timeout) => RecvGood(e, t, want, option, timeout);
    case Resume(t) => ResumeGood(e, t);
    case Expire(t) => ExpireGood(e, t);
    case Reset =>
  }

  // ---- runs ----

  ghost predicate Possible(e: Event, acts: seq<Action>)
    requires Good(e)
    decreases |acts|
  {
    acts == [] || (Enabled(e, acts[0]) && (StepGood(e, acts[0]); Possible(Step(e, acts[0]).state, acts[1..])))
  }

  ghost function Run(e: Event, acts: seq<Action>): Result
    requires Good(e) && Possible(e, acts)
    decreases |acts|
  {
    if acts == [] then Result(e, [])
    else
      StepGood(e, acts[0]);
      var r := Step(e, acts[0]);
      var h := Run(r.state, acts[1..]);
      h.(notes := r.notes + h.notes)
  }

  lemma {:induction false} RunGood(e: Event, acts: seq<Action>)
    requires Good(e) && Possible(e, acts)
    ensures Good(Run(e, acts).state)
    decreases |acts|
  {
    hide Good, Step;
    if acts != [] {
      StepGood(e, acts[0]);
      RunGood(Step(e, acts[0]).state, acts[1..]);
    }
  }

  // ---- every received bit had been sent and not been cleared ----

  datatype Replayed = Wrong | Holds(bits: Bits)

  /** Receivers get non-empty parts of what is there, and some take them out. */
  function ReplayNote(acc: Bits, note: Note): Replayed {
    match note
    case Sent(bits) => Holds(Joined(acc, bits))
    case Given(_, got, clear) =>
      if got != 0 && Common(acc, got) == got then Holds(if clear then Minus(acc, got) else acc) else Wrong
    case Cleared => Holds(0)
    case _ => Holds(acc)
  }

  function Replay(acc: Bits, notes: seq<Note>): Replayed
    decreases |notes|
  {
    if notes == [] then Holds(acc)
    else
      var r := ReplayNote(acc, notes[0]);
      if r == Wrong then Wrong else Replay(r.bits, notes[1..])
  }

  /** What a satisfied receiver gets, and what it leaves. */
  lemma SatisfiedGets(events: Bits, want: Bits, option: Option)
    requires Satisfied(events, want, option) && want != 0
    ensures Common(events, want) != 0 && Common(events, Common(events, want)) == Common(events, want)
    ensures Left(events, want, option) == if option.clear then Minus(events, Common(events, want)) else events
    ensures option.all ==> Common(events, want) == want
  {
    hide Common, Minus;
    MinusCommon(events, want);
    CommonTwice(events, want);
  }

  lemma CommonTwice(x: Bits, y: Bits)
    ensures Common(x, Common(x, y)) == Common(x, y)
  {}

  lemma {:induction false} ServeReplays(e: Event, n: nat, rest: seq<Note>)
    requires Listed(e) && n <= |e.waiters|
    ensures Replay(e.events, ServeFrom(e, n).notes + rest) == Replay(ServeFrom(e, n).state.events, rest)
    decreases |e.waiters| - n
  {
    hide Common, Satisfied, Left, Minus, Urgent;
    if n == |e.waiters| {
      assert [] + rest == rest;
    } else {
      ListedThread(e, n);
      var p := e.phases[e.waiters[n]];
      if Ready(e, e.waiters[n]) {
        ServeListed(e, n);
        ServeReplays(Serve(e, n), n, rest);
        SatisfiedGets(e.events, p.want, p.option);
        var notes := ServeFrom(Serve(e, n), n).notes;
        var first := Given(e.waiters[n], Common(e.events, p.want), p.option.clear);
        assert ([first] + notes) + rest == [first] + (notes + rest);
        assert ([first] + (notes + rest))[1..] == notes + rest;
      } else {
        ServeReplays(e, n + 1, rest);
      }
    }
  }

  lemma ReplayFirst(acc: Bits, note: Note, rest: seq<Note>)
    ensures Replay(acc, [note] + rest) == if ReplayNote(acc, note) == Wrong then Wrong else Replay(ReplayNote(acc, note).bits, rest)
  {
    hide Common, Minus, Joined;
    assert ([note] + rest)[1..] == rest;
  }

  lemma SendReplays(e: Event, bits: Bits, rest: seq<Note>)
    requires Good(e)
    ensures Replay(e.events, SendStep(e, bits).notes + rest) == Replay(SendStep(e, bits).state.events, rest)
  {
    hide Common, Satisfied, Left, Minus, Urgent, ServeFrom, Joined, Replay;
    if bits == 0 {
      assert [] + rest == rest;
    } else {
      var sent := e.(events := Joined(e.events, bits));
      ServeReplays(sent, 0, rest);
      var notes := ServeFrom(sent, 0).notes;
      assert ([Sent(bits)] + notes) + rest == [Sent(bits)] + (notes + rest);
      ReplayFirst(e.events, Sent(bits), notes + rest);
    }
  }

  lemma RecvReplays(e: Event, t: int, want: Bits, option: Option, timeout: int, rest: seq<Note>)
    requires Good(e) && 0 <= t < |e.phases|
    ensures var r := RecvStep(e, t, want, option, timeout); Replay(e.events, r.notes + rest) == Replay(r.state.events, rest)
  {
    hide Common, Satisfied, Left, Minus, Urgent, Replay, Suspended;
    var r := RecvStep(e, t, want, option, timeout);
    if want != 0 && Satisfied(e.events, want, option) { SatisfiedGets(e.events, want, option); }
    ReplayFirst(e.events, r.notes[0], rest);
  }

  lemma StepReplays(e: Event, a: Action, rest: seq<Note>)
    requires Good(e) && Enabled(e, a)
    ensures Replay(e.events, Step(e, a).notes + rest) == Replay(Step(e, a).state.events, rest)
  {
    hide Common, Minus, SendStep, RecvStep, Replay, Good;
    match a
    case Send(bits) => SendReplays(e, bits, rest);
    case Recv(t, want, option, timeout) => RecvReplays(e, t, want, option, timeout, rest);
    case _ => ReplayFirst(e.events, Step(e, a).notes[0], rest);
  }

  /** Over any run the bits in the event are those sent and not taken out since, and nobody receives other bits. */
  lemma {:induction false} RunReplays(e: Event, acts: seq<Action>)
    requires Good(e) && Possible(e, acts)
    ensures Replay(e.events, Run(e, acts).notes) == Holds(Run(e, acts).state.events)
    decreases |acts|
  {
    hide Good, Step;
    if acts != [] {
      StepGood(e, acts[0]);
      RunReplays(Step(e, acts[0]).state, acts[1..]);
      StepReplays(e, acts[0], Run(Step(e, acts[0]).state, acts[1..]).notes);
    }
  }
}
