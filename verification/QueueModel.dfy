/** The message queue of ipc.c as a step machine. Sending and receiving take two sections each: between
    them the message node is in the hands of one thread, which copies the message. */
module QueueModel {
  import opened Chains
  import opened Rings
  import opened IpcLists

  type Byte = bv8

  datatype Code = Timeout | Full | Error

  datatype Phase =
    | Outside
    | Filling(node: int, bytes: seq<Byte>, urgent: bool)
    | Waiting(size: nat, timeout: int)
    | Woken(size: nat, timeout: int)
    | Draining(node: int, size: nat)
    | Failing(code: Code)

  datatype Queue = Queue(order: Order, prio: seq<int>, msgSize: nat, data: seq<seq<Byte>>,
                         free: seq<int>, queued: seq<int>, receivers: seq<int>, phases: seq<Phase>)

  // ---- where the nodes are ----

  /** The node a thread holds between two sections. */
  function Hand(p: Phase): int {
    match p
    case Filling(n, _, _) => n
    case Draining(n, _) => n
    case _ => NULL
  }

  function Hands(phases: seq<Phase>): (h: seq<int>)
    ensures |h| == |phases|
  {
    seq(|phases|, i requires 0 <= i < |phases| => Hand(phases[i]))
  }

  /** Every node is in exactly one place: the free list, the queue, or the hands of one thread. */
  ghost predicate Placed(free: seq<int>, queued: seq<int>, hands: seq<int>, max: nat) {
    && Distinct(free) && Distinct(queued)
    && (forall n :: n in free ==> n !in queued && n !in hands)
    && (forall n :: n in queued ==> n !in hands)
    && (forall t, u :: 0 <= t < u < |hands| && hands[t] != NULL ==> hands[t] != hands[u])
    && (forall n :: n in free || n in queued || (n in hands && n != NULL) <==> 0 <= n < max)
  }

  lemma SetHand(hands: seq<int>, t: int, n: int)
    requires 0 <= t < |hands|
    requires forall u, v :: 0 <= u < v < |hands| && hands[u] != NULL ==> hands[u] != hands[v]
    ensures forall x :: x != NULL ==> (x in hands[t := n] <==> x == n || (x in hands && x != hands[t]))
  {
    forall x | x != NULL
      ensures x in hands[t := n] <==> x == n || (x in hands && x != hands[t])
    {
      if x in hands && x != hands[t] {
        var i :| 0 <= i < |hands| && hands[i] == x;
        assert hands[t := n][i] == x;
      }
      if x == n { assert hands[t := n][t] == n; }
      if x in hands[t := n] && x != n {
        var i :| 0 <= i < |hands| && hands[t := n][i] == x;
        assert hands[i] == x;
      }
    }
  }

  lemma FreeToHand(free: seq<int>, queued: seq<int>, hands: seq<int>, max: nat, t: int)
    requires Placed(free, queued, hands, max) && free != [] && 0 <= t < |hands| && hands[t] == NULL
    ensures Placed(free[1..], queued, hands[t := free[0]], max)
  {
    TailDistinct(free);
    assert free[0] in free;
    SetHand(hands, t, free[0]);
    var h := hands[t := free[0]];
    assert forall n :: n in queued ==> n !in h;
  }

  lemma QueueToHand(free: seq<int>, queued: seq<int>, hands: seq<int>, max: nat, t: int)
    requires Placed(free, queued, hands, max) && queued != [] && 0 <= t < |hands| && hands[t] == NULL
    ensures Placed(free, queued[1..], hands[t := queued[0]], max)
  {
    TailDistinct(queued);
    assert queued[0] in queued;
    SetHand(hands, t, queued[0]);
    var h := hands[t := queued[0]];
    assert forall n :: n in free ==> n !in h;
  }

  lemma HandToFree(free: seq<int>, queued: seq<int>, hands: seq<int>, max: nat, t: int)
    requires Placed(free, queued, hands, max) && 0 <= t < |hands| && hands[t] != NULL
    ensures Placed([hands[t]] + free, queued, hands[t := NULL], max)
  {
    assert hands[t] in hands;
    SetHand(hands, t, NULL);
    var h := hands[t := NULL];
    assert forall n :: n in queued ==> n !in h;
  }

  lemma HandToQueue(free: seq<int>, queued: seq<int>, hands: seq<int>, max: nat, t: int, urgent: bool)
    requires Placed(free, queued, hands, max) && 0 <= t < |hands| && hands[t] != NULL
    ensures Placed(free, if urgent then [hands[t]] + queued else queued + [hands[t]], hands[t := NULL], max)
  {
    assert hands[t] in hands;
    SetHand(hands, t, NULL);
    var h := hands[t := NULL];
    assert forall n :: n in queued ==> n !in h;
  }

  /** Releasing the messages of a queue one after the other. */
  function Pushed(free: seq<int>, nodes: seq<int>): seq<int>
    decreases |nodes|
  {
    if nodes == [] then free else Pushed([nodes[0]] + free, nodes[1..])
  }

  lemma {:induction false} QueueToFree(free: seq<int>, queued: seq<int>, hands: seq<int>, max: nat)
    requires Placed(free, queued, hands, max)
    ensures Placed(Pushed(free, queued), [], hands, max)
    decreases |queued|
  {
    if queued != [] {
      TailDistinct(queued);
      assert queued[0] in queued;
      QueueToFree([queued[0]] + free, queued[1..], hands, max);
    }
  }

  // ---- the invariant ----

  function WokenReceiver(): Phase -> bool {
    (p: Phase) => p.Woken?
  }

  function Count(phases: seq<Phase>): nat {
    CountIf(phases, WokenReceiver())
  }

  lemma CountChange(phases: seq<Phase>, t: int, p: Phase)
    requires 0 <= t < |phases|
    ensures Count(phases[t := p]) == Count(phases) - One(phases[t].Woken?) + One(p.Woken?)
  {
    CountUpdate(phases, WokenReceiver(), t, p);
  }

  ghost predicate Listed(order: Order, prio: seq<int>, list: seq<int>, phases: seq<Phase>) {
    && |prio| == |phases| && Distinct(list) && Threads(list, |phases|)
    && (forall t :: 0 <= t < |phases| ==> (t in list <==> phases[t].Waiting?))
    && (order == Prio ==> Urgent(list, prio))
  }

  /** Message nodes have room for one message, and senders hold messages that fit. */
  ghost predicate Sized(s: Queue) {
    && (forall n :: 0 <= n < |s.data| ==> |s.data[n]| == s.msgSize)
    && (forall t :: 0 <= t < |s.phases| && s.phases[t].Filling? ==> |s.phases[t].bytes| <= s.msgSize)
    && forall t :: 0 <= t < |s.phases| && (s.phases[t].Filling? || s.phases[t].Draining?) ==> s.phases[t].node >= 0
  }

  ghost predicate Good(s: Queue) {
    && Placed(s.free, s.queued, Hands(s.phases), |s.data|)
    && Listed(s.order, s.prio, s.receivers, s.phases)
    && Sized(s)
    && (s.receivers != [] ==> |s.queued| <= Count(s.phases))
  }

  // ---- the steps ----

  datatype Action =
    | Send(thread: int, bytes: seq<Byte>, urgent: bool)   // rt_mq_send, rt_mq_urgent: take a free node
    | Link(thread: int)                                   // copy the message and link the node
    | Recv(thread: int, size: nat, timeout: int)          // rt_mq_recv: unlink the first node
    | Resume(thread: int, elapsed: nat)
    | Return(thread: int)                                 // copy the message out and free the node
    | Expire(thread: int)
    | Reset

  datatype Note =
    | Reserved(thread: int)
    | Linked(thread: int, payload: seq<Byte>, urgent: bool)
    | Took(thread: int, payload: seq<Byte>)
    | Received(thread: int, bytes: seq<Byte>)
    | Blocked(thread: int)
    | Refused(thread: int, code: Code)
    | Expired(thread: int)
    | Cleared

  datatype Result = Result(state: Queue, note: Note)

  ghost predicate Enabled(s: Queue, a: Action) {
    match a
    case Send(t, bytes, _) => 0 <= t < |s.phases| && s.phases[t].Outside? && bytes != []
    case Link(t) => 0 <= t < |s.phases| && s.phases[t].Filling?
    case Recv(t, size, _) => 0 <= t < |s.phases| && s.phases[t].Outside? && size > 0
    case Resume(t, _) => 0 <= t < |s.phases| && (s.phases[t].Woken? || s.phases[t].Failing?)
    case Return(t) => 0 <= t < |s.phases| && s.phases[t].Draining?
    case Expire(t) => 0 <= t < |s.phases| && s.phases[t].Waiting? && s.phases[t].timeout > 0
    case Reset => true
  }

  function Set(s: Queue, t: int, p: Phase): Queue
    requires 0 <= t < |s.phases|
  {
    s.(phases := s.phases[t := p])
  }

  /** A message of fewer bytes leaves the rest of the node as it was. */
  function Copied(was: seq<Byte>, bytes: seq<Byte>): seq<Byte>
    requires |bytes| <= |was|
  {
    bytes + was[|bytes|..]
  }

  ghost function SendStep(s: Queue, t: int, bytes: seq<Byte>, urgent: bool): Result
    requires 0 <= t < |s.phases|
  {
    if |bytes| > s.msgSize then Result(s, Refused(t, Error))
    else if s.free == [] then Result(s, Refused(t, Full))
    else Result(Set(s.(free := s.free[1..]), t, Filling(s.free[0], bytes, urgent)), Reserved(t))
  }

  /** rt_ipc_list_resume, if somebody waits. */
  ghost function Wake(s: Queue): Queue
    requires s.receivers != [] ==> 0 <= s.receivers[0] < |s.phases| && s.phases[s.receivers[0]].Waiting?
  {
    if s.receivers == [] then s
    else
      var t := s.receivers[0];
      Set(s.(receivers := s.receivers[1..]), t, Woken(s.phases[t].size, s.phases[t].timeout))
  }

  lemma HandInRange(s: Queue, t: int)
    requires Good(s) && 0 <= t < |s.phases| && (s.phases[t].Filling? || s.phases[t].Draining?)
    ensures 0 <= s.phases[t].node < |s.data| && Hand(s.phases[t]) == s.phases[t].node
    ensures Hand(s.phases[t]) !in s.free && Hand(s.phases[t]) !in s.queued
  {
    assert Hands(s.phases)[t] in Hands(s.phases);
  }

  lemma HeadWaits(s: Queue)
    requires Listed(s.order, s.prio, s.receivers, s.phases) && s.receivers != []
    ensures 0 <= s.receivers[0] < |s.phases| && s.phases[s.receivers[0]].Waiting?
  {
    assert s.receivers[0] in s.receivers;
  }

  /** The message is copied into the node and the node put at the tail, or at the head when urgent. */
  ghost function LinkedBy(s: Queue, t: int): Queue
    requires Good(s) && 0 <= t < |s.phases| && s.phases[t].Filling?
  {
    HandInRange(s, t);
    var n := s.phases[t].node;
    var payload := Copied(s.data[n], s.phases[t].bytes);
    Set(s.(data := s.data[n := payload], queued := if s.phases[t].urgent then [n] + s.queued else s.queued + [n]), t, Outside)
  }

  ghost function LinkStep(s: Queue, t: int): Result
    requires Good(s) && 0 <= t < |s.phases| && s.phases[t].Filling?
  {
    HandInRange(s, t);
    LinkedHeads(s, t);
    Result(Wake(LinkedBy(s, t)), Linked(t, Copied(s.data[s.phases[t].node], s.phases[t].bytes), s.phases[t].urgent))
  }

  lemma LinkedHeads(s: Queue, t: int)
    requires Good(s) && 0 <= t < |s.phases| && s.phases[t].Filling?
    ensures s.receivers != [] ==> 0 <= s.receivers[0] < |s.phases| && s.receivers[0] != t && s.phases[s.receivers[0]].Waiting?
  {
    if s.receivers != [] { HeadWaits(s); }
  }

  /** From the test for an empty queue to the end of the section. */
  ghost function RecvStep(s: Queue, t: int, size: nat, timeout: int): Result
    requires Good(s) && 0 <= t < |s.phases|
  {
    if s.queued == [] then
      if timeout == 0 then Result(Set(s, t, Outside), Refused(t, Timeout))
      else Result(Set(s.(receivers := Suspended(s.order, s.receivers, s.prio, t)), t, Waiting(size, timeout)), Blocked(t))
    else
      QueuedInRange(s);
      Result(Set(s.(queued := s.queued[1..]), t, Draining(s.queued[0], size)), Took(t, s.data[s.queued[0]]))
  }

  lemma QueuedInRange(s: Queue)
    requires Good(s) && s.queued != []
    ensures 0 <= s.queued[0] < |s.data|
  {
    assert s.queued[0] in s.queued;
  }

  function Min(a: nat, b: nat): nat { if a < b then a else b }

  ghost function ReturnStep(s: Queue, t: int): Result
    requires Good(s) && 0 <= t < |s.phases| && s.phases[t].Draining?
  {
    HandInRange(s, t);
    var n := s.phases[t].node;
    Result(Set(s.(free := [n] + s.free), t, Outside), Received(t, s.data[n][..Min(s.phases[t].size, s.msgSize)]))
  }

  function Fail(p: Phase, code: Code): Phase {
    if p.Waiting? then Failing(code) else p
  }

  function FailAll(phases: seq<Phase>): seq<Phase> {
    seq(|phases|, i requires 0 <= i < |phases| => Fail(phases[i], Error))
  }

  ghost function Step(s: Queue, a: Action): Result
    requires Good(s) && Enabled(s, a)
  {
    match a
    case Send(t, bytes, urgent) => SendStep(s, t, bytes, urgent)
    case Link(t) => LinkStep(s, t)
    case Recv(t, size, timeout) => RecvStep(s, t, size, timeout)
    case Resume(t, elapsed) =>
      if s.phases[t].Failing? then Result(Set(s, t, Outside), Refused(t, s.phases[t].code))
      else RecvStep(s, t, s.phases[t].size, Remaining(s.phases[t].timeout, elapsed))
    case Return(t) => ReturnStep(s, t)
    case Expire(t) => Result(Set(s.(receivers := Unlisted(s.receivers, t)), t, Failing(Timeout)), Expired(t))
    case Reset => Result(s.(free := Pushed(s.free, s.queued), queued := [], receivers := [], phases := FailAll(s.phases)), Cleared)
  }

  // ---- every step keeps the invariant ----

  lemma HandsSet(phases: seq<Phase>, t: int, p: Phase)
    requires 0 <= t < |phases|
    ensures Hands(phases[t := p]) == Hands(phases)[t := Hand(p)]
    ensures Hand(p) == Hand(phases[t]) ==> Hands(phases[t := p]) == Hands(phases)
    ensures Hands(phases)[t] == Hand(phases[t])
  {}

  lemma SetListed(s: Queue, t: int, p: Phase)
    requires Listed(s.order, s.prio, s.receivers, s.phases) && 0 <= t < |s.phases| && !s.phases[t].Waiting? && !p.Waiting?
    ensures Listed(s.order, s.prio, s.receivers, s.phases[t := p])
  {}

  lemma SendGood(s: Queue, t: int, bytes: seq<Byte>, urgent: bool)
    requires Good(s) && Enabled(s, Send(t, bytes, urgent))
    ensures Good(SendStep(s, t, bytes, urgent).state)
  {
    hide Placed, Listed, Count, Hands;
    if |bytes| <= s.msgSize && s.free != [] {
      var p := Filling(s.free[0], bytes, urgent);
      HandsSet(s.phases, t, p);
      FreeToHand(s.free, s.queued, Hands(s.phases), |s.data|, t);
      SetListed(s, t, p);
      CountChange(s.phases, t, p);
      FreeInRange(s);
    }
  }

  lemma FreeInRange(s: Queue)
    requires Good(s) && s.free != []
    ensures 0 <= s.free[0] < |s.data|
  {
    assert s.free[0] in s.free;
  }

  lemma WakeGood(s: Queue)
    requires Placed(s.free, s.queued, Hands(s.phases), |s.data|) && Listed(s.order, s.prio, s.receivers, s.phases) && Sized(s)
    requires s.receivers != [] ==> |s.queued| <= Count(s.phases) + 1
    ensures s.receivers != [] ==> 0 <= s.receivers[0] < |s.phases| && s.phases[s.receivers[0]].Waiting?
    ensures Good(Wake(s))
  {
    hide Placed, Count, Hands, Urgent;
    if s.receivers != [] {
      HeadWaits(s);
      var t := s.receivers[0];
      var p := Woken(s.phases[t].size, s.phases[t].timeout);
      HandsSet(s.phases, t, p);
      CountChange(s.phases, t, p);
      TailDistinct(s.receivers);
      if s.order == Prio { TailUrgent(s.receivers, s.prio); }
    }
  }

  lemma TailUrgent(list: seq<int>, prio: seq<int>)
    requires Urgent(list, prio) && list != []
    ensures Urgent(list[1..], prio)
  {
    assert forall i :: 0 <= i < |list| - 1 ==> list[1..][i] == list[i + 1];
  }

  lemma LinkGood(s: Queue, t: int)
    requires Good(s) && Enabled(s, Link(t))
    ensures Good(LinkStep(s, t).state)
  {
    hide Placed, Listed, Count, Hands;
    HandInRange(s, t);
    HandsSet(s.phases, t, Outside);
    HandToQueue(s.free, s.queued, Hands(s.phases), |s.data|, t, s.phases[t].urgent);
    SetListed(s, t, Outside);
    CountChange(s.phases, t, Outside);
    WakeGood(LinkedBy(s, t));
  }

  lemma RecvGood(s: Queue, t: int, size: nat, timeout: int)
    requires Good(s) && 0 <= t < |s.phases| && (s.phases[t].Outside? || s.phases[t].Woken?)
    ensures Good(RecvStep(s, t, size, timeout).state)
  {
    hide Placed, Count, Hands, Urgent, Suspended;
    var p := if s.queued != [] then Draining(s.queued[0], size) else if timeout == 0 then Outside else Waiting(size, timeout);
    HandsSet(s.phases, t, p);
    CountChange(s.phases, t, p);
    if s.queued != [] {
      QueuedInRange(s);
      QueueToHand(s.free, s.queued, Hands(s.phases), |s.data|, t);
    } else if timeout != 0 {
      assert t !in s.receivers;
      SuspendedMembers(s.order, s.receivers, s.prio, t);
      if s.order == Prio { SuspendedUrgent(s.receivers, s.prio, t); }
    }
  }

  lemma ReturnGood(s: Queue, t: int)
    requires Good(s) && Enabled(s, Return(t))
    ensures Good(ReturnStep(s, t).state)
  {
    hide Placed, Listed, Count, Hands;
    HandInRange(s, t);
    HandsSet(s.phases, t, Outside);
    HandToFree(s.free, s.queued, Hands(s.phases), |s.data|, t);
    SetListed(s, t, Outside);
    CountChange(s.phases, t, Outside);
  }

  lemma ExpireGood(s: Queue, t: int)
    requires Good(s) && Enabled(s, Expire(t))
    ensures Good(Step(s, Expire(t)).state)
  {
    hide Placed, Count, Hands, Urgent, Unlisted;
    HandsSet(s.phases, t, Failing(Timeout));
    CountChange(s.phases, t, Failing(Timeout));
    UnlistedUrgent(s.receivers, s.prio, t);
    UnlistedMember(s.receivers, t, t);
    forall x
      ensures x in Unlisted(s.receivers, t) <==> x in s.receivers && x != t
    {
      UnlistedMember(s.receivers, t, x);
    }
    NotEmptied(s.receivers, t);
  }

  lemma NotEmptied(s: seq<int>, t: int)
    ensures s == [] ==> Unlisted(s, t) == []
  {}

  lemma ResetGood(s: Queue)
    requires Good(s)
    ensures Good(Step(s, Reset).state)
  {
    hide Placed, Count, Pushed;
    assert Hands(FailAll(s.phases)) == Hands(s.phases);
    QueueToFree(s.free, s.queued, Hands(s.phases), |s.data|);
  }

  lemma FailedGood(s: Queue, t: int)
    requires Good(s) && 0 <= t < |s.phases| && s.phases[t].Failing?
    ensures Good(Set(s, t, Outside))
  {
    hide Placed, Listed, Count, Hands;
    HandsSet(s.phases, t, Outside);
    SetListed(s, t, Outside);
    CountChange(s.phases, t, Outside);
  }

  lemma StepGood(s: Queue, a: Action)
    requires Good(s) && Enabled(s, a)
    ensures Good(Step(s, a).state)
  {
    hide Good, SendStep, LinkStep, RecvStep, ReturnStep;
    match a
    case Send(t, bytes, urgent) => SendGood(s, t, bytes, urgent);
    case Link(t) => LinkGood(s, t);
    case Recv(t, size, timeout) => RecvGood(s, t, size, timeout);
    case Resume(t, elapsed) =>
      if s.phases[t].Failing? { FailedGood(s, t); }
      else { RecvGood(s, t, s.phases[t].size, Remaining(s.phases[t].timeout, elapsed)); }
    case Return(t) => ReturnGood(s, t);
    case Expire(t) => ExpireGood(s, t);
    case Reset => ResetGood(s);
  }

  // ---- what every call answers ----

  /** A message that does not fit is an error and without a free node the queue is full; otherwise the sender gets the first
      free node, in which it will write its bytes. */
  lemma SendAnswer(s: Queue, t: int, bytes: seq<Byte>, urgent: bool)
    requires Good(s) && Enabled(s, Send(t, bytes, urgent))
    ensures var r := Step(s, Send(t, bytes, urgent)); var n := r.state;
      && (r.note == Refused(t, Error) <==> |bytes| > s.msgSize)
      && (r.note == Refused(t, Full) <==> |bytes| <= s.msgSize && s.free == [])
      && (r.note == Reserved(t) <==> |bytes| <= s.msgSize && s.free != [])
      && (r.note != Reserved(t) ==> n == s)
      && (r.note == Reserved(t) ==>
            && s.free == [s.free[0]] + n.free
            && n == s.(free := n.free, phases := s.phases[t := Filling(s.free[0], bytes, urgent)]))
  {}

  /** The node holds the bytes, in front of what was there, and comes last in the queue, or first if it is urgent; the first
      waiting receiver, if there is one, may try again. */
  lemma LinkAnswer(s: Queue, t: int)
    requires Good(s) && Enabled(s, Link(t))
    ensures var r, p := Step(s, Link(t)), s.phases[t]; var n := r.state;
      && 0 <= p.node < |s.data| == |n.data| && |n.data[p.node]| == s.msgSize
      && n.data[p.node][..|p.bytes|] == p.bytes && n.data[p.node][|p.bytes|..] == s.data[p.node][|p.bytes|..]
      && r.note == Linked(t, n.data[p.node], p.urgent)
      && (forall k :: 0 <= k < |s.data| && k != p.node ==> n.data[k] == s.data[k])
      && n.queued == (if p.urgent then [p.node] + s.queued else s.queued + [p.node])
      && n == s.(data := n.data, queued := n.queued, receivers := n.receivers, phases := n.phases)
      && if s.receivers == [] then n.receivers == [] && n.phases == s.phases[t := Outside]
         else
           && s.receivers == [s.receivers[0]] + n.receivers
           && 0 <= s.receivers[0] < |s.phases| && s.phases[s.receivers[0]].Waiting?
           && n.phases == s.phases[t := Outside][s.receivers[0] := Woken(s.phases[s.receivers[0]].size, s.phases[s.receivers[0]].timeout)]
  {
    hide Placed, Listed;
    HandInRange(s, t);
    LinkedHeads(s, t);
  }

  /** A receiver gets the first message exactly if there is one; otherwise it is refused if it does not wait, and waits. */
  ghost predicate Answers(s: Queue, t: int, size: nat, timeout: int, r: Result)
    requires Good(s) && 0 <= t < |s.phases|
  {
    var n := r.state;
    if s.queued != [] then
      && 0 <= s.queued[0] < |s.data| && r.note == Took(t, s.data[s.queued[0]])
      && s.queued == [s.queued[0]] + n.queued && n == s.(queued := n.queued, phases := s.phases[t := Draining(s.queued[0], size)])
    else if timeout == 0 then r == Result(s.(phases := s.phases[t := Outside]), Refused(t, Timeout))
    else
      && r.note == Blocked(t) && Joins(s.order, s.receivers, n.receivers, s.prio, t)
      && n == s.(receivers := n.receivers, phases := s.phases[t := Waiting(size, timeout)])
  }

  lemma RecvAnswer(s: Queue, t: int, size: nat, timeout: int)
    requires Good(s) && 0 <= t < |s.phases|
    ensures Answers(s, t, size, timeout, RecvStep(s, t, size, timeout))
  {
    hide Placed, Suspended, Urgent, Joins;
    SuspendedJoins(s.order, s.receivers, s.prio, t);
    if s.queued != [] { QueuedInRange(s); }
  }

  /** A receive, and a woken thread for the rest of its time, answers like this; the message returned is the part of the
      node that fits, and the node is free again; a reset frees every queued node and wakes everybody with an error. */
  lemma StepAnswer(s: Queue, a: Action)
    requires Good(s) && Enabled(s, a)
    ensures var r := Step(s, a); match a
      case Recv(t, size, timeout) => Answers(s, t, size, timeout, r)
      case Resume(t, elapsed) =>
        if s.phases[t].Woken? then Answers(s, t, s.phases[t].size, Remaining(s.phases[t].timeout, elapsed), r)
        else r == Result(s.(phases := s.phases[t := Outside]), Refused(t, s.phases[t].code))
      case Return(t) =>
        && 0 <= s.phases[t].node < |s.data|
        && r.state == s.(free := [s.phases[t].node] + s.free, phases := s.phases[t := Outside])
        && r.note.Received? && r.note.thread == t && r.note.bytes <= s.data[s.phases[t].node]
        && |r.note.bytes| == (if s.phases[t].size < s.msgSize then s.phases[t].size else s.msgSize)
      case Expire(t) =>
        && r.note == Expired(t) && Leaves(s.receivers, r.state.receivers, t)
        && r.state == s.(receivers := r.state.receivers, phases := s.phases[t := Failing(Timeout)])
      case Reset =>
        && r.note == Cleared && r.state == s.(free := r.state.free, queued := [], receivers := [], phases := r.state.phases)
        && (forall x :: x in r.state.free <==> x in s.free || x in s.queued)
        && |r.state.phases| == |s.phases|
        && forall u :: 0 <= u < |s.phases| ==> r.state.phases[u] == if s.phases[u].Waiting? then Failing(Error) else s.phases[u]
      case _ => true
  {
    hide RecvStep, Answers, SendStep, LinkStep, Urgent, Placed, Unlisted, Leaves, Count;
    match a
    case Recv(t, size, timeout) => RecvAnswer(s, t, size, timeout);
    case Resume(t, elapsed) => if s.phases[t].Woken? { RecvAnswer(s, t, s.phases[t].size, Remaining(s.phases[t].timeout, elapsed)); }
    case Return(t) => HandInRange(s, t);
    case Expire(t) => UnlistedLeaves(s.receivers, t);
    case Reset => PushedMembers(s.free, s.queued);
    case _ =>
  }

  lemma {:induction false} PushedMembers(free: seq<int>, nodes: seq<int>)
    ensures forall x :: x in Pushed(free, nodes) <==> x in free || x in nodes
    decreases |nodes|
  {
    if nodes != [] {
      PushedMembers([nodes[0]] + free, nodes[1..]);
      assert nodes == [nodes[0]] + nodes[1..];
    }
  }

  // ---- runs ----

  datatype History = History(state: Queue, notes: seq<Note>)

  ghost predicate Possible(s: Queue, acts: seq<Action>)
    requires Good(s)
    decreases |acts|
  {
    acts == [] || (Enabled(s, acts[0]) && (StepGood(s, acts[0]); Possible(Step(s, acts[0]).state, acts[1..])))
  }

  ghost function Run(s: Queue, acts: seq<Action>): History
    requires Good(s) && Possible(s, acts)
    decreases |acts|
  {
    if acts == [] then History(s, [])
    else
      StepGood(s, acts[0]);
      var r := Step(s, acts[0]);
      var h := Run(r.state, acts[1..]);
      h.(notes := [r.note] + h.notes)
  }

  lemma {:induction false} RunGood(s: Queue, acts: seq<Action>)
    requires Good(s) && Possible(s, acts)
    ensures Good(Run(s, acts).state) && |Run(s, acts).state.data| == |s.data|
    decreases |acts|
  {
    hide Good, Step;
    if acts != [] {
      StepGood(s, acts[0]);
      StepKeeps(s, acts[0]);
      RunGood(Step(s, acts[0]).state, acts[1..]);
    }
  }

  lemma StepKeeps(s: Queue, a: Action)
    requires Good(s) && Enabled(s, a)
    ensures |Step(s, a).state.data| == |s.data| && |Step(s, a).state.phases| == |s.phases|
  {
    hide Placed, Listed, Suspended, Unlisted, Pushed;
    if a.Link? {
      HandInRange(s, a.thread);
      LinkedHeads(s, a.thread);
    }
  }

  /** Once every woken thread has tried again, nobody waits for a message that is there. */
  lemma NobodyForgotten(s: Queue, acts: seq<Action>)
    requires Good(s) && Possible(s, acts)
    requires forall i :: 0 <= i < |Run(s, acts).state.phases| ==> !Run(s, acts).state.phases[i].Woken?
    ensures Run(s, acts).state.receivers != [] ==> Run(s, acts).state.queued == []
  {
    RunGood(s, acts);
    CountZero(Run(s, acts).state.phases, WokenReceiver());
  }

  // ---- no node is lost ----

  lemma AllPlaced(free: seq<int>, queued: seq<int>, hands: seq<int>, max: nat)
    requires Placed(free, queued, hands, max) && forall t :: 0 <= t < |hands| ==> hands[t] == NULL
    ensures |free| + |queued| == max
  {
    hide Distinct;
    DistinctSize(free);
    DistinctSize(queued);
    assert Elements(free) + Elements(queued) == Range(max);
    assert Elements(free) !! Elements(queued);
  }

  /** When no thread is between two sections, the free list and the queue together hold all nodes. */
  lemma NodesConserved(s: Queue, acts: seq<Action>)
    requires Good(s) && Possible(s, acts)
    requires forall i :: 0 <= i < |Run(s, acts).state.phases| ==> Hand(Run(s, acts).state.phases[i]) == NULL
    ensures |Run(s, acts).state.free| + |Run(s, acts).state.queued| == |s.data|
  {
    hide Placed, Listed, Sized, Run;
    RunGood(s, acts);
    var e := Run(s, acts).state;
    AllPlaced(e.free, e.queued, Hands(e.phases), |e.data|);
  }

  // ---- messages come out as they were linked, urgent ones first ----

  function Payloads(data: seq<seq<Byte>>, nodes: seq<int>): (r: seq<seq<Byte>>)
    ensures |r| == |nodes|
  {
    seq(|nodes|, i requires 0 <= i < |nodes| => if 0 <= nodes[i] < |data| then data[nodes[i]] else [])
  }

  lemma PayloadsFrame(data: seq<seq<Byte>>, nodes: seq<int>, n: int, payload: seq<Byte>)
    requires 0 <= n < |data| && n !in nodes
    ensures Payloads(data[n := payload], nodes) == Payloads(data, nodes)
  {
    forall i | 0 <= i < |nodes|
      ensures nodes[i] != n
    {
      assert nodes[i] in nodes;
    }
  }

  lemma PayloadsOne(data: seq<seq<Byte>>, n: int)
    requires 0 <= n < |data|
    ensures Payloads(data, [n]) == [data[n]]
  {}

  lemma PayloadsConcat(data: seq<seq<Byte>>, a: seq<int>, b: seq<int>)
    ensures Payloads(data, a + b) == Payloads(data, a) + Payloads(data, b)
  {}

  datatype Replayed = Wrong | Holds(messages: seq<seq<Byte>>)

  /** A plain list of messages: sent to the tail, urgent ones to the head, taken from the head. */
  function Replay(q: seq<seq<Byte>>, notes: seq<Note>): Replayed
    decreases |notes|
  {
    if notes == [] then Holds(q)
    else match notes[0]
      case Linked(_, payload, urgent) => Replay(if urgent then [payload] + q else q + [payload], notes[1..])
      case Took(_, payload) => if q != [] && q[0] == payload then Replay(q[1..], notes[1..]) else Wrong
      case Cleared => Replay([], notes[1..])
      case _ => Replay(q, notes[1..])
  }

  lemma LinkPayloads(s: Queue, t: int)
    requires Good(s) && 0 <= t < |s.phases| && s.phases[t].Filling?
    ensures var r := LinkStep(s, t);
            Payloads(r.state.data, r.state.queued) ==
            if s.phases[t].urgent then [r.note.payload] + Payloads(s.data, s.queued) else Payloads(s.data, s.queued) + [r.note.payload]
  {
    hide Placed, Listed, Count, Hands, Sized, Copied;
    HandInRange(s, t);
    var n, q, payload := s.phases[t].node, s.queued, LinkStep(s, t).note.payload;
    PayloadsFrame(s.data, q, n, payload);
    PayloadsOne(s.data[n := payload], n);
    if s.phases[t].urgent {
      PayloadsConcat(s.data[n := payload], [n], q);
    } else {
      PayloadsConcat(s.data[n := payload], q, [n]);
    }
  }

  lemma StepReplays(s: Queue, a: Action, rest: seq<Note>)
    requires Good(s) && Enabled(s, a)
    ensures Replay(Payloads(s.data, s.queued), [Step(s, a).note] + rest)
         == Replay(Payloads(Step(s, a).state.data, Step(s, a).state.queued), rest)
  {
    hide Good, LinkStep, Payloads;
    assert ([Step(s, a).note] + rest)[1..] == rest;
    match a
    case Link(t) =>
      LinkPayloads(s, t);
      LinkNote(s, t);
    case Recv(t, size, timeout) => RecvPayloads(s, t, size, timeout);
    case Resume(t, elapsed) =>
      if s.phases[t].Woken? { RecvPayloads(s, t, s.phases[t].size, Remaining(s.phases[t].timeout, elapsed)); }
    case _ => NoPayloads(s.data);
  }

  lemma LinkNote(s: Queue, t: int)
    requires Good(s) && 0 <= t < |s.phases| && s.phases[t].Filling?
    ensures LinkStep(s, t).note.Linked? && LinkStep(s, t).note.urgent == s.phases[t].urgent
  {}

  lemma NoPayloads(data: seq<seq<Byte>>)
    ensures Payloads(data, []) == []
  {}

  lemma RecvPayloads(s: Queue, t: int, size: nat, timeout: int)
    requires Good(s) && 0 <= t < |s.phases|
    ensures var r, q := RecvStep(s, t, size, timeout), Payloads(s.data, s.queued);
            if r.note.Took? then q != [] && q[0] == r.note.payload && Payloads(r.state.data, r.state.queued) == q[1..]
            else r.state.data == s.data && r.state.queued == s.queued && !r.note.Linked? && !r.note.Cleared?
  {
    hide Listed, Suspended;
    if s.queued != [] { QueuedInRange(s); }
  }

  lemma {:induction false} RunReplays(s: Queue, acts: seq<Action>)
    requires Good(s) && Possible(s, acts)
    ensures var h := Run(s, acts); Replay(Payloads(s.data, s.queued), h.notes) == Holds(Payloads(h.state.data, h.state.queued))
    decreases |acts|
  {
    hide Good, Step, Payloads;
    if acts != [] {
      StepGood(s, acts[0]);
      RunReplays(Step(s, acts[0]).state, acts[1..]);
      StepReplays(s, acts[0], Run(Step(s, acts[0]).state, acts[1..]).notes);
    }
  }

  // ---- what is in a thread's hands stays as it is ----

  /** The threads that an action moves by itself. */
  predicate Moves(a: Action, t: int) {
    match a
    case Reset => false
    case Send(u, _, _) => u == t
    case Link(u) => u == t
    case Recv(u, _, _) => u == t
    case Resume(u, _) => u == t
    case Return(u) => u == t
    case Expire(u) => u == t
  }

  lemma StepKeepsHand(s: Queue, a: Action, t: int)
    requires Good(s) && Enabled(s, a) && 0 <= t < |s.phases| && s.phases[t].Draining? && !Moves(a, t)
    ensures var e := Step(s, a).state;
            t < |e.phases| && e.phases[t] == s.phases[t] && 0 <= s.phases[t].node < |s.data| == |e.data|
            && e.data[s.phases[t].node] == s.data[s.phases[t].node]
  {
    hide Placed, Suspended, Unlisted, Pushed;
    HandInRange(s, t);
    if a.Link? {
      HandInRange(s, a.thread);
      OtherHand(s, t, a.thread);
      LinkedHeads(s, a.thread);
    }
  }

  lemma OtherHand(s: Queue, t: int, u: int)
    requires Good(s) && 0 <= t < |s.phases| && 0 <= u < |s.phases| && t != u && Hand(s.phases[t]) >= 0
    ensures Hand(s.phases[t]) != Hand(s.phases[u])
  {
    var h := Hands(s.phases);
    assert h[t] == Hand(s.phases[t]) && h[u] == Hand(s.phases[u]);
  }

  /** Between the two sections of a receive no other thread touches the message: what is copied out is what
      was unlinked. */
  lemma {:induction false} TakenIsReceived(s: Queue, acts: seq<Action>, t: int)
    requires Good(s) && Possible(s, acts) && 0 <= t < |s.phases| && s.phases[t].Draining?
    requires forall i :: 0 <= i < |acts| ==> !Moves(acts[i], t)
    ensures var e := Run(s, acts).state;
            Good(e) && Enabled(e, Return(t)) && 0 <= s.phases[t].node < |s.data| && e.msgSize == s.msgSize
            && Step(e, Return(t)).note == Received(t, s.data[s.phases[t].node][..Min(s.phases[t].size, s.msgSize)])
    decreases |acts|
  {
    HandInRange(s, t);
    if acts != [] {
      StepGood(s, acts[0]);
      StepKeepsHand(s, acts[0], t);
      StepMsgSize(s, acts[0]);
      TakenIsReceived(Step(s, acts[0]).state, acts[1..], t);
    }
  }

  lemma StepMsgSize(s: Queue, a: Action)
    requires Good(s) && Enabled(s, a)
    ensures Step(s, a).state.msgSize == s.msgSize
  {
    hide Placed, Listed, Suspended, Unlisted, Pushed;
  }
}
