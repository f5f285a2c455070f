/** The statements of rt_mq_init, rt_mq_send, rt_mq_urgent, rt_mq_recv and rt_mq_control: two singly linked
    lists that run through the message nodes. */
module QueueCode {
  import opened Chains
  import opened Rings
  import opened IpcLists
  import M = QueueModel

  function Down(n: nat): (s: seq<int>)
    ensures |s| == n && forall i :: 0 <= i < n ==> s[i] == n - 1 - i
  {
    if n == 0 then [] else [n - 1] + Down(n - 1)
  }

  lemma DownMembers(n: nat)
    ensures Distinct(Down(n)) && forall x :: x in Down(n) <==> 0 <= x < n
  {
    forall x | 0 <= x < n
      ensures x in Down(n)
    {
      assert Down(n)[n - 1 - x] == x;
    }
  }

  /** The loop of rt_mq_init: every node goes to the front of the free list. */
  method InitFree(max: nat) returns (next: map<int, int>, head: int)
    ensures (forall n :: 0 <= n < max ==> n in next) && Chain(next, head, Down(max))
  {
    next, head := map[], NULL;
    for temp := 0 to max
      invariant (forall n :: 0 <= n < temp ==> n in next) && Chain(next, head, Down(temp))
    {
      hide Chain;
      DownMembers(temp);
      ChainFrame(next, head, Down(temp), temp, head);
      next := next[temp := head];
      ChainCons(next, temp, Down(temp));
      head := temp;
      assert Down(temp + 1) == [temp] + Down(temp);
    }
  }

  class MessageQueue {
    const order: Order
    const prio: seq<int>
    const msgSize: nat
    var next: map<int, int>           // the link word of every node
    var data: seq<seq<M.Byte>>        // the message room of every node
    var queueHead: int                // msg_queue_head
    var queueTail: int                // msg_queue_tail
    var queueFree: int                // msg_queue_free
    var entry: nat
    var receivers: seq<int>           // parent.suspend_thread
    var phases: seq<M.Phase>
    ghost var free: seq<int>
    ghost var queued: seq<int>

    ghost predicate Linked()
      reads this
    {
      && (forall n :: 0 <= n < |data| ==> n in next)
      && Chain(next, queueFree, free) && Chain(next, queueHead, queued)
      && queueTail == Last(queued) && entry == |queued|
    }

    ghost function View(): M.Queue
      reads this
    {
      M.Queue(order, prio, msgSize, data, free, queued, receivers, phases)
    }

    ghost predicate Valid()
      reads this
    {
      Linked() && M.Good(View())
    }

    /** rt_mq_init: every node goes to the free list. */
    constructor (order: Order, prio: seq<int>, data: seq<seq<M.Byte>>, msgSize: nat)
      requires forall n :: 0 <= n < |data| ==> |data[n]| == msgSize
      ensures Valid()
      ensures View() == M.Queue(order, prio, msgSize, data, Down(|data|), [], [], seq(|prio|, i => M.Outside))
    {
      var links, first := InitFree(|data|);
      this.order, this.prio, this.data, this.msgSize := order, prio, data, msgSize;
      queueHead, queueTail := NULL, NULL;
      entry, receivers, queued := 0, [], [];
      phases := seq(|prio|, i => M.Outside);
      free := Down(|data|);
      next, queueFree := links, first;
      new;
      InitGood(View());
    }

    /** The first section of rt_mq_send and rt_mq_urgent. */
    method Send(t: int, bytes: seq<M.Byte>, urgent: bool) returns (note: M.Note)
      requires Valid() && M.Enabled(View(), M.Send(t, bytes, urgent))
      modifies this
      ensures Valid() && M.Result(View(), note) == M.Step(old(View()), M.Send(t, bytes, urgent))
    {
      hide M.Good, Chain;
      M.StepGood(View(), M.Send(t, bytes, urgent));
      if |bytes| > msgSize { return M.Refused(t, M.Error); }
      ChainHead(next, queueFree, free);
      var msg := queueFree;
      if msg == NULL { return M.Refused(t, M.Full); }
      queueFree := next[msg];
      free := free[1..];
      phases := phases[t := M.Filling(msg, bytes, urgent)];
      note := M.Reserved(t);
    }

    /** rt_mq_send: the node becomes the new tail. */
    method AddTail(msg: int)
      requires Linked() && Apart(free, queued, msg, |data|)
      modifies `next, `queueHead, `queueTail, `entry, `queued
      ensures Linked() && queued == old(queued) + [msg]
    {
      hide Chain, Distinct;
      ChainFrame(next, queueFree, free, msg, NULL);
      ChainFrame(next, queueHead, queued, msg, NULL);
      next := next[msg := NULL];
      ChainHead(next, queueHead, queued);
      LastNull(queued);
      if queueTail != NULL {
        ChainAppend(next, queueHead, queued, msg);
        ChainFrame(next, queueFree, free, queueTail, msg);
        next := next[queueTail := msg];
      }
      queueTail := msg;
      assert queued == [] ==> queued + [msg] == [msg];
      if queueHead == NULL {
        ChainOne(next, msg);
        queueHead := msg;
      }
      entry := entry + 1;
      queued := queued + [msg];
    }

    /** rt_mq_urgent: the node becomes the new head. */
    method AddHead(msg: int)
      requires Linked() && Apart(free, queued, msg, |data|)
      modifies `next, `queueHead, `queueTail, `entry, `queued
      ensures Linked() && queued == [msg] + old(queued)
    {
      hide Chain, Distinct;
      ChainFrame(next, queueFree, free, msg, queueHead);
      ChainFrame(next, queueHead, queued, msg, queueHead);
      next := next[msg := queueHead];
      ChainCons(next, msg, queued);
      LastNull(queued);
      queueHead := msg;
      if queueTail == NULL { queueTail := msg; }
      entry := entry + 1;
      queued := [msg] + queued;
    }

    /** The copy and the second section of rt_mq_send and rt_mq_urgent. */
    method Link(t: int) returns (note: M.Note)
      requires Valid() && M.Enabled(View(), M.Link(t))
      modifies this
      ensures Valid() && M.Result(View(), note) == M.Step(old(View()), M.Link(t))
    {
      hide M.Good, Chain;
      M.StepGood(View(), M.Link(t));
      M.HandInRange(View(), t);
      M.LinkedHeads(View(), t);
      HandApart(View(), t);
      var msg, urgent := phases[t].node, phases[t].urgent;
      data := data[msg := M.Copied(data[msg], phases[t].bytes)];
      note := M.Linked(t, data[msg], urgent);
      if urgent { AddHead(msg); } else { AddTail(msg); }
      phases := phases[t := M.Outside];
      if receivers != [] {
        var u := receivers[0];
        receivers := receivers[1..];
        phases := phases[u := M.Woken(phases[u].size, phases[u].timeout)];
      }
    }

    /** Unlinks the first message. */
    method TakeHead() returns (msg: int)
      requires Linked() && queued != [] && Distinct(queued)
      modifies `queueHead, `queueTail, `entry, `queued
      ensures Linked() && msg == old(queued)[0] && queued == old(queued)[1..]
    {
      ChainHead(next, queueHead, queued);
      msg := queueHead;
      queueHead := next[msg];
      if queueTail == msg { queueTail := NULL; }
      entry := entry - 1;
      queued := queued[1..];
    }

    /** Puts a node to the front of the free list. */
    method PutFree(msg: int)
      requires Linked() && 0 <= msg < |data| && msg !in free && msg !in queued
      modifies `next, `queueFree, `free
      ensures Linked() && free == [msg] + old(free)
    {
      hide Chain;
      ChainFrame(next, queueFree, free, msg, queueFree);
      ChainFrame(next, queueHead, queued, msg, queueFree);
      next := next[msg := queueFree];
      ChainCons(next, msg, free);
      queueFree := msg;
      free := [msg] + free;
    }

    /** The section of rt_mq_recv from the test for an empty queue to the removal of the first message. */
    method Recv(t: int, size: nat, timeout: int) returns (note: M.Note)
      requires Valid() && 0 <= t < |phases| && (phases[t].Outside? || phases[t].Woken?)
      modifies this
      ensures Valid() && M.Result(View(), note) == M.RecvStep(old(View()), t, size, timeout)
    {
      hide M.Good, Chain, Suspended;
      M.RecvGood(View(), t, size, timeout);
      QueueFacts(View());
      if entry == 0 {
        if timeout == 0 {
          phases := phases[t := M.Outside];
          return M.Refused(t, M.Timeout);
        }
        receivers := Suspend(order, receivers, prio, t);
        phases := phases[t := M.Waiting(size, timeout)];
        return M.Blocked(t);
      }
      M.QueuedInRange(View());
      var msg := TakeHead();
      phases := phases[t := M.Draining(msg, size)];
      note := M.Took(t, data[msg]);
    }

    /** The copy out of the node and the second section of rt_mq_recv. */
    method Return(t: int) returns (note: M.Note)
      requires Valid() && M.Enabled(View(), M.Return(t))
      modifies this
      ensures Valid() && M.Result(View(), note) == M.Step(old(View()), M.Return(t))
    {
      hide M.Good, Chain;
      M.StepGood(View(), M.Return(t));
      M.HandInRange(View(), t);
      HandApart(View(), t);
      var msg := phases[t].node;
      note := M.Received(t, data[msg][..M.Min(phases[t].size, msgSize)]);
      PutFree(msg);
      phases := phases[t := M.Outside];
    }

    /** A woken receiver returns its error, or tries again with the time that is left. */
    method Resume(t: int, elapsed: nat) returns (note: M.Note)
      requires Valid() && M.Enabled(View(), M.Resume(t, elapsed))
      modifies this
      ensures Valid() && M.Result(View(), note) == M.Step(old(View()), M.Resume(t, elapsed))
    {
      hide M.Good, M.RecvStep;
      M.StepGood(View(), M.Resume(t, elapsed));
      if phases[t].Failing? {
        note := M.Refused(t, phases[t].code);
        phases := phases[t := M.Outside];
      } else {
        note := Recv(t, phases[t].size, Remaining(phases[t].timeout, elapsed));
      }
    }

    /** rt_thread_timeout for a waiting receiver. */
    method Expire(t: int) returns (note: M.Note)
      requires Valid() && M.Enabled(View(), M.Expire(t))
      modifies this
      ensures Valid() && M.Result(View(), note) == M.Step(old(View()), M.Expire(t))
    {
      hide M.Good, Unlisted;
      M.StepGood(View(), M.Expire(t));
      receivers := Unlisted(receivers, t);
      phases := phases[t := M.Failing(M.Timeout)];
      note := M.Expired(t);
    }

    /** rt_mq_control with RT_IPC_CMD_RESET. */
    method Reset() returns (note: M.Note)
      requires Valid()
      modifies this
      ensures Valid() && M.Result(View(), note) == M.Step(old(View()), M.Reset)
    {
      hide M.Sized, M.Count, Chain;
      M.StepGood(View(), M.Reset);
      QueueFacts(View());
      phases := FailListed(receivers, phases);
      receivers := [];
      while queueHead != NULL
        invariant Linked() && Distinct(queued)
        invariant forall n :: n in queued ==> 0 <= n < |data| && n !in free
        invariant M.Pushed(free, queued) == M.Pushed(old(free), old(queued))
        invariant data == old(data) && receivers == [] && phases == M.FailAll(old(phases))
        decreases |queued|
      {
        ChainHead(next, queueHead, queued);
        TailDistinct(queued);
        assert queued[0] in queued;
        var msg := TakeHead();
        PutFree(msg);
      }
      ChainHead(next, queueHead, queued);
      entry := 0;
      note := M.Cleared;
    }

    /** Any possible run of sections behaves as the step machine. */
    method RunAll(acts: seq<M.Action>) returns (notes: seq<M.Note>)
      requires Valid() && M.Possible(View(), acts)
      modifies this
      ensures Valid() && M.History(View(), notes) == M.Run(old(View()), acts)
      decreases |acts|
    {
      hide M.Good, M.RecvStep, M.SendStep, M.LinkStep, M.ReturnStep, Linked;
      notes := [];
      if acts != [] {
        var note;
        match acts[0] {
          case Send(t, bytes, urgent) => note := Send(t, bytes, urgent);
          case Link(t) => note := Link(t);
          case Recv(t, size, timeout) => note := Recv(t, size, timeout);
          case Resume(t, elapsed) => note := Resume(t, elapsed);
          case Return(t) => note := Return(t);
          case Expire(t) => note := Expire(t);
          case Reset => note := Reset();
        }
        var rest := RunAll(acts[1..]);
        notes := [note] + rest;
      }
    }
  }

  lemma QueueFacts(s: M.Queue)
    requires M.Good(s)
    ensures Distinct(s.queued) && |s.prio| == |s.phases| && Threads(s.receivers, |s.prio|) && Distinct(s.receivers)
    ensures forall n :: n in s.queued ==> 0 <= n < |s.data| && n !in s.free
  {}

  /** rt_ipc_list_resume_all: every waiting thread is woken with an error. */
  method FailListed(list: seq<int>, phases: seq<M.Phase>) returns (r: seq<M.Phase>)
    requires Distinct(list) && Threads(list, |phases|)
    requires forall t :: 0 <= t < |phases| ==> (t in list <==> phases[t].Waiting?)
    ensures r == M.FailAll(phases)
  {
    var rest := list;
    r := phases;
    while rest != []
      invariant Distinct(rest) && Threads(rest, |phases|) && |r| == |phases|
      invariant forall i :: 0 <= i < |r| ==> (i in rest ==> i in list)
      invariant forall i :: 0 <= i < |r| ==> r[i] == if i in rest then phases[i] else M.Fail(phases[i], M.Error)
      decreases |rest|
    {
      TailDistinct(rest);
      r := r[rest[0] := M.Fail(r[rest[0]], M.Error)];
      rest := rest[1..];
    }
  }

  /** A node in no list, and two lists without common nodes. */
  ghost predicate Apart(free: seq<int>, queued: seq<int>, n: int, max: nat) {
    && Distinct(queued) && 0 <= n < max && n !in free && n !in queued
    && forall x :: x in queued ==> 0 <= x < max && x !in free
  }

  lemma HandApart(s: M.Queue, t: int)
    requires M.Good(s) && 0 <= t < |s.phases| && (s.phases[t].Filling? || s.phases[t].Draining?)
    ensures Apart(s.free, s.queued, s.phases[t].node, |s.data|)
    ensures |s.data[s.phases[t].node]| == s.msgSize
    ensures s.phases[t].Filling? ==> |s.phases[t].bytes| <= s.msgSize
  {
    M.HandInRange(s, t);
  }

  lemma InitGood(s: M.Queue)
    requires s == M.Queue(s.order, s.prio, s.msgSize, s.data, Down(|s.data|), [], [], seq(|s.prio|, i => M.Outside))
    requires forall n :: 0 <= n < |s.data| ==> |s.data[n]| == s.msgSize
    ensures M.Good(s)
  {
    DownMembers(|s.data|);
    assert forall n :: n in M.Hands(s.phases) ==> n == NULL;
  }
}
