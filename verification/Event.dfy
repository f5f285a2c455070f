/** The statements of rt_event_send, rt_event_recv and rt_event_control on the fields of an event. */
module EventCode {
  import opened Rings
  import opened IpcLists
  import M = EventModel

  /** The two ways of computing what a woken thread receives and clears agree with an immediate receive. */
  lemma WokenLikeImmediate(events: M.Bits, want: M.Bits, option: M.Option)
    requires M.Satisfied(events, want, option)
    ensures var got := if option.all then want else M.Common(want, events);
            got == M.Common(events, want) && (if option.clear then M.Minus(events, got) else events) == M.Left(events, want, option)
  {
    hide M.Common, M.Minus;
    M.MinusCommon(events, want);
  }

  /** One round of what the loop is specified to do. */
  lemma ServeNext(e: M.Event, n: nat)
    requires M.Listed(e) && n < |e.waiters|
    ensures var t := e.waiters[n]; 0 <= t < |e.phases| && e.phases[t].Waiting?
    ensures var t := e.waiters[n];
            if M.Ready(e, t) then
              M.Listed(M.Serve(e, n)) && n <= |M.Serve(e, n).waiters| < |e.waiters| && M.ServeFrom(e, n) ==
                var r := M.ServeFrom(M.Serve(e, n), n);
                r.(notes := [M.Given(t, M.Common(e.events, e.phases[t].want), e.phases[t].option.clear)] + r.notes)
            else M.ServeFrom(e, n) == M.ServeFrom(e, n + 1)
  {
    hide M.Satisfied, M.Left, M.Common, M.Minus, M.Listed;
    M.ListedThread(e, n);
    M.ServeListed(e, n);
  }

  lemma ServeDone(e: M.Event)
    requires M.Listed(e)
    ensures M.ServeFrom(e, |e.waiters|) == M.Result(e, [])
  {}

  class Event {
    const order: Order
    const prio: seq<int>
    var events: M.Bits             // event->set
    var waiters: seq<int>          // parent.suspend_thread
    var phases: seq<M.Phase>

    ghost function View(): M.Event
      reads this
    {
      M.Event(events, order, prio, waiters, phases)
    }

    ghost predicate Valid()
      reads this
    {
      M.Good(View())
    }

    constructor (order: Order, prio: seq<int>)
      ensures Valid() && View() == M.Event(0, order, prio, [], seq(|prio|, i => M.Outside))
    {
      this.order, this.prio := order, prio;
      events, waiters := 0, [];
      phases := seq(|prio|, i => M.Outside);
    }

    /** One round of the loop: the n-th waiting thread is served if its condition holds. */
    method ServeAt(n: nat) returns (given: seq<M.Note>)
      requires M.Listed(View()) && n < |waiters| && 0 <= waiters[n] < |phases| && phases[waiters[n]].Waiting?
      modifies this
      ensures var e, t := old(View()), old(waiters[n]);
              if M.Ready(e, t) then
                View() == M.Serve(e, n) && given == [M.Given(t, M.Common(e.events, e.phases[t].want), e.phases[t].option.clear)]
              else View() == e && given == []
    {
      hide M.Satisfied, M.Left, M.Common, M.Minus, M.Listed;
      given := [];
      var t := waiters[n];
      var p := phases[t];
      if M.Satisfied(events, p.want, p.option) {
        WokenLikeImmediate(events, p.want, p.option);
        var got := if p.option.all then p.want else M.Common(p.want, events);
        waiters := waiters[..n] + waiters[n + 1..];
        phases := phases[t := M.Woken(got)];
        if p.option.clear { events := M.Minus(events, got); }
        given := [M.Given(t, got, p.option.clear)];
      }
    }

    /** The loop of rt_event_send over the waiting threads. */
    method Send(bits: M.Bits) returns (ok: bool, notes: seq<M.Note>)
      requires Valid()
      modifies this
      ensures Valid() && ok == (bits != 0)
      ensures M.Result(View(), notes) == M.Step(old(View()), M.Send(bits))
    {
      hide M.Satisfied, M.Left, M.Common, M.Minus, M.Listed, M.Serve, M.ServeFrom, M.Ready;
      M.StepGood(View(), M.Send(bits));
      ghost var all := M.SendStep(View(), bits);
      notes := [];
      if bits == 0 { return false, notes; }
      notes := [M.Sent(bits)];
      SentListed(View(), bits);
      events := M.Joined(events, bits);
      var n := 0;
      while n < |waiters|
        invariant n <= |waiters| && M.Listed(View())
        invariant M.ServeFrom(View(), n).state == all.state
        invariant notes + M.ServeFrom(View(), n).notes == all.notes
        decreases |waiters| - n
      {
        ServeNext(View(), n);
        var given := ServeAt(n);
        if given == [] { n := n + 1; } else { notes := notes + given; }
      }
      ServeDone(View());
      ok := true;
    }

    /** rt_event_recv up to its return or its suspension. */
    method Recv(t: int, want: M.Bits, option: M.Option, timeout: int) returns (notes: seq<M.Note>)
      requires Valid() && M.Enabled(View(), M.Recv(t, want, option, timeout))
      modifies this
      ensures Valid() && M.Result(View(), notes) == M.Step(old(View()), M.Recv(t, want, option, timeout))
    {
      hide M.Satisfied, M.Common, M.Minus, Suspended, Urgent;
      M.StepGood(View(), M.Recv(t, want, option, timeout));
      if want == 0 { return [M.Refused(t, M.Error)]; }
      if M.Satisfied(events, want, option) {
        var got := M.Common(events, want);
        if option.clear { events := M.Minus(events, want); }
        return [M.Given(t, got, option.clear)];
      }
      if timeout == 0 { return [M.Refused(t, M.Timeout)]; }
      phases := phases[t := M.Waiting(want, option, timeout)];
      waiters := Suspend(order, waiters, prio, t);
      notes := [M.Blocked(t)];
    }

    /** A woken thread returns what its sender left, or an error. */
    method Resume(t: int) returns (notes: seq<M.Note>)
      requires Valid() && M.Enabled(View(), M.Resume(t))
      modifies this
      ensures Valid() && M.Result(View(), notes) == M.Step(old(View()), M.Resume(t))
    {
      hide M.Good;
      M.StepGood(View(), M.Resume(t));
      notes := [if phases[t].Woken? then M.Returned(t, phases[t].got) else M.Refused(t, phases[t].code)];
      phases := phases[t := M.Outside];
    }

    /** rt_thread_timeout for a waiting thread. */
    method Expire(t: int) returns (notes: seq<M.Note>)
      requires Valid() && M.Enabled(View(), M.Expire(t))
      modifies this
      ensures Valid() && M.Result(View(), notes) == M.Step(old(View()), M.Expire(t))
    {
      hide M.Good, Unlisted;
      M.StepGood(View(), M.Expire(t));
      waiters := Unlisted(waiters, t);
      phases := phases[t := M.Failing(M.Timeout)];
      notes := [M.Expired(t)];
    }

    /** rt_event_control with RT_IPC_CMD_RESET: everybody is woken with an error and the set is emptied. */
    method Reset() returns (notes: seq<M.Note>)
      requires Valid()
      modifies this
      ensures Valid() && M.Result(View(), notes) == M.Step(old(View()), M.Reset)
    {
      hide Urgent, M.Satisfied;
      M.StepGood(View(), M.Reset);
      ghost var was := phases;
      while waiters != []
        invariant Distinct(waiters) && Threads(waiters, |phases|) && |phases| == |was|
        invariant events == old(events)
        invariant forall i :: 0 <= i < |was| && !was[i].Waiting? ==> i !in waiters && phases[i] == was[i]
        invariant forall i :: 0 <= i < |was| && was[i].Waiting? ==> phases[i] == if i in waiters then was[i] else M.Failing(M.Error)
        decreases |waiters|
      {
        TailDistinct(waiters);
        assert waiters[0] in waiters;
        phases := phases[waiters[0] := M.Failing(M.Error)];
        waiters := waiters[1..];
      }
      events := 0;
      notes := [M.Cleared];
    }

    /** Any possible run of sections behaves as the step machine. */
    method RunAll(acts: seq<M.Action>) returns (notes: seq<M.Note>)
      requires Valid() && M.Possible(View(), acts)
      modifies this
      ensures Valid() && M.Result(View(), notes) == M.Run(old(View()), acts)
      decreases |acts|
    {
      hide M.Good, M.Step;
      notes := [];
      if acts != [] {
        match acts[0] {
          case Send(bits) => var _, sent := Send(bits); notes := sent;
          case Recv(t, want, option, timeout) => notes := Recv(t, want, option, timeout);
          case Resume(t) => notes := Resume(t);
          case Expire(t) => notes := Expire(t);
          case Reset => notes := Reset();
        }
        var rest := RunAll(acts[1..]);
        notes := notes + rest;
      }
    }
  }

  lemma SentListed(e: M.Event, bits: M.Bits)
    requires M.Listed(e)
    ensures M.Listed(e.(events := M.Joined(e.events, bits)))
  {}
}
