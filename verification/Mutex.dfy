/** The statements of rt_mutex_take and rt_mutex_release on the fields of a mutex and of its threads. */
module MutexCode {
  import opened Rings
  import opened IpcLists
  import M = MutexModel

  class Mutex {
    const order: Order
    var prio: seq<int>              // current_priority of every thread
    var phases: seq<M.Phase>
    var value: int
    var owner: int
    var original: int               // original_priority
    var hold: int
    var waiters: seq<int>           // parent.suspend_thread

    /** What the fields stand for. */
    ghost function View(): M.Mutex
      reads this
    {
      M.Mutex(order, prio, phases, value, owner, original, hold, waiters)
    }

    ghost predicate Valid()
      reads this
    {
      M.Good(View())
    }

    constructor (order: Order, base: seq<int>)
      ensures View() == M.Init(order, base) && Valid() && M.Lent(View(), base)
    {
      this.order, prio := order, base;
      phases := seq(|base|, i => M.Outside);
      value, owner, original, hold, waiters := 1, M.NULL, M.NOBODY, 0, [];
      new;
      assert M.Good(M.Init(order, base));
    }

    /** rt_mutex_take up to its return or its suspension. */
    method Take(t: int, timeout: int) returns (out: M.Outcome)
      requires Valid() && M.Enabled(View(), M.Take(t, timeout))
      modifies this
      ensures Valid() && M.Result(View(), out) == M.Step(old(View()), M.Take(t, timeout))
    {
      hide Suspended, Urgent, M.Inherits;
      M.StepGood(View(), M.Take(t, timeout));
      if owner == t {
        hold := hold + 1;
      } else if value > 0 {
        value := value - 1;
        owner := t;
        original := prio[t];
        hold := hold + 1;
      } else {
        if timeout == 0 { return M.TimedOut(t); }
        if prio[t] < prio[owner] { prio := prio[owner := prio[t]]; }
        waiters := Suspend(order, waiters, prio, t);
        phases := phases[t := M.Waiting(timeout)];
        return M.Blocked(t);
      }
      out := M.Taken(t);
    }

    /** rt_mutex_release: the mutex is handed over to the first waiter. */
    method Release(t: int) returns (out: M.Outcome)
      requires Valid() && M.Enabled(View(), M.Release(t))
      modifies this
      ensures Valid() && M.Result(View(), out) == M.Step(old(View()), M.Release(t))
    {
      hide Urgent, M.Inherits;
      M.StepGood(View(), M.Release(t));
      if t != owner { return M.NotOwner(t); }
      hold := hold - 1;
      if hold == 0 {
        assert original == prio[owner] ==> prio[owner := original] == prio;
        if original != prio[owner] { prio := prio[owner := original]; }
        if waiters != [] {
          var u := waiters[0];
          assert u in waiters;
          owner := u;
          original := prio[u];
          hold := hold + 1;
          waiters := waiters[1..];
          phases := phases[u := M.Granted];
        } else {
          value := value + 1;
          owner := M.NULL;
          original := M.NOBODY;
        }
      }
      out := M.Released(t);
    }

    /** The woken thread returns from rt_mutex_take with the error its waker left. */
    method Resume(t: int) returns (out: M.Outcome)
      requires Valid() && M.Enabled(View(), M.Resume(t))
      modifies this
      ensures Valid() && M.Result(View(), out) == M.Step(old(View()), M.Resume(t))
    {
      hide Urgent, M.Inherits;
      M.StepGood(View(), M.Resume(t));
      out := if phases[t].Granted? then M.Taken(t) else M.TimedOut(t);
      phases := phases[t := M.Outside];
    }

    /** rt_thread_timeout for a waiting thread; the owner keeps the priority that was lent to it. */
    method Expire(t: int) returns (out: M.Outcome)
      requires Valid() && M.Enabled(View(), M.Expire(t))
      modifies this
      ensures Valid() && M.Result(View(), out) == M.Step(old(View()), M.Expire(t))
    {
      hide Urgent, Unlisted, M.Inherits;
      M.StepGood(View(), M.Expire(t));
      phases := phases[t := M.Late];
      waiters := Unlisted(waiters, t);
      out := M.Expired(t);
    }

    /** Any possible run of sections behaves as the step machine. */
    method RunAll(acts: seq<M.Action>) returns (log: seq<M.Outcome>)
      requires Valid() && M.Possible(View(), acts)
      modifies this
      ensures Valid() && M.History(View(), log) == M.Run(old(View()), acts)
      decreases |acts|
    {
      hide M.Good, M.Step;
      log := [];
      if acts != [] {
        var out;
        match acts[0] {
          case Take(t, timeout) => out := Take(t, timeout);
          case Release(t) => out := Release(t);
          case Resume(t) => out := Resume(t);
          case Expire(t) => out := Expire(t);
        }
        var rest := RunAll(acts[1..]);
        log := [out] + rest;
      }
    }
  }
}
