/** The statements of rt_mb_recv, rt_mb_send_wait and rt_mb_control on the fields of a mailbox. */
module MailboxCode {
  import opened Integers
  import opened Rings
  import opened IpcLists
  import opened MailboxModel

  /** The i-th position behind out in a buffer of n slots. */
  function Behind(out: nat, i: nat, n: nat): (k: nat)
    requires out < n && i <= n
    ensures k < n
  {
    if out + i < n then out + i else out + i - n
  }

  lemma BehindIsMod(out: nat, i: nat, n: nat)
    requires out < n && i <= n
    ensures Behind(out, i, n) == (out + i) % n
  {
    if out + i >= n { ModOnce(out + i - n, n); } else { ModSmall(out + i, n); }
  }

  lemma ModSmall(x: nat, n: nat)
    requires x < n
    ensures x % n == x
  {}

  lemma ModOnce(x: nat, n: nat)
    requires x < n
    ensures (x + n) % n == x
  {
    assert (x + n) / n == 1;
  }

  /** The entries of a ring buffer from position out on. */
  ghost function Entries(pool: seq<Word>, out: nat, entry: nat): (q: seq<Word>)
    requires entry <= |pool| && (|pool| > 0 ==> out < |pool|)
    ensures |q| == entry
  {
    seq(entry, i requires 0 <= i < entry => pool[Behind(out, i, |pool|)])
  }

  /** Writing behind the last entry appends; the buffer must have room. */
  lemma EntriesPush(pool: seq<Word>, out: nat, entry: nat, v: Word)
    requires out < |pool| && entry < |pool|
    ensures Entries(pool[Behind(out, entry, |pool|) := v], out, entry + 1) == Entries(pool, out, entry) + [v]
  {}

  /** Advancing the out position drops the first entry. */
  lemma EntriesPop(pool: seq<Word>, out: nat, entry: nat)
    requires out < |pool| && 0 < entry <= |pool|
    ensures Entries(pool, out, entry)[0] == pool[out]
    ensures Entries(pool, Behind(out, 1, |pool|), entry - 1) == Entries(pool, out, entry)[1..]
  {
    var rest, all := Entries(pool, Behind(out, 1, |pool|), entry - 1), Entries(pool, out, entry);
    forall i | 0 <= i < entry - 1
      ensures rest[i] == all[i + 1]
    {
      assert Behind(Behind(out, 1, |pool|), i, |pool|) == Behind(out, i + 1, |pool|);
    }
  }

  class Mailbox {
    const size: uint16
    const order: Order
    const prio: seq<int>
    const msgPool: array<Word>
    var entry: nat
    var inOffset: nat
    var outOffset: nat
    var receivers: seq<int>        // parent.suspend_thread
    var senders: seq<int>          // suspend_sender_thread
    var phases: seq<Phase>

    ghost predicate Offsets()
      reads this, msgPool
    {
      && msgPool.Length == size && entry <= size
      && (size == 0 ==> inOffset == outOffset == 0)
      && (size > 0 ==> outOffset < size && inOffset == Behind(outOffset, entry, size))
    }

    /** What the fields stand for. */
    ghost function View(): Mail
      reads this, msgPool
      requires Offsets()
    {
      Mail(size, order, prio, Entries(msgPool[..], outOffset, entry), receivers, senders, phases)
    }

    ghost predicate Valid()
      reads this, msgPool
    {
      Offsets() && Good(View())
    }

    constructor (size: uint16, order: Order, prio: seq<int>)
      ensures Valid() && fresh(msgPool)
      ensures View() == Mail(size, order, prio, [], [], [], seq(|prio|, i => Idle))
    {
      this.size, this.order, this.prio := size, order, prio;
      msgPool := new Word[size];
      entry, inOffset, outOffset := 0, 0, 0;
      receivers, senders := [], [];
      phases := seq(|prio|, i => Idle);
    }

    /** Without waiting time the caller is refused, otherwise it is suspended. */
    method Wait(t: int, op: Op, timeout: int) returns (out: Outcome)
      requires Offsets() && 0 <= t < |phases| == |prio| && Threads(receivers, |prio|) && Threads(senders, |prio|)
      modifies `receivers, `senders, `phases
      ensures Result(View(), out) == Block(old(View()), t, op, timeout)
    {
      hide Entries, Suspended;
      if timeout == 0 {
        phases := phases[t := Idle];
        return Refused(t, op, if op.Recv? then Timeout else Full);
      }
      phases := phases[t := Waiting(op, timeout)];
      if op.Recv? {
        receivers := Suspend(order, receivers, prio, t);
      } else {
        senders := Suspend(order, senders, prio, t);
      }
      out := Blocked(t);
    }

    /** rt_ipc_list_resume on the first receiver or sender. */
    method ResumeReceiver()
      requires Offsets() && Heads(View())
      modifies `receivers, `phases
      ensures View() == WakeReceiver(old(View()))
    {
      if receivers != [] {
        phases := phases[receivers[0] := Again(phases[receivers[0]])];
        receivers := receivers[1..];
      }
    }

    method ResumeSender()
      requires Offsets() && Heads(View())
      modifies `senders, `phases
      ensures View() == WakeSender(old(View()))
    {
      if senders != [] {
        phases := phases[senders[0] := Again(phases[senders[0]])];
        senders := senders[1..];
      }
    }

    /** The section of rt_mb_recv from the test for an empty mailbox on. */
    method Recv(t: int, timeout: int) returns (out: Outcome)
      requires Valid() && 0 <= t < |phases| && Running(phases[t], Op.Recv)
      modifies this
      ensures Valid() && Result(View(), out) == Attempt(old(View()), t, Op.Recv, timeout)
    {
      hide Listed, NoneLost, Entries, Count, Block, WakeSender;
      AttemptGood(View(), t, Op.Recv, timeout);
      ListedThreads(View());
      if entry == 0 {
        out := Wait(t, Op.Recv, timeout);
        return;
      }
      LeftHeads(View(), t);
      EntriesPop(msgPool[..], outOffset, entry);
      var value := msgPool[outOffset];
      outOffset := outOffset + 1;
      if outOffset >= size { outOffset := 0; }
      entry := entry - 1;
      phases := phases[t := Idle];
      ResumeSender();
      out := Received(t, value);
    }

    /** The section of rt_mb_send_wait from the test for a full mailbox on. */
    method Send(t: int, value: Word, timeout: int) returns (out: Outcome)
      requires Valid() && 0 <= t < |phases| && Running(phases[t], Op.Send(value))
      modifies this, msgPool
      ensures Valid() && Result(View(), out) == Attempt(old(View()), t, Op.Send(value), timeout)
    {
      hide Listed, NoneLost, Entries, Count, Block, WakeReceiver;
      AttemptGood(View(), t, Op.Send(value), timeout);
      ListedThreads(View());
      if entry == size {
        out := Wait(t, Op.Send(value), timeout);
        return;
      }
      LeftHeads(View(), t);
      EntriesPush(msgPool[..], outOffset, entry, value);
      msgPool[inOffset] := value;
      inOffset := inOffset + 1;
      if inOffset >= size { inOffset := 0; }
      entry := entry + 1;
      phases := phases[t := Idle];
      ResumeReceiver();
      out := Sent(t, value);
    }

    /** A woken thread goes on: it returns its error, or tries again with the time that is left. */
    method Resume(t: int, elapsed: nat) returns (out: Outcome)
      requires Valid() && Enabled(View(), Action.Resume(t, elapsed))
      modifies this, msgPool
      ensures Valid() && Result(View(), out) == Step(old(View()), Action.Resume(t, elapsed))
    {
      hide Good, Attempt;
      var p := phases[t];
      if p.Failing? {
        FailedGood(View(), t);
        phases := phases[t := Idle];
        return Refused(t, p.op, p.code);
      }
      var timeout := Remaining(p.timeout, elapsed);
      match p.op
      case Recv => out := Recv(t, timeout);
      case Send(v) => out := Send(t, v, timeout);
    }

    /** rt_thread_timeout for a thread that waits here. */
    method Expire(t: int) returns (out: Outcome)
      requires Valid() && Enabled(View(), Action.Expire(t))
      modifies this
      ensures Valid() && Result(View(), out) == Step(old(View()), Action.Expire(t))
    {
      hide Good, Entries, Unlisted;
      ExpireGood(View(), t);
      phases := phases[t := Failing(phases[t].op, Timeout)];
      receivers, senders := Unlisted(receivers, t), Unlisted(senders, t);
      out := Expired(t);
    }

    /** rt_mb_control with RT_IPC_CMD_RESET. */
    method Reset() returns (out: Outcome)
      requires Valid()
      modifies this
      ensures Valid() && Result(View(), out) == Step(old(View()), Action.Reset)
    {
      hide NoneLost, Count;
      ghost var was := phases;
      ResetGood(View());
      phases := ResumeAll(receivers, phases);
      receivers := [];
      phases := ResumeAll(senders, phases);
      senders := [];
      assert phases == FailAll(was);
      entry, inOffset, outOffset := 0, 0, 0;
      out := Cleared;
    }

    /** Any possible run of sections behaves as the step machine. */
    method RunAll(acts: seq<Action>) returns (log: seq<Outcome>)
      requires Valid() && Possible(View(), acts)
      modifies this, msgPool
      ensures Valid() && History(View(), log) == Run(old(View()), acts)
      decreases |acts|
    {
      hide Good, Attempt, Offsets, Entries;
      log := [];
      if acts != [] {
        var out;
        match acts[0] {
          case Call(t, op, timeout) =>
            match op {
              case Recv => out := Recv(t, timeout);
              case Send(v) => out := Send(t, v, timeout);
            }
          case Resume(t, elapsed) => out := Resume(t, elapsed);
          case Expire(t) => out := Expire(t);
          case Reset => out := Reset();
        }
        var rest := RunAll(acts[1..]);
        log := [out] + rest;
      }
    }
  }

  /** rt_ipc_list_resume_all: every listed thread is woken with an error. */
  method ResumeAll(list: seq<int>, phases: seq<Phase>) returns (r: seq<Phase>)
    requires Distinct(list) && Threads(list, |phases|)
    ensures |r| == |phases| && forall i :: 0 <= i < |r| ==> r[i] == if i in list then Fail(phases[i], Error) else phases[i]
  {
    var rest := list;
    r := phases;
    while rest != []
      invariant Distinct(rest) && Threads(rest, |phases|) && |r| == |phases|
      invariant forall i :: 0 <= i < |r| ==> (i in rest ==> i in list)
      invariant forall i :: 0 <= i < |r| ==> r[i] == if i in list && i !in rest then Fail(phases[i], Error) else phases[i]
      decreases |rest|
    {
      TailDistinct(rest);
      r := r[rest[0] := Fail(r[rest[0]], Error)];
      rest := rest[1..];
    }
  }

  lemma ListedThreads(s: Mail)
    requires Good(s)
    ensures |s.prio| == |s.phases| && Threads(s.receivers, |s.prio|) && Threads(s.senders, |s.prio|)
  {}

  /** The first waiting threads are other threads than the one that runs. */
  lemma LeftHeads(s: Mail, t: int)
    requires Good(s) && 0 <= t < |s.phases| && !s.phases[t].Waiting?
    ensures Heads(s) && Heads(Set(s, t, Idle))
  {
    if s.receivers != [] { HeadWaits(s.phases, s.order, s.prio, s.receivers, true); }
    if s.senders != [] { HeadWaits(s.phases, s.order, s.prio, s.senders, false); }
  }
}
