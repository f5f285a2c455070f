/** What receivers and senders of an event set get, told bit by bit. */
module EventBits {
  import opened Rings
  import opened IpcLists
  import opened EventModel
  import opened Bitmaps
  import opened WordBits

  ghost predicate AllIn(want: Bits, events: Bits) { forall i: Bits :: i < 32 && Has(want, i) ==> Has(events, i) }

  ghost predicate SomeIn(want: Bits, events: Bits) { exists i: Bits :: i < 32 && Has(want, i) && Has(events, i) }

  /** The condition of a receiver: every bit, or for RT_EVENT_FLAG_OR at least one. */
  ghost predicate Met(events: Bits, want: Bits, option: EventModel.Option) {
    if option.all then AllIn(want, events) else option.any && SomeIn(want, events)
  }

  /** got holds exactly the bits in both sets. */
  ghost predicate InBoth(got: Bits, events: Bits, want: Bits) {
    forall i: Bits :: i < 32 ==> (Has(got, i) <==> Has(events, i) && Has(want, i))
  }

  /** With RT_EVENT_FLAG_CLEAR exactly the bits of want leave the set, otherwise none do. */
  ghost predicate Rest(events': Bits, events: Bits, want: Bits, clear: bool) {
    forall i: Bits :: i < 32 ==> (Has(events', i) <==> Has(events, i) && !(clear && Has(want, i)))
  }

  ghost predicate InEither(events': Bits, events: Bits, bits: Bits) {
    forall i: Bits :: i < 32 ==> (Has(events', i) <==> Has(events, i) || Has(bits, i))
  }

  // ---- words as sets of bits ----

  lemma Bitwise(x: Bits, y: Bits, i: Bits)
    requires i < 32
    ensures Has(Common(x, y), i) <==> Has(x, i) && Has(y, i)
    ensures Has(Joined(x, y), i) <==> Has(x, i) || Has(y, i)
    ensures Has(Minus(x, y), i) <==> Has(x, i) && !Has(y, i)
  {
    hide And, Or, Not, Xor, Has;
    BitByBit(x, y, i);
    BitByBit(x, Not(y), i);
    BitByBit(y, y, i);
  }

  lemma SameWord(x: Bits, y: Bits)
    ensures Xor(x, y) == 0 ==> x == y
  {}

  /** Words that differ do so in some bit. */
  lemma Differ(x: Bits, y: Bits) returns (i: Bits)
    requires x != y
    ensures i < 32 && Has(x, i) != Has(y, i)
  {
    hide Xor, Has, Ffs;
    SameWord(x, y);
    FfsIsLeast(Xor(x, y), 0);
    i := Ffs(Xor(x, y)) - 1;
    BitByBit(x, y, i);
  }

  lemma NotEmpty(x: Bits) returns (i: Bits)
    requires x != 0
    ensures i < 32 && Has(x, i)
  {
    hide Has, Ffs;
    FfsIsLeast(x, 0);
    i := Ffs(x) - 1;
  }

  /** The test of the code on whole words is the condition on bits. */
  lemma SatisfiedIsMet(events: Bits, want: Bits, option: EventModel.Option)
    ensures Satisfied(events, want, option) <==> Met(events, want, option)
  {
    hide Common, Has;
    forall i: Bits | i < 32
      ensures Has(Common(events, want), i) <==> Has(events, i) && Has(want, i)
    {
      Bitwise(events, want, i);
    }
    if option.all {
      if Common(events, want) != want { var i := Differ(Common(events, want), want); }
    } else {
      if Common(events, want) != 0 { var i := NotEmpty(Common(events, want)); }
      forall i: Bits | i < 32
        ensures !Has(0, i)
      {
        EmptyWord(i);
      }
    }
  }

  lemma CommonInBoth(events: Bits, want: Bits)
    ensures InBoth(Common(events, want), events, want)
  {
    hide Common, Has;
    forall i: Bits | i < 32
      ensures Has(Common(events, want), i) <==> Has(events, i) && Has(want, i)
    {
      Bitwise(events, want, i);
    }
  }

  lemma LeftIsRest(events: Bits, want: Bits, option: EventModel.Option)
    ensures Rest(Left(events, want, option), events, want, option.clear)
  {
    hide Minus, Has;
    forall i: Bits | i < 32
      ensures Has(Minus(events, want), i) <==> Has(events, i) && !Has(want, i)
    {
      Bitwise(events, want, i);
    }
  }

  lemma JoinedIsEither(events: Bits, bits: Bits)
    ensures InEither(Joined(events, bits), events, bits)
  {
    hide Joined, Has;
    forall i: Bits | i < 32
      ensures Has(Joined(events, bits), i) <==> Has(events, i) || Has(bits, i)
    {
      Bitwise(events, bits, i);
    }
  }

  // ---- what every call answers ----

  /** rt_event_recv: an empty set is an error; the condition decides whether the receiver gets the bits, and otherwise it
      is refused or waits. */
  lemma RecvAnswer(e: Event, t: int, want: Bits, option: EventModel.Option, timeout: int)
    requires Good(e) && Enabled(e, Recv(t, want, option, timeout))
    ensures var r := Step(e, Recv(t, want, option, timeout)); var n := r.state;
      if want == 0 then r == Result(e, [Refused(t, Error)])
      else if Met(e.events, want, option) then
        && |r.notes| == 1 && r.notes[0].Given? && r.notes[0] == Given(t, r.notes[0].got, option.clear)
        && InBoth(r.notes[0].got, e.events, want)
        && Rest(n.events, e.events, want, option.clear) && n == e.(events := n.events)
      else if timeout == 0 then r == Result(e, [Refused(t, Timeout)])
      else
        && r.notes == [Blocked(t)] && Joins(e.order, e.waiters, n.waiters, e.prio, t)
        && n == e.(waiters := n.waiters, phases := e.phases[t := Waiting(want, option, timeout)])
  {
    hide Common, Left, Satisfied, Met, InBoth, Rest, Urgent, Suspended, Joins;
    SatisfiedIsMet(e.events, want, option);
    CommonInBoth(e.events, want);
    LeftIsRest(e.events, want, option);
    SuspendedJoins(e.order, e.waiters, e.prio, t);
  }

  /** Over every run, a thread that is still waiting lacks some bit that it wants, or for RT_EVENT_FLAG_OR all of them. */
  lemma WaitersLackBits(e: Event, acts: seq<Action>, t: int)
    requires Good(e) && Possible(e, acts)
    requires 0 <= t < |Run(e, acts).state.phases| && Run(e, acts).state.phases[t].Waiting?
    ensures var n := Run(e, acts).state; !Met(n.events, n.phases[t].want, n.phases[t].option)
  {
    hide Satisfied, Met, Urgent;
    RunGood(e, acts);
    var n := Run(e, acts).state;
    SatisfiedIsMet(n.events, n.phases[t].want, n.phases[t].option);
    assert t in n.waiters;
  }

  // ---- what a send does for those who wait ----

  ghost predicate MetAt(e: Event, n: nat)
    requires Listed(e) && n < |e.waiters|
  {
    ListedThread(e, n);
    Met(e.events, e.phases[e.waiters[n]].want, e.phases[e.waiters[n]].option)
  }

  /** The first waiting thread whose condition is met. */
  ghost predicate FirstMet(e: Event, n: nat)
    requires Listed(e)
  {
    n < |e.waiters| && MetAt(e, n) && forall i :: 0 <= i < n ==> !MetAt(e, i)
  }

  /** The n-th waiting thread gets what an immediate receive would give it, and goes out of the list. */
  ghost predicate Receives(e: Event, n: nat, note: Note, m: Event)
    requires Listed(e) && n < |e.waiters|
  {
    ListedThread(e, n);
    var t := e.waiters[n];
    var p := e.phases[t];
    && note.Given? && note == Given(t, note.got, p.option.clear)
    && InBoth(note.got, e.events, p.want) && Rest(m.events, e.events, p.want, p.option.clear)
    && m == e.(events := m.events, waiters := e.waiters[..n] + e.waiters[n + 1..], phases := e.phases[t := Woken(note.got)])
  }

  /** Time and again the first waiting thread whose condition is met receives, until there is none. */
  ghost predicate Serves(e: Event, notes: seq<Note>, e': Event)
    requires Listed(e)
    decreases |notes|
  {
    if notes == [] then e' == e && forall n :: 0 <= n < |e.waiters| ==> !MetAt(e, n)
    else exists n: nat, m: Event :: Listed(m) && FirstMet(e, n) && Receives(e, n, notes[0], m) && Serves(m, notes[1..], e')
  }

  lemma ServeReceives(e: Event, n: nat)
    requires Listed(e) && n < |e.waiters|
    ensures 0 <= e.waiters[n] < |e.phases| && e.phases[e.waiters[n]].Waiting?
    ensures var p := e.phases[e.waiters[n]];
      Receives(e, n, Given(e.waiters[n], Common(e.events, p.want), p.option.clear), Serve(e, n))
  {
    hide Common, Left, InBoth, Rest, Listed;
    ListedThread(e, n);
    var p := e.phases[e.waiters[n]];
    CommonInBoth(e.events, p.want);
    LeftIsRest(e.events, p.want, p.option);
  }

  lemma ReadyIsMet(e: Event, n: nat)
    requires Listed(e) && n < |e.waiters|
    ensures Ready(e, e.waiters[n]) <==> MetAt(e, n)
  {
    hide Satisfied, Met;
    ListedThread(e, n);
    var p := e.phases[e.waiters[n]];
    SatisfiedIsMet(e.events, p.want, p.option);
  }

  lemma PassedUnmet(e: Event, n: nat)
    requires Listed(e) && Passed(e, n)
    ensures forall i :: 0 <= i < n ==> !MetAt(e, i)
  {
    hide Ready, MetAt, Listed;
    forall i | 0 <= i < n
      ensures !MetAt(e, i)
    {
      ReadyIsMet(e, i);
    }
  }

  /** The single pass of rt_event_send over the list, which never looks back, serves as if it always went back to the
      first one. */
  lemma {:induction false} ServeFromServes(e: Event, n: nat)
    requires Listed(e) && Passed(e, n)
    ensures Serves(e, ServeFrom(e, n).notes, ServeFrom(e, n).state)
    decreases |e.waiters| - n
  {
    hide Receives, MetAt, Ready, Common, Listed, Serve, Passed;
    PassedUnmet(e, n);
    PassedBound(e, n);
    if n < |e.waiters| {
      ListedThread(e, n);
      ReadyIsMet(e, n);
      if Ready(e, e.waiters[n]) {
        ServeListed(e, n);
        ServePassed(e, n);
        ServeShorter(e, n);
        ServeFromServes(Serve(e, n), n);
        ServeReceives(e, n);
        var r := ServeFrom(Serve(e, n), n);
        var p := e.phases[e.waiters[n]];
        var note := Given(e.waiters[n], Common(e.events, p.want), p.option.clear);
        assert ([note] + r.notes)[1..] == r.notes;
        assert FirstMet(e, n);
        assert ServeFrom(e, n) == r.(notes := [note] + r.notes);
      } else {
        PassedNext(e, n);
        ServeFromServes(e, n + 1);
      }
    }
  }

  lemma PassedBound(e: Event, n: nat)
    requires Passed(e, n)
    ensures n <= |e.waiters|
  {}

  lemma PassedNext(e: Event, n: nat)
    requires Passed(e, n) && n < |e.waiters| && !Ready(e, e.waiters[n])
    ensures Passed(e, n + 1)
  {}

  lemma ServeShorter(e: Event, n: nat)
    requires Listed(e) && n < |e.waiters|
    ensures |Serve(e, n).waiters| == |e.waiters| - 1
  {}

  /** rt_event_send: the bits come in, and then time and again the first waiting thread whose condition is met receives. */
  lemma SendAnswer(e: Event, bits: Bits)
    requires Good(e)
    ensures var r := Step(e, Send(bits));
      if bits == 0 then r == Result(e, [])
      else
        && r.notes != [] && r.notes[0] == Sent(bits)
        && exists s: Event :: InEither(s.events, e.events, bits) && s == e.(events := s.events) && Listed(s) && Serves(s, r.notes[1..], r.state)
  {
    hide Joined, InEither, Serves, ServeFrom, Urgent;
    if bits != 0 {
      JoinedIsEither(e.events, bits);
      var s := e.(events := Joined(e.events, bits));
      ServeFromServes(s, 0);
      assert ([Sent(bits)] + ServeFrom(s, 0).notes)[1..] == ServeFrom(s, 0).notes;
    }
  }

  /** A woken thread returns what was left for it, a waiting time that runs out takes a thread out of the list, and a reset
      wakes everybody with an error and empties the set. */
  lemma WokenAnswer(e: Event, t: int)
    requires Good(e)
    ensures Enabled(e, Resume(t)) ==>
      Step(e, Resume(t)) == Result(e.(phases := e.phases[t := Outside]),
        [match e.phases[t] case Woken(got) => Returned(t, got) case Failing(code) => Refused(t, code) case _ => Cleared])
    ensures Enabled(e, Expire(t)) ==> var r := Step(e, Expire(t));
      && r.notes == [Expired(t)] && Leaves(e.waiters, r.state.waiters, t)
      && r.state == e.(waiters := r.state.waiters, phases := e.phases[t := Failing(Timeout)])
    ensures var n := Step(e, Reset).state;
      && n.events == 0 && n.waiters == [] && |n.phases| == |e.phases|
      && forall u :: 0 <= u < |e.phases| ==> n.phases[u] == if u in e.waiters then Failing(Error) else e.phases[u]
  {
    hide Urgent, Unlisted, Satisfied;
    if t in e.waiters { UnlistedLeaves(e.waiters, t); }
  }
}
