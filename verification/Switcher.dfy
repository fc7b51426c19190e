// switcher.c, user-mode: draws the next state of each chain when its time comes.
module Switchers {
  import opened Orders
  import opened Configs
  import opened Heaps
  import opened PQueues
  import opened Rows
  import opened Times

  // ---------------------------------------------------------------- the events

  datatype Event = Event(tv: Timeval, chain: nat)

  function CompareEvents(a: Event, b: Event): int {
    CompareTimevals(a.tv, b.tv)
  }

  // The readings of the clock and the random source, in the order of the calls.
  datatype Inputs = Inputs(clock: nat -> Timeval, draw: nat -> real, length: nat -> nat)
  {
    ghost predicate Valid() {
      && (forall i :: 0 <= clock(i).usec < 1000000)
      && (forall i, j | i <= j :: Micros(clock(i)) <= Micros(clock(j)))
      && (forall i :: draw(i) >= 0.0)
    }
  }

  // One event per chain, for chain c at time due[c].
  function EventsOf(due: seq<Timeval>): seq<Event> {
    seq(|due|, c requires 0 <= c < |due| => Event(due[c], c))
  }

  lemma {:induction false} Rescheduled(due: seq<Timeval>, c: nat, tv: Timeval)
    requires c < |due|
    ensures multiset(EventsOf(due[c := tv]))
              == multiset(EventsOf(due)) - multiset{Event(due[c], c)} + multiset{Event(tv, c)}
  {
    assert EventsOf(due[c := tv]) == EventsOf(due)[c := Event(tv, c)];
  }

  // How many chains are due before a time.
  function DueBefore(due: seq<Timeval>, now: Timeval): nat {
    if due == [] then 0 else (if Before(due[0], now) then 1 else 0) + DueBefore(due[1..], now)
  }

  lemma {:induction false} FewerDue(due: seq<Timeval>, c: nat, tv: Timeval, now: Timeval)
    requires c < |due| && Before(due[c], now) && !Before(tv, now)
    ensures DueBefore(due[c := tv], now) < DueBefore(due, now)
    decreases |due|
  {
    if c > 0 {
      assert due[c := tv][1..] == due[1..][c - 1 := tv];
      FewerDue(due[1..], c - 1, tv, now);
    } else {
      assert due[c := tv][1..] == due[1..];
    }
  }

  ghost predicate AllKept(due: seq<Timeval>) {
    forall c | 0 <= c < |due| :: Kept(due[c])
  }

  // The chain taken is due and no other is earlier.
  // The event of chain c is due and no other is earlier.
  ghost predicate FirstToRun(due: seq<Timeval>, c: nat, now: Timeval) {
    c < |due| && Due(due[c], now) && forall i | 0 <= i < |due| :: Micros(due[c]) <= Micros(due[i])
  }

  lemma {:induction false} LeastDue(due: seq<Timeval>, c: nat, now: Timeval)
    requires AllKept(due) && Reading(now) && c < |due| && Before(due[c], now)
    requires forall i | 0 <= i < |due| :: !Before(due[i], due[c])
    ensures FirstToRun(due, c, now)
  {
    BeforeIsEarlier(due[c], now);
    forall i | 0 <= i < |due| ensures Micros(due[c]) <= Micros(due[i]) {
      BeforeIsEarlier(due[i], due[c]);
    }
  }

  lemma {:induction false} NoneEarlier(due: seq<Timeval>, now: Timeval)
    requires AllKept(due) && Reading(now) && forall c | 0 <= c < |due| :: !Before(due[c], now)
    ensures forall c | 0 <= c < |due| :: Micros(now) <= Micros(due[c])
  {
    forall c | 0 <= c < |due| ensures Micros(now) <= Micros(due[c]) {
      BeforeIsEarlier(due[c], now);
    }
  }

  lemma {:induction false} CompareIsPreorder()
    ensures TotalPreorder(CompareEvents)
  {
  }

  // The first event tells whether any is due.
  lemma {:induction false} FirstTells(due: seq<Timeval>, first: Event, now: Timeval)
    requires IsFirst(CompareEvents, false, multiset(EventsOf(due)), first)
    ensures first.chain < |due| && first.tv == due[first.chain]
    ensures forall c | 0 <= c < |due| :: !Before(due[c], first.tv)
    ensures !Before(first.tv, now) ==> forall c | 0 <= c < |due| :: !Before(due[c], now)
  {
    assert first in EventsOf(due);
    forall c | 0 <= c < |due| ensures !Before(due[c], first.tv) && (!Before(first.tv, now) ==> !Before(due[c], now)) {
      assert EventsOf(due)[c] in multiset(EventsOf(due));
      assert !Worse(CompareEvents, false, first, EventsOf(due)[c]);
    }
  }

  // And if one is, the first is of the earliest such chain.
  lemma {:induction false} FirstRuns(due: seq<Timeval>, first: Event, now: Timeval)
    requires IsFirst(CompareEvents, false, multiset(EventsOf(due)), first)
    requires AllKept(due) && Reading(now) && exists i :: 0 <= i < |due| && Before(due[i], now)
    ensures FirstToRun(due, first.chain, now) && Before(first.tv, now) && first.tv == due[first.chain]
  {
    FirstTells(due, first, now);
    LeastDue(due, first.chain, now);
  }

  // The states of the chains, and when each is to be switched.
  datatype Snap = Snap(current: seq<nat>, due: seq<Timeval>)

  // Chain c, due at now and no later than any other, goes from its state in a to
  // that in current, by its draw.
  ghost predicate Chosen(data: Data, a: Snap, current: seq<nat>, c: nat, draw: real, now: Timeval) {
    match a
    case Snap(was, due) =>
      && InStates(was, data) && |due| == |data| && FirstToRun(due, c, now)
      && |current| == |was| && current == was[c := current[c]]
      && Drawn(data[c].states[was[c]].moveTos, was[c], draw, current[c])
  }

  // Chain c is switched, and scheduled again for tv.
  ghost predicate StepOk(data: Data, a: Snap, b: Snap, c: nat, draw: real, tv: Timeval, now: Timeval) {
    Chosen(data, a, b.current, c, draw, now) && b.due == a.due[c := tv]
  }

  // The time length milliseconds after start.
  ghost predicate Scheduled(tv: Timeval, start: Timeval, length: nat) {
    Kept(tv) && Micros(tv) == Micros(start) + 1000 * length
  }

  // The k-th event of a poll, with the k-th readings of the inputs.
  ghost predicate RoundOk(data: Data, a: Snap, b: Snap, inputs: Inputs, k: nat, now: Timeval) {
    exists c, tv ::
      StepOk(data, a, b, c, inputs.draw(k), tv, now) && Scheduled(tv, inputs.clock(k), inputs.length(k))
  }

  // snaps leads from the first to the last state, one event at a time.
  ghost predicate Trail(data: Data, first: Snap, last: Snap, snaps: seq<Snap>, inputs: Inputs, now: Timeval) {
    match last
    case Snap(_, _) =>
      && |snaps| > 0 && snaps[0] == first && snaps[|snaps| - 1] == last
      && forall k | 0 < k < |snaps| :: RoundOk(data, snaps[k - 1], snaps[k], inputs, k, now)
  }

  lemma {:induction false} TrailGrows(data: Data, first: Snap, last: Snap, snaps: seq<Snap>, inputs: Inputs,
                                      now: Timeval, next: Snap, c: nat, tv: Timeval)
    requires Trail(data, first, last, snaps, inputs, now)
    requires StepOk(data, last, next, c, inputs.draw(|snaps|), tv, now)
    requires Scheduled(tv, inputs.clock(|snaps|), inputs.length(|snaps|))
    ensures Trail(data, first, next, snaps + [next], inputs, now)
  {
  }

  // Every chain has a state to be in, and rows to draw from.
  predicate Runnable(data: Data) {
    forall c | 0 <= c < |data| :: RunnableChain(data[c])
  }

  predicate RunnableChain(chain: Chain) {
    && |chain.states| > 0 && Square(chain.states)
    && forall i | 0 <= i < |chain.states| :: NonNegative(chain.states[i].moveTos)
  }

  ghost predicate InStates(current: seq<nat>, data: Data) {
    |current| == |data| && forall c | 0 <= c < |data| :: current[c] < |data[c].states|
  }

  // next is a chain due before now, if there is any.
  ghost predicate SomeDue(next: Option<nat>, due: seq<Timeval>, now: Timeval) {
    match next
    case Some(c) => c < |due| && Before(due[c], now)
    case None => forall c | 0 <= c < |due| :: !Before(due[c], now)
  }

  lemma {:induction false} AllFirst(data: Data)
    requires Runnable(data)
    ensures InStates(seq(|data|, _ => 0), data)
  {
  }

  class Switcher {
    const pq: PQueue<Event>
    var data: Data
    var current: seq<nat> // current_state of each chain
    ghost var due: seq<Timeval>

    // The queue is in order and holds one event per chain.
    ghost predicate Holds(due: seq<Timeval>)
      reads pq, pq.elements
    {
      match pq.cmp
      case cmp => pq.Valid() && cmp == CompareEvents && !pq.isAscendingHeap && pq.Contents() == multiset(EventsOf(due))
    }

    ghost predicate Valid()
      reads this, pq, pq.elements
    {
      match due
      case times =>
        Holds(times) && |times| == |data| && AllKept(times) && Runnable(data) && InStates(current, data)
    }

    constructor ()
      ensures Valid() && data == [] && fresh(pq) && fresh(pq.elements)
    {
      CompareIsPreorder();
      pq := new PQueue<Event>(1024, false, CompareEvents);
      data, current, due := [], [], [];
    }

    // ip_noise_arbitrator_switcher_reinit: forgets all events and schedules every
    // chain of the new data at once, in its first state.
    method Reinit(newData: Data, tv: Timeval)
      requires Valid() && Runnable(newData) && Reading(tv)
      modifies this, pq, pq.elements
      ensures Valid() && data == newData && (pq.elements == old(pq.elements) || fresh(pq.elements))
      ensures due == seq(|data|, _ => tv) && current == seq(|data|, _ => 0)
    {
      AllFirst(newData);
      Empty(due);
      data, current := newData, seq(|newData|, _ => 0);
      ghost var times := ScheduleAll(|newData|, tv);
      Install(times);
    }

    method ScheduleAll(n: nat, tv: Timeval) returns (ghost times: seq<Timeval>)
      requires Holds([])
      modifies pq, pq.elements
      ensures Holds(times) && |times| == n && forall i | 0 <= i < n :: times[i] == tv
      ensures pq.elements == old(pq.elements) || fresh(pq.elements)
    {
      times := [];
      for c := 0 to n
        invariant Holds(times) && |times| == c && forall i | 0 <= i < c :: times[i] == tv
        invariant pq.elements == old(pq.elements) || fresh(pq.elements)
      {
        PushEvent(times, tv, c);
        times := times + [tv];
      }
    }

    method Empty(ghost times: seq<Timeval>)
      requires Holds(times)
      modifies pq`currentSize, pq.elements
      ensures Holds([])
    {
      var out := pq.Drain();
      assert multiset(EventsOf([])) == multiset{};
    }

    method PushEvent(ghost times: seq<Timeval>, tv: Timeval, c: nat)
      requires Holds(times) && c == |times|
      modifies pq, pq.elements
      ensures Holds(times + [tv]) && (pq.elements == old(pq.elements) || fresh(pq.elements))
    {
      assert EventsOf(times + [tv]) == EventsOf(times) + [Event(tv, c)];
      pq.Push(Event(tv, c));
    }

    // The chain of the first event if that is due.
    method FirstDue(now: Timeval, ghost times: seq<Timeval>) returns (c: Option<nat>)
      requires Holds(times)
      ensures SomeDue(c, times, now)
    {
      var first := pq.Peek();
      match first
      case None =>
        assert |multiset(EventsOf(times))| == |times|;
        c := None;
      case Some(e) =>
        FirstTells(times, e, now);
        c := if CompareTimevals(e.tv, now) < 0 then Some(e.chain) else None;
    }

    // The queue holds the events of all chains but c.
    ghost predicate HoldsBut(times: seq<Timeval>, c: nat)
      requires c < |times|
      reads pq, pq.elements
    {
      match pq.cmp
      case cmp =>
        && pq.Valid() && cmp == CompareEvents && !pq.isAscendingHeap
        && pq.Contents() == multiset(EventsOf(times)) - multiset{Event(times[c], c)}
    }

    method PopFirst(now: Timeval, ghost times: seq<Timeval>) returns (c: nat)
      requires Holds(times) && AllKept(times) && Reading(now)
      requires exists i :: 0 <= i < |times| && Before(times[i], now)
      modifies pq`currentSize, pq.elements
      ensures FirstToRun(times, c, now) && Before(times[c], now) && HoldsBut(times, c)
    {
      assert times != [] ==> EventsOf(times)[0] in multiset(EventsOf(times));
      var r := pq.Pop();
      FirstRuns(times, r.value, now);
      c := r.value.chain;
    }

    method PushAgain(ghost times: seq<Timeval>, c: nat, tv: Timeval)
      requires c < |times| && HoldsBut(times, c)
      modifies pq, pq.elements
      ensures Holds(times[c := tv]) && (pq.elements == old(pq.elements) || fresh(pq.elements))
    {
      Rescheduled(times, c, tv);
      pq.Push(Event(tv, c));
    }

    // switch_chain on chain c.
    method Switch(c: nat, draw: real)
      requires c < |data| && Runnable(data) && InStates(current, data) && draw >= 0.0
      modifies this`current
      ensures InStates(current, data) && current == old(current)[c := current[c]]
      ensures Drawn(data[c].states[old(current)[c]].moveTos, old(current)[c], draw, current[c])
    {
      assert RunnableChain(data[c]);
      var next := SwitchChain(data[c].states[current[c]].moveTos, current[c], draw);
      current := current[c := next];
    }

    // get_new_switch_event: length milliseconds from the time read for it.
    method NewSwitchTime(inputs: Inputs, k: nat, now: Timeval) returns (tv: Timeval)
      requires inputs.Valid() && !Before(inputs.clock(k), now)
      ensures Scheduled(tv, inputs.clock(k), inputs.length(k)) && !Before(tv, now)
    {
      tv := After(inputs.clock(k), inputs.length(k));
      NotBeforeTrans(tv, inputs.clock(k), now);
    }

    // The queue and the states between operations, for the given times.
    ghost method Install(times: seq<Timeval>)
      requires Holds(times) && |times| == |data| && AllKept(times) && Runnable(data) && InStates(current, data)
      modifies this`due
      ensures Valid() && due == times
    {
      due := times;
    }

    // Takes out the first event and switches its chain.
    method SwitchOne(draw: real, now: Timeval, ghost times: seq<Timeval>) returns (c: nat)
      requires Holds(times) && |times| == |data| && AllKept(times) && Runnable(data) && InStates(current, data)
      requires draw >= 0.0 && Reading(now) && exists i :: 0 <= i < |times| && Before(times[i], now)
      modifies this`current, pq`currentSize, pq.elements
      ensures c < |times| && HoldsBut(times, c) && InStates(current, data) && Before(times[c], now)
      ensures Chosen(data, old(Snap(current, times)), current, c, draw, now)
    {
      c := PopFirst(now, times);
      Switch(c, draw);
    }

    // One round of the poll loop; k counts the readings of the inputs.
    method SwitchFirst(inputs: Inputs, k: nat, now: Timeval) returns (c: nat, tv: Timeval)
      requires Valid() && inputs.Valid() && Reading(now) && !Before(inputs.clock(k), now)
      requires exists i :: 0 <= i < |due| && Before(due[i], now)
      modifies this`current, this`due, pq, pq.elements
      ensures Valid() && (pq.elements == old(pq.elements) || fresh(pq.elements))
      ensures DueBefore(due, now) < DueBefore(old(due), now)
      ensures StepOk(data, old(Snap(current, due)), Snap(current, due), c, inputs.draw(k), tv, now)
      ensures Scheduled(tv, inputs.clock(k), inputs.length(k))
    {
      ghost var a := Snap(current, due);
      c := SwitchOne(inputs.draw(k), now, a.due);
      tv := NewSwitchTime(inputs, k, now);
      FewerDue(a.due, c, tv, now);
      PushAgain(a.due, c, tv);
      Install(a.due[c := tv]);
    }

    // The loop of the poll, with the steps so far.
    method PollRound(inputs: Inputs, k: nat, now: Timeval, ghost first: Snap, ghost before: seq<Snap>)
      returns (next: Option<nat>, ghost snaps: seq<Snap>)
      requires Valid() && inputs.Valid() && Reading(now) && !Before(inputs.clock(k), now)
      requires exists i :: 0 <= i < |due| && Before(due[i], now)
      requires k == |before| && Trail(data, first, Snap(current, due), before, inputs, now)
      modifies this`current, this`due, pq, pq.elements
      ensures Valid() && (pq.elements == old(pq.elements) || fresh(pq.elements))
      ensures DueBefore(due, now) < DueBefore(old(due), now) && SomeDue(next, due, now)
      ensures |snaps| == k + 1 && Trail(data, first, Snap(current, due), snaps, inputs, now)
    {
      ghost var last := Snap(current, due);
      var c, tv := SwitchFirst(inputs, k, now);
      TrailGrows(data, first, last, before, inputs, now, Snap(current, due), c, tv);
      snaps := before + [Snap(current, due)];
      next := FirstDue(now, due);
    }

    // ip_noise_arbitrator_switcher_poll: runs every event due at the time read at
    // the start, each in turn, and then no event is earlier than that time.
    method Poll(inputs: Inputs) returns (ghost snaps: seq<Snap>)
      requires Valid() && inputs.Valid()
      modifies this`current, this`due, pq, pq.elements
      ensures Valid()
      ensures forall c | 0 <= c < |due| :: Micros(inputs.clock(0)) <= Micros(due[c])
      ensures Trail(data, old(Snap(current, due)), Snap(current, due), snaps, inputs, inputs.clock(0))
    {
      var now := inputs.clock(0);
      var k := 1;
      var next := FirstDue(now, due);
      ghost var first := Snap(current, due);
      snaps := [first];
      while next.Some?
        invariant Valid() && (pq.elements == old(pq.elements) || fresh(pq.elements))
        invariant SomeDue(next, due, now)
        invariant k == |snaps| && Trail(data, first, Snap(current, due), snaps, inputs, now)
        decreases DueBefore(due, now)
      {
        BeforeIsEarlier(inputs.clock(k), now);
        next, snaps := PollRound(inputs, k, now, first, snaps);
        k := k + 1;
      }
      NoneEarlier(due, now);
    }
  }
}
