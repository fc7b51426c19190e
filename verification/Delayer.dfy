// delayer.c, kernel half: packets wait in the heap for their release time and
// one kernel timer stands for the earliest of them. Every operation runs under
// the delayer's lock; the clock (jiffies) is an input.
module Delayers {
  import opened Orders
  import opened Heaps
  import opened PQueues

  // A queued message and the time it is to be released.
  datatype Timed = Timed(m: int, tv: nat)

  // ip_noise_timeval_cmp
  function CompareTimes(a: Timed, b: Timed): int {
    if a.tv > b.tv then 1 else if a.tv < b.tv then -1 else 0
  }

  // The history of a delayer: the packets given to the release callback, the
  // times of the calls, the packets still queued, all that came in, and the
  // latest clock reading.
  datatype Books = Books(log: seq<Timed>, at: seq<nat>, queued: multiset<Timed>, entered: multiset<Timed>, clock: nat)
  {
    // Every packet that came in was released exactly once or still waits, and
    // none was released early.
    ghost predicate Good() {
      match this
      case Books(log, at, queued, entered, clock) =>
        && multiset(log) + queued == entered
        && Punctual(log, at, clock)
        && forall q | q in queued :: q.tv > 0
    }

    // Releases came in deadline order.
    ghost predicate InOrder() {
      match this
      case Books(log, _, queued, _, _) => DeadlineOrder(log, queued)
    }

    ghost function Release(x: Timed, now: nat): Books {
      Books(log + [x], at + [now], queued - multiset{x}, entered, now)
    }

    ghost function Tick(now: nat): Books {
      this.(clock := now)
    }

    ghost function Enter(x: Timed, now: nat): Books {
      Books(log, at, queued + multiset{x}, entered + multiset{x}, if clock < now then now else clock)
    }
  }

  ghost predicate Punctual(log: seq<Timed>, at: seq<nat>, clock: nat) {
    |at| == |log| && forall i | 0 <= i < |log| :: log[i].tv <= at[i] <= clock
  }

  // What was released is in deadline order, and none of it has a later deadline
  // than anything still queued.
  ghost predicate DeadlineOrder(log: seq<Timed>, queued: multiset<Timed>) {
    && (forall i, j | 0 <= i < j < |log| :: log[i].tv <= log[j].tv)
    && (forall i, q | 0 <= i < |log| && q in queued :: log[i].tv <= q.tv)
  }

  ghost predicate Earliest(m: multiset<Timed>, tv: nat) {
    (exists q :: q in m && q.tv == tv) && forall q | q in m :: tv <= q.tv
  }

  lemma {:induction false} FirstIsEarliest(m: multiset<Timed>, x: Timed)
    requires IsFirst(CompareTimes, false, m, x)
    ensures Earliest(m, x.tv)
  {
  }

  // b is what b0 has become by releases, each of an earliest packet: order is
  // neither lost nor regained.
  ghost predicate Follows(b0: Books, b: Books) {
    match b
    case Books(log, at, _, entered, clock) =>
      b0.log <= log && b0.at <= at && entered == b0.entered && b0.clock <= clock && (b0.InOrder() <==> b.InOrder())
  }

  lemma {:induction false} ReleaseKeepsGood(b: Books, x: Timed, now: nat)
    requires b.Good() && x in b.queued && Earliest(b.queued, x.tv) && x.tv <= now && b.clock <= now
    ensures b.Release(x, now).Good() && Follows(b, b.Release(x, now))
  {
    ReleaseKeepsOrder(b.log, b.queued, x);
  }

  lemma {:induction false} ReleaseKeepsOrder(log: seq<Timed>, queued: multiset<Timed>, x: Timed)
    requires x in queued && Earliest(queued, x.tv)
    ensures DeadlineOrder(log, queued) <==> DeadlineOrder(log + [x], queued - multiset{x})
  {
    if DeadlineOrder(log + [x], queued - multiset{x}) {
      forall i, j | 0 <= i < j < |log| ensures log[i].tv <= log[j].tv {
        assert (log + [x])[i].tv <= (log + [x])[j].tv;
      }
      forall i, q | 0 <= i < |log| && q in queued ensures log[i].tv <= q.tv {
        assert (log + [x])[i].tv <= (log + [x])[|log|].tv;
      }
    }
  }

  lemma {:induction false} TickKeepsGood(b: Books, now: nat)
    requires b.Good() && b.clock <= now
    ensures b.Tick(now).Good() && Follows(b, b.Tick(now))
  {
  }

  lemma {:induction false} FollowsOn(b0: Books, b1: Books, b2: Books)
    requires Follows(b0, b1) && Follows(b1, b2)
    ensures Follows(b0, b2)
  {
  }

  lemma {:induction false} QueuedIsRest(b: Books)
    requires b.Good()
    ensures b.queued == b.entered - multiset(b.log)
  {
  }

  // If something was due and nothing due is left, something was released.
  lemma {:induction false} DueReleased(b0: Books, b: Books, tv: nat, now: nat)
    requires b0.Good() && b.Good() && Follows(b0, b) && Earliest(b0.queued, tv) && tv <= now
    requires forall q | q in b.queued :: now < q.tv
    ensures |b0.log| < |b.log|
  {
    var q :| q in b0.queued && q.tv == tv;
    QueuedIsRest(b0);
    QueuedIsRest(b);
    assert |b0.log| == |b.log| ==> b0.log == b.log;
  }

  lemma {:induction false} EarliestUnique(m: multiset<Timed>, a: nat, b: nat)
    requires Earliest(m, a) && Earliest(m, b)
    ensures a == b
  {
  }

  lemma {:induction false} EnterKeepsGood(b: Books, x: Timed, now: nat)
    requires b.Good() && x.tv > 0
    ensures b.Enter(x, now).Good()
  {
  }

  // A packet that comes in breaks the order exactly if one of a later deadline
  // was released before.
  lemma {:induction false} EnterInOrderIff(b: Books, x: Timed, now: nat)
    ensures b.Enter(x, now).InOrder() <==> b.InOrder() && forall i | 0 <= i < |b.log| :: b.log[i].tv <= x.tv
  {
    if b.Enter(x, now).InOrder() {
      forall i, q | 0 <= i < |b.log| && q in b.queued ensures b.log[i].tv <= q.tv {
        assert q in b.queued + multiset{x};
      }
      assert x in b.queued + multiset{x};
    }
  }

  // It does not if the delayer did nothing between the clock reading that gave the
  // deadline and the lock.
  lemma {:induction false} EnterInTime(b: Books, x: Timed, now: nat)
    requires b.Good() && b.clock <= now <= x.tv
    ensures b.Enter(x, now).InOrder() <==> b.InOrder()
  {
    EnterInOrderIff(b, x, now);
  }

  // The clock is read before the lock is taken: a packet with no delay read it at
  // 5, and before it got the lock one with deadline 7 was released at 8.
  lemma {:induction false} OvertakenBeforeTheLock()
    ensures var b := Books([Timed(1, 7)], [8], multiset{}, multiset{Timed(1, 7)}, 8);
            b.Good() && b.InOrder() && !b.Enter(Timed(2, 5), 5).InOrder()
  {
    var b := Books([Timed(1, 7)], [8], multiset{}, multiset{Timed(1, 7)}, 8);
    EnterInOrderIff(b, Timed(2, 5), 5);
    assert b.log[0].tv > Timed(2, 5).tv;
    assert multiset(b.log) == multiset{Timed(1, 7)};
  }

  // The deadline of the first packet; 0 if there is none.
  ghost predicate FirstAt(tv: nat, queued: multiset<Timed>) {
    match tv
    case 0 => queued == multiset{}
    case _ => Earliest(queued, tv)
  }

  lemma {:induction false} NoneDue(tv: nat, queued: multiset<Timed>, now: nat)
    requires FirstAt(tv, queued) && (tv == 0 || now < tv)
    ensures forall q | q in queued :: now < q.tv
    ensures TimerFor(tv != 0, tv, queued)
  {
  }

  // The timer is up exactly if packets wait, for the earliest deadline.
  ghost predicate TimerFor(armed: bool, expires: nat, queued: multiset<Timed>) {
    match armed
    case true => Earliest(queued, expires)
    case false => queued == multiset{}
  }

  // A timer that fits still does after a packet due no earlier comes in.
  lemma {:induction false} TimerStays(armed: bool, expires: nat, queued: multiset<Timed>, min: nat, x: Timed)
    requires TimerFor(armed, expires, queued) && FirstAt(min, queued) && min != 0 && min <= x.tv
    ensures TimerFor(armed, expires, queued + multiset{x})
  {
  }

  class Delayer {
    const hz: nat
    const pq: PQueue<Timed>
    var timerArmed: bool
    var timerExpires: nat
    ghost var books: Books

    ghost predicate Linked()
      reads this`books, pq, pq.elements
    {
      match books
      case Books(_, _, queued, _, _) => Holds(queued) && books.Good()
    }

    // The heap is in order and holds just these packets.
    ghost predicate Holds(queued: multiset<Timed>)
      reads pq, pq.elements
    {
      match pq.cmp
      case cmp => pq.Valid() && cmp == CompareTimes && !pq.isAscendingHeap && pq.Contents() == queued
    }

    // Between operations the timer stands for the earliest deadline.
    ghost predicate Valid()
      reads this, pq, pq.elements
    {
      Linked() && TimerFor(timerArmed, timerExpires, books.queued)
    }

    // ip_noise_delayer_alloc
    constructor (hz: nat)
      ensures Valid() && books == Books([], [], multiset{}, multiset{}, 0)
      ensures fresh(pq) && fresh(pq.elements) && this.hz == hz
    {
      this.hz := hz;
      pq := new PQueue<Timed>(10000, false, CompareTimes);
      timerArmed, timerExpires := false, 0;
      books := Books([], [], multiset{}, multiset{}, 0);
    }

    ghost method Write(b: Books)
      requires Holds(b.queued) && b.Good()
      modifies this`books
      ensures Linked() && books == b
    {
      books := b;
    }

    // The deadline of the first packet; an empty queue answers 0.
    method FirstDeadline(ghost b: Books) returns (tv: nat)
      requires Holds(b.queued) && b.Good()
      ensures FirstAt(tv, b.queued)
    {
      var first := pq.Peek();
      match first
      case None => tv := 0;
      case Some(x) =>
        FirstIsEarliest(b.queued, x);
        tv := x.tv;
    }

    // Takes the packet with the earliest deadline out of the heap.
    method PopFirst(ghost queued: multiset<Timed>) returns (x: Timed)
      requires Holds(queued) && queued != multiset{}
      modifies pq`currentSize, pq.elements
      ensures x in queued && Earliest(queued, x.tv) && Holds(queued - multiset{x})
      ensures pq.currentSize < old(pq.currentSize)
    {
      var r := pq.Pop();
      x := r.value;
      FirstIsEarliest(queued, x);
    }

    // Releases the first packet: the callback, then PQueuePop.
    method ReleaseFirst(tv: nat, now: nat)
      requires Linked() && books.clock <= now
      requires Earliest(books.queued, tv) && tv <= now
      modifies this`books, pq`currentSize, pq.elements
      ensures Linked() && pq.currentSize < old(pq.currentSize)
      ensures Follows(old(books), books) && books.clock == now
    {
      ghost var b := books;
      var x := PopFirst(b.queued);
      EarliestUnique(b.queued, x.tv, tv);
      ReleaseKeepsGood(b, x, now);
      Write(b.Release(x, now));
    }

    // One round of the release loop.
    method ReleaseAndLook(tv: nat, now: nat, ghost b0: Books) returns (next: nat)
      requires Linked() && Follows(b0, books) && books.clock == now && Earliest(books.queued, tv) && tv <= now
      modifies this`books, pq`currentSize, pq.elements
      ensures Linked() && pq.currentSize < old(pq.currentSize)
      ensures Follows(b0, books) && books.clock == now && FirstAt(next, books.queued)
    {
      ghost var b := books;
      ReleaseFirst(tv, now);
      FollowsOn(b0, b, books);
      next := FirstDeadline(books);
    }

    ghost method ReadClock(now: nat)
      requires Linked() && books.clock <= now
      modifies this`books
      ensures Linked() && Follows(old(books), books) && books.clock == now
    {
      TickKeepsGood(books, now);
      Write(books.Tick(now));
    }

    // The loop of ip_noise_delayer_check_pq: releases everything that is due.
    method ReleaseDue(now: nat) returns (tv: nat)
      requires Linked() && books.clock <= now
      modifies this`books, pq`currentSize, pq.elements
      ensures Linked() && Follows(old(books), books) && books.clock == now && pq.elements == old(pq.elements)
      ensures FirstAt(tv, books.queued) && (tv != 0 ==> now < tv)
    {
      ghost var b0 := books;
      ReadClock(now);
      tv := FirstDeadline(books);
      while tv != 0 && tv <= now
        invariant Linked() && Follows(b0, books) && books.clock == now
        invariant FirstAt(tv, books.queued)
        decreases pq.currentSize
      {
        tv := ReleaseAndLook(tv, now, b0);
      }
    }

    // A timer for the first packet left, if there is one.
    method StartTimer(tv: nat, ghost now: nat)
      requires Linked() && !timerArmed && FirstAt(tv, books.queued) && (tv != 0 ==> now < tv)
      modifies this`timerArmed, this`timerExpires
      ensures Valid() && forall q | q in books.queued :: now < q.tv
    {
      NoneDue(tv, books.queued, now);
      if tv != 0 {
        timerExpires := tv;
        timerArmed := true;
      }
    }

    // ip_noise_delayer_check_pq
    method CheckPq(now: nat)
      requires Linked() && books.clock <= now && !timerArmed
      modifies this`books, this`timerArmed, this`timerExpires, pq`currentSize, pq.elements
      ensures Valid() && Follows(old(books), books) && books.clock == now && pq.elements == old(pq.elements)
      ensures forall q | q in books.queued :: now < q.tv
    {
      var tv := ReleaseDue(now);
      StartTimer(tv, now);
    }

    // ip_noise_delayer_timer_function: the armed timer has gone off.
    method TimerFunction(now: nat)
      requires Valid() && books.clock <= now && timerArmed
      modifies this`books, this`timerArmed, this`timerExpires, pq`currentSize, pq.elements
      ensures Valid() && Follows(old(books), books) && books.clock == now
      ensures forall q | q in books.queued :: now < q.tv
      ensures old(timerExpires) <= now ==> |old(books).log| < |books.log|
    {
      ghost var timerExpires0 := timerExpires;
      timerArmed := false;
      ghost var before := books;
      CheckPq(now);
      if timerExpires0 <= now {
        DueReleased(before, books, timerExpires0, now);
      }
    }

    // ip_noise_delayer_delay_packet: now is read before the lock is taken, later
    // by the check under it.
    method DelayPacket(m: int, delayLen: nat, now: nat, later: nat)
      requires Valid() && books.clock <= later && 0 < now <= later
      modifies this`books, this`timerArmed, this`timerExpires, pq, pq.elements
      ensures Valid() && (pq.elements == old(pq.elements) || fresh(pq.elements))
      ensures Follows(old(books).Enter(Timed(m, now + hz * delayLen / 1000), now), books) && books.clock <= later
    {
      var elem := Timed(m, now + hz * delayLen / 1000);
      DelayElement(elem, now, later);
    }

    method DelayElement(elem: Timed, now: nat, later: nat)
      requires Valid() && books.clock <= later && 0 < now <= elem.tv && now <= later
      modifies this`books, this`timerArmed, this`timerExpires, pq, pq.elements
      ensures Valid() && (pq.elements == old(pq.elements) || fresh(pq.elements))
      ensures Follows(old(books).Enter(elem, now), books) && books.clock <= later
    {
      var min := FirstDeadline(books);
      var check := min == 0 || elem.tv < min || min < now;
      if !check {
        TimerStays(timerArmed, timerExpires, books.queued, min, elem);
      }
      Enqueue(elem, now);
      CheckIf(check, later);
    }

    // If so decided, takes the timer down (if it is up) and checks the queue.
    method CheckIf(check: bool, now: nat)
      requires Linked() && books.clock <= now
      requires !check ==> TimerFor(timerArmed, timerExpires, books.queued)
      modifies this`books, this`timerArmed, this`timerExpires, pq`currentSize, pq.elements
      ensures Valid() && Follows(old(books), books) && books.clock <= now && pq.elements == old(pq.elements)
    {
      if check {
        if timerArmed {
          timerArmed := false;
        }
        CheckPq(now);
      }
    }

    // PQueuePush
    method PushIn(elem: Timed, ghost queued: multiset<Timed>)
      requires Holds(queued)
      modifies pq, pq.elements
      ensures Holds(queued + multiset{elem}) && (pq.elements == old(pq.elements) || fresh(pq.elements))
    {
      pq.Push(elem);
    }

    method Enqueue(elem: Timed, now: nat)
      requires Linked() && elem.tv > 0
      modifies this`books, pq, pq.elements
      ensures Linked() && books == old(books).Enter(elem, now)
      ensures pq.elements == old(pq.elements) || fresh(pq.elements)
    {
      ghost var b := books;
      PushIn(elem, b.queued);
      EnterKeepsGood(b, elem, now);
      Write(b.Enter(elem, now));
    }
  }
}
