// rwlock.c, user-mode half: writers first. Each stretch of code under the mutex
// is one step; a thread in pthread_cond_wait is blocked until signalled (or
// woken for no reason), then it must take the mutex and test again.
module RwLock {

  // ---------- the lock's counters ----------

  datatype Lock = Lock(activeReaders: int, activeWriters: int, waitingReaders: int, waitingWriters: int,
                       fairness: int)

  predicate AllowReader(l: Lock) {
    l.activeWriters == 0 && l.waitingWriters == 0
  }

  predicate AllowWriter(l: Lock) {
    l.activeWriters == 0 && l.activeReaders == 0
  }

  function StartRead(l: Lock): Lock {
    l.(waitingReaders := l.waitingReaders + 1)
  }

  function StartWrite(l: Lock): Lock {
    l.(waitingWriters := l.waitingWriters + 1)
  }

  function EnterRead(l: Lock): Lock {
    l.(waitingReaders := l.waitingReaders - 1, activeReaders := l.activeReaders + 1)
  }

  function EnterWrite(l: Lock): Lock {
    l.(waitingWriters := l.waitingWriters - 1, activeWriters := l.activeWriters + 1)
  }

  function LeaveRead(l: Lock): Lock {
    l.(activeReaders := l.activeReaders - 1, fairness := l.fairness - 1)
  }

  function LeaveWrite(l: Lock): Lock {
    l.(activeWriters := l.activeWriters - 1, fairness := l.fairness + 1)
  }

  // ---------- the system of threads ----------

  datatype Phase =
    | Idle
    | WaitRead(blocked: bool)
    | WaitWrite(blocked: bool)
    | Reading
    | Writing

  // Any number of threads, named by numbers.
  datatype System = System(lock: Lock, phase: map<nat, Phase>)

  datatype Event =
    | Arrive(t: nat, writer: bool)      // calls down_read or down_write
    | Retest(t: nat)                    // runs again after a wake-up
    | Release(t: nat, woken: set<nat>)  // calls up_read or up_write, waking these readers
    | Spurious(t: nat)                  // wakes up for no reason

  ghost function Having(s: System, p: Phase): set<nat> {
    set t | t in s.phase && s.phase[t] == p
  }

  ghost function WaitingReaders(s: System): set<nat> {
    set t | t in s.phase && s.phase[t].WaitRead?
  }

  ghost function WaitingWriters(s: System): set<nat> {
    set t | t in s.phase && s.phase[t].WaitWrite?
  }

  // pthread_cond_signal: at least one of the blocked threads, if there is any.
  ghost predicate Signals(blocked: set<nat>, woken: set<nat>) {
    woken <= blocked && (blocked != {} ==> woken != {})
  }

  // All blocked writers (broadcast) and the given readers are woken.
  ghost function WakeUp(phase: map<nat, Phase>, readers: set<nat>): map<nat, Phase> {
    map t | t in phase ::
      if phase[t] == WaitWrite(true) then WaitWrite(false)
      else if phase[t] == WaitRead(true) && t in readers then WaitRead(false)
      else phase[t]
  }

  ghost predicate Enabled(s: System, e: Event) {
    e.t in s.phase &&
    match e
    case Arrive(t, _) => s.phase[t] == Idle
    case Retest(t) => s.phase[t] == WaitRead(false) || s.phase[t] == WaitWrite(false)
    case Release(t, woken) =>
      (s.phase[t] == Reading || s.phase[t] == Writing) && Signals(Having(s, WaitRead(true)), woken)
    case Spurious(t) => s.phase[t] == WaitRead(true) || s.phase[t] == WaitWrite(true)
  }

  ghost function Step(s: System, e: Event): System
    requires Enabled(s, e)
  {
    var l := s.lock;
    match e
    case Arrive(t, false) =>
      var l1 := StartRead(l);
      if AllowReader(l1) then System(EnterRead(l1), s.phase[t := Reading])
      else System(l1, s.phase[t := WaitRead(true)])
    case Arrive(t, true) =>
      var l1 := StartWrite(l);
      if AllowWriter(l1) then System(EnterWrite(l1), s.phase[t := Writing])
      else System(l1, s.phase[t := WaitWrite(true)])
    case Retest(t) =>
      if s.phase[t].WaitRead? then
        if AllowReader(l) then System(EnterRead(l), s.phase[t := Reading])
        else System(l, s.phase[t := WaitRead(true)])
      else
        if AllowWriter(l) then System(EnterWrite(l), s.phase[t := Writing])
        else System(l, s.phase[t := WaitWrite(true)])
    case Release(t, woken) =>
      System(if s.phase[t] == Reading then LeaveRead(l) else LeaveWrite(l), WakeUp(s.phase[t := Idle], woken))
    case Spurious(t) =>
      System(l, s.phase[t := if s.phase[t].WaitRead? then WaitRead(false) else WaitWrite(false)])
  }

  ghost predicate Initial(s: System) {
    s.lock.(fairness := 0) == Lock(0, 0, 0, 0, 0) && forall t | t in s.phase :: s.phase[t] == Idle
  }

  // ---------- safety ----------

  // The counters count the threads in the matching phases.
  ghost predicate Counted(s: System) {
    && s.lock.activeReaders == |Having(s, Reading)|
    && s.lock.activeWriters == |Having(s, Writing)|
    && s.lock.waitingReaders == |WaitingReaders(s)|
    && s.lock.waitingWriters == |WaitingWriters(s)|
  }

  ghost predicate Exclusive(s: System) {
    && s.lock.activeWriters <= 1
    && (s.lock.activeWriters == 1 ==> s.lock.activeReaders == 0)
  }

  ghost predicate Free(s: System) {
    s.lock.activeReaders == 0 && s.lock.activeWriters == 0
  }

  // No wake-up is lost: while nobody holds the lock every waiting writer has
  // been woken, and if no writer waits one of the waiting readers has been.
  ghost predicate NoLostWakeup(s: System) {
    Free(s) ==>
      && Having(s, WaitWrite(true)) == {}
      && (s.lock.waitingWriters == 0 && WaitingReaders(s) != {} ==> Having(s, WaitRead(false)) != {})
  }

  ghost predicate Inv(s: System) {
    match s
    case System(_, _) => Counted(s) && Exclusive(s) && NoLostWakeup(s)
  }

  lemma {:induction false} HavingAfterMove(s: System, t: nat, p: Phase, l: Lock, q: Phase)
    requires t in s.phase
    ensures var s' := System(l, s.phase[t := p]);
            |Having(s', q)| == |Having(s, q)| - (if s.phase[t] == q then 1 else 0) + (if p == q then 1 else 0)
    ensures var s' := System(l, s.phase[t := p]);
            Having(s', q) == Having(s, q) - {t} + (if p == q then {t} else {})
  {
    var s' := System(l, s.phase[t := p]);
    assert Having(s', q) == Having(s, q) - {t} + (if p == q then {t} else {});
    assert t in Having(s, q) <==> s.phase[t] == q;
  }

  lemma {:induction false} WaitingSizes(s: System)
    ensures |WaitingReaders(s)| == |Having(s, WaitRead(true))| + |Having(s, WaitRead(false))|
    ensures |WaitingWriters(s)| == |Having(s, WaitWrite(true))| + |Having(s, WaitWrite(false))|
  {
    assert Having(s, WaitRead(true)) !! Having(s, WaitRead(false));
    assert Having(s, WaitRead(true)) + Having(s, WaitRead(false)) == WaitingReaders(s);
    assert Having(s, WaitWrite(true)) !! Having(s, WaitWrite(false));
    assert Having(s, WaitWrite(true)) + Having(s, WaitWrite(false)) == WaitingWriters(s);
  }

  // One thread changes phase and the counters follow.
  lemma {:induction false} MoveKeepsCount(s: System, t: nat, p: Phase, l: Lock)
    requires Counted(s) && t in s.phase
    requires l.activeReaders == s.lock.activeReaders - One(s.phase[t].Reading?) + One(p.Reading?)
    requires l.activeWriters == s.lock.activeWriters - One(s.phase[t].Writing?) + One(p.Writing?)
    requires l.waitingReaders == s.lock.waitingReaders - One(s.phase[t].WaitRead?) + One(p.WaitRead?)
    requires l.waitingWriters == s.lock.waitingWriters - One(s.phase[t].WaitWrite?) + One(p.WaitWrite?)
    ensures Counted(System(l, s.phase[t := p]))
  {
    WaitingSizes(s);
    WaitingSizes(System(l, s.phase[t := p]));
    HavingAfterMove(s, t, p, l, Reading);
    HavingAfterMove(s, t, p, l, Writing);
    HavingAfterMove(s, t, p, l, WaitRead(true));
    HavingAfterMove(s, t, p, l, WaitRead(false));
    HavingAfterMove(s, t, p, l, WaitWrite(true));
    HavingAfterMove(s, t, p, l, WaitWrite(false));
  }

  function One(b: bool): nat {
    if b then 1 else 0
  }

  // A wake-up moves threads from blocked to woken and nothing else.
  lemma {:induction false} WakeUpKeepsCount(s: System, woken: set<nat>)
    requires Counted(s) && woken <= Having(s, WaitRead(true))
    ensures var s' := System(s.lock, WakeUp(s.phase, woken));
            && Counted(s') && WaitingReaders(s') == WaitingReaders(s)
            && Having(s', WaitWrite(true)) == {}
            && Having(s', WaitRead(false)) == Having(s, WaitRead(false)) + woken
  {
    var s' := System(s.lock, WakeUp(s.phase, woken));
    assert s'.phase.Keys == s.phase.Keys;
    assert Having(s', Reading) == Having(s, Reading) by { WokenElsewhere(s, woken, Reading); }
    assert Having(s', Writing) == Having(s, Writing) by { WokenElsewhere(s, woken, Writing); }
    assert WaitingReaders(s') == WaitingReaders(s);
    assert WaitingWriters(s') == WaitingWriters(s);
    WokenReaders(s, woken);
  }

  lemma {:induction false} WokenElsewhere(s: System, woken: set<nat>, p: Phase)
    requires p == Reading || p == Writing
    ensures Having(System(s.lock, WakeUp(s.phase, woken)), p) == Having(s, p)
  {
    var s' := System(s.lock, WakeUp(s.phase, woken));
    forall t ensures t in Having(s', p) <==> t in Having(s, p) {}
  }

  lemma {:induction false} WokenReaders(s: System, woken: set<nat>)
    requires woken <= Having(s, WaitRead(true))
    ensures Having(System(s.lock, WakeUp(s.phase, woken)), WaitRead(false)) == Having(s, WaitRead(false)) + woken
  {
    var s' := System(s.lock, WakeUp(s.phase, woken));
    forall t ensures t in Having(s', WaitRead(false)) <==> t in Having(s, WaitRead(false)) || t in woken {}
  }

  // A thread in a phase shows in its counter.
  lemma {:induction false} Present(s: System, t: nat)
    requires Counted(s) && t in s.phase
    ensures s.phase[t] == Reading ==> s.lock.activeReaders >= 1
    ensures s.phase[t] == Writing ==> s.lock.activeWriters >= 1
    ensures s.phase[t].WaitRead? ==> s.lock.waitingReaders >= 1
    ensures s.phase[t].WaitWrite? ==> s.lock.waitingWriters >= 1
    ensures s.lock.activeReaders >= 0 && s.lock.activeWriters >= 0
    ensures s.lock.waitingReaders >= 0 && s.lock.waitingWriters >= 0
  {
    assert t in Having(s, s.phase[t]);
    assert s.phase[t].WaitRead? ==> t in WaitingReaders(s);
    assert s.phase[t].WaitWrite? ==> t in WaitingWriters(s);
  }

  lemma {:induction false} ArriveKeepsInv(s: System, t: nat, writer: bool)
    requires Inv(s) && Enabled(s, Arrive(t, writer))
    ensures Inv(Step(s, Arrive(t, writer)))
  {
    var s' := Step(s, Arrive(t, writer));
    Present(s, t);
    MoveKeepsCount(s, t, s'.phase[t], s'.lock);
    HavingAfterMove(s, t, s'.phase[t], s'.lock, WaitWrite(true));
    HavingAfterMove(s, t, s'.phase[t], s'.lock, WaitRead(true));
    HavingAfterMove(s, t, s'.phase[t], s'.lock, WaitRead(false));
  }

  lemma {:induction false} RetestKeepsInv(s: System, t: nat)
    requires Inv(s) && Enabled(s, Retest(t))
    ensures Inv(Step(s, Retest(t)))
  {
    var s' := Step(s, Retest(t));
    Present(s, t);
    MoveKeepsCount(s, t, s'.phase[t], s'.lock);
    HavingAfterMove(s, t, s'.phase[t], s'.lock, WaitWrite(true));
    HavingAfterMove(s, t, s'.phase[t], s'.lock, WaitRead(true));
    HavingAfterMove(s, t, s'.phase[t], s'.lock, WaitRead(false));
  }

  lemma {:induction false} SpuriousKeepsInv(s: System, t: nat)
    requires Inv(s) && Enabled(s, Spurious(t))
    ensures Inv(Step(s, Spurious(t)))
  {
    var s' := Step(s, Spurious(t));
    MoveKeepsCount(s, t, s'.phase[t], s'.lock);
    HavingAfterMove(s, t, s'.phase[t], s'.lock, WaitWrite(true));
    HavingAfterMove(s, t, s'.phase[t], s'.lock, WaitRead(true));
    HavingAfterMove(s, t, s'.phase[t], s'.lock, WaitRead(false));
  }

  lemma {:induction false} ReleaseKeepsInv(s: System, t: nat, woken: set<nat>)
    requires Inv(s) && Enabled(s, Release(t, woken))
    ensures Inv(Step(s, Release(t, woken)))
  {
    var e := Release(t, woken);
    var s' := Step(s, e);
    var s1 := System(s'.lock, s.phase[t := Idle]);
    Present(s, t);
    MoveKeepsCount(s, t, Idle, s'.lock);
    assert Having(s1, WaitRead(true)) == Having(s, WaitRead(true));
    WakeUpKeepsCount(s1, woken);
    Present(s1, t);
  }

  lemma {:induction false} StepKeepsInv(s: System, e: Event)
    requires Inv(s) && Enabled(s, e)
    ensures Inv(Step(s, e))
  {
    match e
    case Arrive(t, writer) => ArriveKeepsInv(s, t, writer);
    case Retest(t) => RetestKeepsInv(s, t);
    case Release(t, woken) => ReleaseKeepsInv(s, t, woken);
    case Spurious(t) => SpuriousKeepsInv(s, t);
  }

  lemma {:induction false} InitialInv(s: System)
    requires Initial(s)
    ensures Inv(s)
  {
    assert Having(s, Reading) == {} && Having(s, Writing) == {};
    assert WaitingReaders(s) == {} && WaitingWriters(s) == {};
    assert Having(s, WaitWrite(true)) == {};
  }

  // ---------- who gets in ----------

  // No thread writes or waits to write.
  ghost predicate NoWriter(s: System) {
    forall u | u in s.phase :: s.phase[u] != Writing && !s.phase[u].WaitWrite?
  }

  // No thread reads or writes.
  ghost predicate NobodyInside(s: System) {
    forall u | u in s.phase :: s.phase[u] != Reading && s.phase[u] != Writing
  }

  // A step by which t may get in: its arrival, or a test after it was woken.
  ghost predicate Tries(s: System, e: Event, t: nat, writer: bool) {
    && Enabled(s, e) && e.t == t && t in s.phase
    && (e == Arrive(t, writer)
        || (e == Retest(t) && s.phase[t] == if writer then WaitWrite(false) else WaitRead(false)))
  }

  lemma {:induction false} CountersTell(s: System)
    requires Counted(s)
    ensures NoWriter(s) <==> s.lock.activeWriters == 0 && s.lock.waitingWriters == 0
    ensures NobodyInside(s) <==> s.lock.activeReaders == 0 && s.lock.activeWriters == 0
  {
    forall u | u in s.phase
      ensures s.phase[u] == Reading ==> s.lock.activeReaders > 0
      ensures s.phase[u] == Writing ==> s.lock.activeWriters > 0
      ensures s.phase[u].WaitWrite? ==> s.lock.waitingWriters > 0
    {
      Present(s, u);
    }
    assert NoWriter(s) ==> Having(s, Writing) == {} && WaitingWriters(s) == {};
    assert NobodyInside(s) ==> Having(s, Reading) == {} && Having(s, Writing) == {};
  }

  // A reader gets in exactly if no thread writes or waits to write, whoever else
  // reads; otherwise it is blocked.
  lemma {:induction false} ReaderEntersIff(s: System, e: Event, t: nat)
    requires Inv(s) && Tries(s, e, t, false)
    ensures Step(s, e).phase == s.phase[t := if NoWriter(s) then Reading else WaitRead(true)]
  {
    CountersTell(s);
  }

  // A writer gets in exactly if no thread is inside; otherwise it is blocked.
  lemma {:induction false} WriterEntersIff(s: System, e: Event, t: nat)
    requires Inv(s) && Tries(s, e, t, true)
    ensures Step(s, e).phase == s.phase[t := if NobodyInside(s) then Writing else WaitWrite(true)]
  {
    CountersTell(s);
  }

  // Who leaves becomes idle and wakes every blocked writer and the readers in
  // woken; the others stay as they are.
  lemma {:induction false} ReleaseWakes(s: System, t: nat, woken: set<nat>)
    requires Enabled(s, Release(t, woken))
    ensures var phase := Step(s, Release(t, woken)).phase;
            && phase.Keys == s.phase.Keys && phase[t] == Idle
            && forall u | u in s.phase && u != t ::
                 phase[u] == if s.phase[u] == WaitWrite(true) then WaitWrite(false)
                             else if u in woken then WaitRead(false) else s.phase[u]
  {
    forall u | u in woken ensures u in s.phase && s.phase[u] == WaitRead(true) {
      assert u in Having(s, WaitRead(true));
    }
  }

  // ---------- the structure ----------

  // The counters in memory, with the threads that use them as ghost state. Each
  // method is one stretch of code under the mutex, run by thread t.
  class RwLockStruct {
    var fairness_counter: int
    var active_readers: int
    var active_writers: int
    var waiting_readers: int
    var waiting_writers: int

    ghost var sys: System

    function Counters(): Lock
      reads this
    {
      Lock(active_readers, active_writers, waiting_readers, waiting_writers, fairness_counter)
    }

    // What the program keeps is the counters; what it means is the invariant
    // on the threads.
    ghost predicate Valid()
      reads this
    {
      Inv(sys) && sys.lock == Counters()
    }

    // The fairness counter is not initialised.
    constructor (ghost threads: set<nat>)
      ensures Valid() && Initial(sys) && sys.phase.Keys == threads
    {
      active_readers, active_writers, waiting_readers, waiting_writers := 0, 0, 0, 0;
      new;
      sys := System(Counters(), map t | t in threads :: Idle);
      InitialInv(sys);
    }

    // down_read up to its first wait or its return.
    method StartDownRead(ghost t: nat) returns (entered: bool)
      requires Valid() && Enabled(sys, Arrive(t, false))
      modifies this
      ensures Valid() && sys == Step(old(sys), Arrive(t, false))
      ensures sys.phase[t] == if entered then Reading else WaitRead(true)
      ensures entered <==> NoWriter(old(sys))
    {
      ReaderEntersIff(sys, Arrive(t, false), t);
      StepKeepsInv(sys, Arrive(t, false));
      sys := Step(sys, Arrive(t, false));
      waiting_readers := waiting_readers + 1;
      entered := active_writers == 0 && waiting_writers == 0;
      if entered {
        waiting_readers := waiting_readers - 1;
        active_readers := active_readers + 1;
      }
    }

    // down_read from a wake-up to its next wait or its return.
    method TestDownRead(ghost t: nat) returns (entered: bool)
      requires Valid() && Enabled(sys, Retest(t)) && sys.phase[t].WaitRead?
      modifies this
      ensures Valid() && sys == Step(old(sys), Retest(t))
      ensures sys.phase[t] == if entered then Reading else WaitRead(true)
      ensures entered <==> NoWriter(old(sys))
    {
      ReaderEntersIff(sys, Retest(t), t);
      StepKeepsInv(sys, Retest(t));
      sys := Step(sys, Retest(t));
      entered := active_writers == 0 && waiting_writers == 0;
      if entered {
        waiting_readers := waiting_readers - 1;
        active_readers := active_readers + 1;
      }
    }

    // down_write up to its first wait or its return.
    method StartDownWrite(ghost t: nat) returns (entered: bool)
      requires Valid() && Enabled(sys, Arrive(t, true))
      modifies this
      ensures Valid() && sys == Step(old(sys), Arrive(t, true))
      ensures sys.phase[t] == if entered then Writing else WaitWrite(true)
      ensures entered <==> NobodyInside(old(sys))
    {
      WriterEntersIff(sys, Arrive(t, true), t);
      StepKeepsInv(sys, Arrive(t, true));
      sys := Step(sys, Arrive(t, true));
      waiting_writers := waiting_writers + 1;
      entered := active_writers == 0 && active_readers == 0;
      if entered {
        waiting_writers := waiting_writers - 1;
        active_writers := active_writers + 1;
      }
    }

    // down_write from a wake-up to its next wait or its return.
    method TestDownWrite(ghost t: nat) returns (entered: bool)
      requires Valid() && Enabled(sys, Retest(t)) && sys.phase[t].WaitWrite?
      modifies this
      ensures Valid() && sys == Step(old(sys), Retest(t))
      ensures sys.phase[t] == if entered then Writing else WaitWrite(true)
      ensures entered <==> NobodyInside(old(sys))
    {
      WriterEntersIff(sys, Retest(t), t);
      StepKeepsInv(sys, Retest(t));
      sys := Step(sys, Retest(t));
      entered := active_writers == 0 && active_readers == 0;
      if entered {
        waiting_writers := waiting_writers - 1;
        active_writers := active_writers + 1;
      }
    }

    // up_read: the broadcast wakes every blocked writer, the signal the readers
    // in woken, which are not none if a reader is blocked.
    method UpRead(ghost t: nat, ghost woken: set<nat>)
      requires Valid() && Enabled(sys, Release(t, woken)) && sys.phase[t] == Reading
      modifies this
      ensures Valid() && sys == Step(old(sys), Release(t, woken))
    {
      StepKeepsInv(sys, Release(t, woken));
      sys := Step(sys, Release(t, woken));
      active_readers := active_readers - 1;
      fairness_counter := fairness_counter - 1;
    }

    // up_write, with the same wake-ups.
    method UpWrite(ghost t: nat, ghost woken: set<nat>)
      requires Valid() && Enabled(sys, Release(t, woken)) && sys.phase[t] == Writing
      modifies this
      ensures Valid() && sys == Step(old(sys), Release(t, woken))
    {
      StepKeepsInv(sys, Release(t, woken));
      sys := Step(sys, Release(t, woken));
      active_writers := active_writers - 1;
      fairness_counter := fairness_counter + 1;
    }
  }

  // ---------- whole runs ----------

  // States of a run: each follows from the one before by an enabled event.
  ghost predicate IsRun(run: seq<System>, events: seq<Event>) {
    && |run| == |events| + 1
    && Initial(run[0])
    && forall i | 0 <= i < |events| :: Enabled(run[i], events[i]) && run[i + 1] == Step(run[i], events[i])
  }

  lemma {:induction false} InvAlways(run: seq<System>, events: seq<Event>, i: nat)
    requires IsRun(run, events) && i < |run|
    ensures Inv(run[i])
  {
    if i == 0 {
      InitialInv(run[0]);
    } else {
      InvAlways(run, events, i - 1);
      StepKeepsInv(run[i - 1], events[i - 1]);
    }
  }

  // Mutual exclusion in every reachable state, stated on the threads.
  lemma {:induction false} Safety(run: seq<System>, events: seq<Event>, i: nat)
    requires IsRun(run, events) && i < |run|
    ensures forall t, u | t in run[i].phase && u in run[i].phase && run[i].phase[t] == Writing && t != u ::
              run[i].phase[u] != Writing && run[i].phase[u] != Reading
    ensures Counted(run[i])
  {
    InvAlways(run, events, i);
    var s := run[i];
    forall t, u | t in s.phase && u in s.phase && s.phase[t] == Writing && t != u
      ensures s.phase[u] != Writing && s.phase[u] != Reading
    {
      assert {t} <= Having(s, Writing);
      if s.phase[u] == Writing {
        assert {t, u} <= Having(s, Writing);
        SubsetSize({t, u}, Having(s, Writing));
      } else if s.phase[u] == Reading {
        SubsetSize({t}, Having(s, Writing));
        SubsetSize({u}, Having(s, Reading));
      }
    }
  }

  lemma {:induction false} SubsetSize(a: set<nat>, b: set<nat>)
    requires a <= b
    ensures |a| <= |b|
  {
    if a != {} {
      var x :| x in a;
      SubsetSize(a - {x}, b - {x});
    }
  }

  // A reader never enters while a writer is active or waiting.
  lemma {:induction false} ReadersYield(run: seq<System>, events: seq<Event>, i: nat, t: nat)
    requires IsRun(run, events) && i < |events| && t in run[i].phase && t in run[i + 1].phase
    requires run[i].phase[t] != Reading && run[i + 1].phase[t] == Reading
    ensures forall u | u in run[i].phase :: !run[i].phase[u].WaitWrite? && run[i].phase[u] != Writing
  {
    InvAlways(run, events, i);
    var s := run[i];
    EntryAllowed(s, events[i], t);
    forall u | u in s.phase ensures !s.phase[u].WaitWrite? && s.phase[u] != Writing {
      Present(s, u);
    }
  }

  lemma {:induction false} EntryAllowed(s: System, e: Event, t: nat)
    requires Enabled(s, e) && t in s.phase && t in Step(s, e).phase
    requires s.phase[t] != Reading && Step(s, e).phase[t] == Reading
    ensures AllowReader(s.lock)
  {
  }

  // Readers share: two threads can read at once.
  lemma {:induction false} TwoReaders() returns (run: seq<System>, events: seq<Event>)
    ensures IsRun(run, events) && |run| == 3
    ensures run[2].phase == map[0 := Reading, 1 := Reading]
  {
    var s0 := System(Lock(0, 0, 0, 0, 0), map[0 := Idle, 1 := Idle]);
    var (e0, e1) := (Arrive(0, false), Arrive(1, false));
    var s1 := Step(s0, e0);
    var s2 := Step(s1, e1);
    run, events := [s0, s1, s2], [e0, e1];
    InitialInv(s0);
    ReaderEntersIff(s0, e0, 0);
    StepKeepsInv(s0, e0);
    ReaderEntersIff(s1, e1, 1);
  }

  // What the fairness counter counts: the writers that left, less the readers.
  ghost function Leavers(run: seq<System>, events: seq<Event>, p: Phase): nat
    requires |run| == |events| + 1 && forall i | 0 <= i < |events| :: events[i].t in run[i].phase
  {
    if events == [] then 0
    else
      var n := |events| - 1;
      Leavers(run[..n + 1], events[..n], p) + One(events[n].Release? && run[n].phase[events[n].t] == p)
  }

  lemma {:induction false} FairnessCounts(run: seq<System>, events: seq<Event>)
    requires IsRun(run, events)
    ensures run[|events|].lock.fairness - run[0].lock.fairness
            == Leavers(run, events, Writing) - Leavers(run, events, Reading)
    decreases |events|
  {
    if events != [] {
      var n := |events| - 1;
      FairnessCounts(run[..n + 1], events[..n]);
    }
  }

  // ---------- progress ----------

  // Whenever nobody holds the lock and some thread waits, some waiting thread
  // has been woken and would enter on its next test.
  lemma {:induction false} Progress(run: seq<System>, events: seq<Event>, i: nat, w: nat)
    requires IsRun(run, events) && i < |run| && Free(run[i])
    requires w in run[i].phase && (run[i].phase[w].WaitRead? || run[i].phase[w].WaitWrite?)
    ensures exists t :: CanEnter(run[i], t)
  {
    InvAlways(run, events, i);
    WaiterCanEnter(run[i], w);
  }

  ghost predicate CanEnter(s: System, t: nat) {
    Enabled(s, Retest(t)) &&
    var s' := Step(s, Retest(t));
    s'.phase[t] == Reading || s'.phase[t] == Writing
  }

  lemma {:induction false} WaiterCanEnter(s: System, w: nat)
    requires Inv(s) && Free(s) && w in s.phase && (s.phase[w].WaitRead? || s.phase[w].WaitWrite?)
    ensures exists t :: CanEnter(s, t)
  {
    if s.lock.waitingWriters > 0 {
      assert WaitingWriters(s) != {};
      var t :| t in WaitingWriters(s);
      assert t !in Having(s, WaitWrite(true));
      assert CanEnter(s, t);
    } else {
      Present(s, w);
      assert w in WaitingReaders(s);
      var t :| t in Having(s, WaitRead(false));
      assert CanEnter(s, t);
    }
  }

  // ---------- draining ----------

  // Steps of threads already in the protocol: tests after a wake-up, releases.
  predicate Internal(e: Event) {
    e.Retest? || e.Release?
  }

  ghost function Pending(s: System): nat {
    2 * |WaitingReaders(s)| + 2 * |WaitingWriters(s)| + |Having(s, Reading)| + |Having(s, Writing)|
  }

  ghost function Woken(s: System): nat {
    |Having(s, WaitRead(false))| + |Having(s, WaitWrite(false))|
  }

  // p times n.
  function Times(p: nat, n: nat): nat {
    if p == 0 then 0 else n + Times(p - 1, n)
  }

  ghost function Work(s: System): nat {
    Times(Pending(s), |s.phase| + 1) + Woken(s)
  }

  ghost predicate AllIdle(s: System) {
    forall t | t in s.phase :: s.phase[t] == Idle
  }

  lemma {:induction false} WokenBound(s: System)
    ensures Woken(s) <= |s.phase|
  {
    var a, b := Having(s, WaitRead(false)), Having(s, WaitWrite(false));
    assert a !! b && a + b <= s.phase.Keys;
    SubsetSize(a + b, s.phase.Keys);
  }

  lemma {:induction false} RetestWoken(s: System, t: nat)
    requires Enabled(s, Retest(t))
    ensures Woken(Step(s, Retest(t))) == Woken(s) - 1
    ensures Step(s, Retest(t)).phase.Keys == s.phase.Keys
  {
    var s' := Step(s, Retest(t));
    var p := s'.phase[t];
    assert s' == System(s'.lock, s.phase[t := p]);
    assert p != WaitRead(false) && p != WaitWrite(false);
    HavingAfterMove(s, t, p, s'.lock, WaitRead(false));
    HavingAfterMove(s, t, p, s'.lock, WaitWrite(false));
  }

  // A test either lets a thread enter or puts it back to sleep.
  lemma {:induction false} RetestDrains(s: System, t: nat)
    requires Inv(s) && Enabled(s, Retest(t))
    ensures Work(Step(s, Retest(t))) < Work(s)
  {
    var s' := Step(s, Retest(t));
    RetestWoken(s, t);
    RetestKeepsInv(s, t);
    PendingCounted(s);
    PendingCounted(s');
    WokenBound(s');
    WorkDrops(Pending(s'), Pending(s), |s.phase|, Woken(s'), Woken(s));
  }

  lemma {:induction false} ReleaseDrains(s: System, t: nat, woken: set<nat>)
    requires Inv(s) && Enabled(s, Release(t, woken))
    ensures Work(Step(s, Release(t, woken))) < Work(s)
  {
    var s' := Step(s, Release(t, woken));
    ReleaseKeepsInv(s, t, woken);
    Present(s, t);
    PendingCounted(s);
    PendingCounted(s');
    assert s'.phase.Keys == s.phase.Keys;
    WokenBound(s');
    WorkDrops(Pending(s'), Pending(s), |s.phase|, Woken(s'), Woken(s));
  }

  lemma {:induction false} WorkDrops(p': nat, p: nat, n: nat, w': nat, w: nat)
    requires (p' < p && w' <= n) || (p' == p && w' < w)
    ensures Times(p', n + 1) + w' < Times(p, n + 1) + w
  {
    if p' < p {
      TimesGrows(p', p - 1, n + 1);
    }
  }

  lemma {:induction false} TimesGrows(p': nat, p: nat, n: nat)
    requires p' <= p
    ensures Times(p', n) <= Times(p, n)
  {
    if p' < p {
      TimesGrows(p', p - 1, n);
    }
  }

  lemma {:induction false} InternalStepsDrain(s: System, e: Event)
    requires Inv(s) && Enabled(s, e) && Internal(e)
    ensures Work(Step(s, e)) < Work(s)
  {
    match e
    case Retest(t) => RetestDrains(s, t);
    case Release(t, woken) => ReleaseDrains(s, t, woken);
  }

  lemma {:induction false} PendingCounted(s: System)
    requires Counted(s)
    ensures Pending(s) == 2 * s.lock.waitingReaders + 2 * s.lock.waitingWriters
                          + s.lock.activeReaders + s.lock.activeWriters
  {
  }

  lemma {:induction false} SomeInternalStep(s: System)
    requires Inv(s) && !AllIdle(s)
    ensures exists e :: Internal(e) && Enabled(s, e)
  {
    var t :| t in s.phase && s.phase[t] != Idle;
    Present(s, t);
    if Free(s) {
      WaiterCanEnter(s, t);
      var u :| CanEnter(s, u);
      assert Internal(Retest(u)) && Enabled(s, Retest(u));
    } else {
      var u :| u in Having(s, Reading) + Having(s, Writing);
      var e := Release(u, Having(s, WaitRead(true)));
      assert Internal(e) && Enabled(s, e);
    }
  }

  // A continuation of internal steps from s.
  ghost predicate Continues(s: System, run: seq<System>, events: seq<Event>) {
    && |run| == |events| + 1 && run[0] == s
    && forall i | 0 <= i < |events| ::
         Internal(events[i]) && Enabled(run[i], events[i]) && run[i + 1] == Step(run[i], events[i])
  }

  // No starvation once arrivals stop: whatever the scheduler does, internal
  // steps run out, and they run out only when every thread has got the lock
  // it waited for and given it back.
  lemma {:induction false} Drains(s: System, run: seq<System>, events: seq<Event>)
    requires Inv(s) && Continues(s, run, events)
    ensures Inv(run[|events|]) && Work(run[|events|]) + |events| <= Work(s)
    ensures AllIdle(run[|events|]) || exists e :: Internal(e) && Enabled(run[|events|], e)
    decreases |events|
  {
    var n := |events|;
    if n > 0 {
      var run', events' := run[..n], events[..n - 1];
      assert Continues(s, run', events');
      Drains(s, run', events');
      assert run'[n - 1] == run[n - 1];
      StepKeepsInv(run[n - 1], events[n - 1]);
      InternalStepsDrain(run[n - 1], events[n - 1]);
    }
    if !AllIdle(run[n]) {
      SomeInternalStep(run[n]);
    }
  }
}
