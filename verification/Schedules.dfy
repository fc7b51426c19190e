// The configuration line over whole runs: bytes arrive in chunks of any size,
// with calls of the transaction routine in between.
module Schedules {
  import opened Wire
  import opened Configs
  import opened Protocol
  import Orders

  // The text queue, the connection, and whether the program is still there.
  datatype Line = Line(kept: Bytes, offset: nat, session: Session, alive: bool)
  {
    ghost predicate Valid() {
      offset <= |kept|
    }

    function Pending(): Bytes
      requires offset <= |kept|
    {
      kept[offset..]
    }
  }

  datatype Event = Arrive(bytes: Bytes) | Transact

  // The loop calls the transaction routine as long as the connection goes on. A
  // complete transaction is committed, an incomplete one rolled back; after an
  // unknown opcode neither happens.
  function Transacted(m: Machine, l: Line): (r: Line)
    requires l.Valid()
    ensures r.Valid()
  {
    if !l.alive || !l.session.running then l
    else
      match Transaction(m, l.session, l.Pending())
      case Completed(s, rest) => Line(rest, 0, s, true)
      case Waiting => l.(offset := 0)
      case Unknown(after) =>
        TransactionShrinks(m, l.session, l.Pending());
        Line(l.kept, |l.kept| - |after|, Reply(l.session, UNKNOWN_OPCODE, []), true)
      case Crashed => l.(offset := 0, alive := false)
  }

  function Happened(m: Machine, l: Line, e: Event): (r: Line)
    requires l.Valid()
    ensures r.Valid()
  {
    match e
    case Arrive(bytes) => l.(kept := l.kept + bytes)
    case Transact => Transacted(m, l)
  }

  function Run(m: Machine, l: Line, events: seq<Event>): (r: Line)
    requires l.Valid()
    ensures r.Valid()
    decreases |events|
  {
    if events == [] then l else Run(m, Happened(m, l, events[0]), events[1..])
  }

  function Delivered(events: seq<Event>): Bytes {
    if events == [] then []
    else if events[0].Arrive? then events[0].bytes + Delivered(events[1..])
    else Delivered(events[1..])
  }

  function Start(s: Session): (l: Line)
    ensures l.Valid()
  {
    Line([], 0, s, true)
  }

  // All transactions in the bytes, one after the other, as far as they go.
  function Drained(m: Machine, s: Session, input: Bytes): Line
    decreases |input|
  {
    if !s.running then Line(input, 0, s, true)
    else
      match Transaction(m, s, input)
      case Completed(s', rest) => (TransactionShrinks(m, s, input); Drained(m, s', rest))
      case Waiting => Line(input, 0, s, true)
      case Unknown(_) => Line(input, 0, s, true)
      case Crashed => Line(input, 0, s, false)
  }

  // No unknown opcode comes up at the start of a transaction.
  predicate OpcodesKnown(m: Machine, s: Session, input: Bytes)
    decreases |input|
  {
    s.running ==>
      match Transaction(m, s, input)
      case Completed(s', rest) => (TransactionShrinks(m, s, input); OpcodesKnown(m, s', rest))
      case Unknown(_) => false
      case _ => true
  }

  // The line after some more of the bytes, from where it stands.
  function Continued(m: Machine, l: Line, more: Bytes): Line {
    if !l.alive then l.(kept := l.kept + more) else Drained(m, l.session, l.kept + more)
  }

  // Draining a part first and the rest later comes to the same.
  lemma {:induction false} DrainedInParts(m: Machine, s: Session, input: Bytes, more: Bytes)
    requires OpcodesKnown(m, s, input)
    ensures Continued(m, Drained(m, s, input), more) == Drained(m, s, input + more)
    ensures OpcodesKnown(m, s, input + more) <==>
              (var l := Drained(m, s, input); !l.alive || OpcodesKnown(m, l.session, l.kept + more))
    decreases |input|
  {
    TransactionStable(m, s, input, more);
    if s.running {
      match Transaction(m, s, input)
      case Completed(s', rest) =>
        TransactionShrinks(m, s, input);
        DrainedInParts(m, s', rest, more);
      case _ =>
    }
  }

  // Draining the line as it is.
  function Settled(m: Machine, l: Line): Line {
    Continued(m, l, [])
  }

  // Whatever the chunks and whenever the transaction routine ran, the line can
  // still settle only where it would have, had all bytes come at once.
  lemma {:induction false} RunSettles(m: Machine, l: Line, events: seq<Event>)
    requires l.offset == 0 && (l.alive ==> OpcodesKnown(m, l.session, l.kept + Delivered(events)))
    ensures var r := Run(m, l, events); r.offset == 0 && Settled(m, r) == Continued(m, l, Delivered(events))
    ensures var r := Run(m, l, events); r.alive ==> OpcodesKnown(m, r.session, r.kept)
    decreases |events|
  {
    var t := Delivered(events);
    if events == [] {
      assert l.kept + [] == l.kept;
    } else {
      var l' := Happened(m, l, events[0]);
      var t' := Delivered(events[1..]);
      match events[0]
      case Arrive(bytes) =>
        assert l.kept + t == l'.kept + t';
        RunSettles(m, l', events[1..]);
      case Transact =>
        TransactKeepsFuture(m, l, t);
        RunSettles(m, l', events[1..]);
    }
  }

  lemma {:induction false} TransactKeepsFuture(m: Machine, l: Line, t: Bytes)
    requires l.offset == 0 && (l.alive ==> OpcodesKnown(m, l.session, l.kept + t))
    ensures Transacted(m, l).offset == 0 && Continued(m, Transacted(m, l), t) == Continued(m, l, t)
    ensures var r := Transacted(m, l); r.alive ==> OpcodesKnown(m, r.session, r.kept + t)
  {
    assert l.kept[0..] == l.kept;
    if l.alive {
      TransactionStable(m, l.session, l.kept, t);
    }
  }

  // A drained line lacks bytes, unless the connection has ended or the program.
  lemma {:induction false} DrainedRests(m: Machine, s: Session, input: Bytes)
    requires OpcodesKnown(m, s, input)
    ensures var l := Drained(m, s, input);
            l.offset == 0 && (l.alive && l.session.running ==> Transaction(m, l.session, l.kept) == Waiting)
    ensures s.sent <= Drained(m, s, input).session.sent
    decreases |input|
  {
    if s.running {
      match Transaction(m, s, input)
      case Completed(s', rest) =>
        SentGrows(m, s, input);
        TransactionShrinks(m, s, input);
        DrainedRests(m, s', rest);
      case _ =>
    }
  }

  // Replies are only ever added, and a completed transaction is answered.
  lemma {:induction false} SentGrows(m: Machine, s: Session, input: Bytes)
    requires Transaction(m, s, input).Completed?
    ensures s.sent < Transaction(m, s, input).session.sent
  {
    var rest := ParseInt(input).rest;
    var op := FindOperation(ParseInt(input).value, OPERATIONS).value;
    var p := ParseAll(m, s.last, op.params, rest);
    HandlerReplies(m, s, op.handler, p.value, p.rest);
  }

  lemma {:induction false} ChainReplies(m: Machine, s: Session, h: Handler, v: seq<Value>, rest: Bytes)
    requires |v| >= 2 && HandleChain(m, s, h, v, rest).Completed?
    ensures s.sent < HandleChain(m, s, h, v, rest).session.sent
  {
    var c := NumberIn(v[0]);
    if 0 <= c < |s.data| {
      if h.HSetMoveProbs? {
        MoveProbsReplies(m, s, c, NatIn(v[1]), if |v| < 3 then 0 else NatIn(v[2]), rest);
      } else if OnState(h) {
        StateReplies(s, h, c, v, rest);
      }
    }
  }

  lemma {:induction false} MoveProbsReplies(m: Machine, s: Session, c: nat, numSources: nat, numDests: nat,
                                            input: Bytes)
    requires c < |s.data| && HandleMoveProbs(m, s, c, numSources, numDests, input).Completed?
    ensures s.sent < HandleMoveProbs(m, s, c, numSources, numDests, input).session.sent
  {
  }

  lemma {:induction false} StateReplies(s: Session, h: Handler, c: nat, v: seq<Value>, rest: Bytes)
    requires c < |s.data| && |v| >= 2 && HandleState(s, h, c, v, rest).Completed?
    ensures s.sent < HandleState(s, h, c, v, rest).session.sent
  {
  }

  lemma {:induction false} HandlerReplies(m: Machine, s: Session, h: Handler, v: seq<Value>, rest: Bytes)
    requires Handle(m, s, h, v, rest).Completed?
    ensures s.sent < Handle(m, s, h, v, rest).session.sent
  {
    if h.HClearAll? || h.HEndConnection? || h.HNewChain? {
    } else if |v| >= 2 {
      ChainReplies(m, s, h, v, rest);
    }
  }

  // A call of the transaction routine does a whole transaction or none: only a
  // completed one changes the configuration or gives up bytes, only an unknown
  // opcode leaves the read pointer where it is, four bytes on, and replies are
  // never taken back.
  lemma {:induction false} CallAllOrNothing(m: Machine, l: Line)
    requires l.Valid() && l.alive && l.session.running
    ensures var (o, r) := (Transaction(m, l.session, l.Pending()), Transacted(m, l));
            && l.session.sent <= r.session.sent
            && (if o.Completed? then |r.kept| + 4 <= |l.Pending()|
                else r.kept == l.kept && r.session.data == l.session.data && r.session.last == l.session.last)
            && r.offset == (if o.Unknown? then l.offset + 4 else 0)
            && (r.session.sent == l.session.sent <==> !o.Completed? && !o.Unknown?)
            && (o.Unknown? ==> r.session.sent == l.session.sent + [2, 0, 0, 0])
  {
    var o := Transaction(m, l.session, l.Pending());
    match o
    case Completed(_, _) =>
      TransactionShrinks(m, l.session, l.Pending());
      SentGrows(m, l.session, l.Pending());
    case Unknown(_) =>
      UnknownBehindOpcode(m, l.session, l.Pending());
      SmallInts();
      assert PackInts([]) == [];
    case _ =>
  }

  lemma {:induction false} UnknownBehindOpcode(m: Machine, s: Session, input: Bytes)
    requires Transaction(m, s, input).Unknown?
    ensures |input| >= 4 && Transaction(m, s, input).after == input[4..]
  {
    OperationOutcome(m, s, FindOperation(ParseInt(input).value, OPERATIONS), ParseInt(input).rest);
  }

  lemma {:induction false} OperationOutcome(m: Machine, s: Session, op: Orders.Option<Operation>, rest: Bytes)
    ensures Perform(m, s, op, rest).Unknown? ==> op == Orders.None && Perform(m, s, op, rest).after == rest
  {
  }

  // Chunk independence. Bytes of known opcodes only: whatever their division
  // into chunks and the calls in between, the replies are at any time a part of
  // those that delivering everything at once brings; and when no call changes
  // anything any more, configuration, replies and leftover bytes are the same.
  lemma {:induction false} ChunkIndependence(m: Machine, s: Session, events: seq<Event>)
    requires OpcodesKnown(m, s, Delivered(events))
    ensures var (r, whole) := (Run(m, Start(s), events), Drained(m, s, Delivered(events)));
            && r.offset == 0
            && r.session.sent <= whole.session.sent
            && (Transacted(m, r) == r ==> r == whole)
  {
    var l := Start(s);
    assert l.kept + Delivered(events) == Delivered(events);
    RunSettles(m, l, events);
    var r := Run(m, l, events);
    assert r.kept + [] == r.kept && r.kept[0..] == r.kept;
    if r.alive {
      DrainedRests(m, r.session, r.kept);
      if Transaction(m, r.session, r.kept).Completed? {
        TransactionShrinks(m, r.session, r.kept);
      }
    }
  }

  function Calls(n: nat): (e: seq<Event>)
    ensures |e| == n && forall i | 0 <= i < n :: e[i] == Transact
  {
    if n == 0 then [] else [Transact] + Calls(n - 1)
  }

  lemma {:induction false} RunInParts(m: Machine, l: Line, e1: seq<Event>, e2: seq<Event>)
    requires l.Valid()
    ensures Run(m, l, e1 + e2) == Run(m, Run(m, l, e1), e2)
    ensures Delivered(e1 + e2) == Delivered(e1) + Delivered(e2)
    decreases |e1|
  {
    if e1 == [] {
      assert e1 + e2 == e2;
    } else {
      assert (e1 + e2)[1..] == e1[1..] + e2;
      RunInParts(m, Happened(m, l, e1[0]), e1[1..], e2);
    }
  }

  lemma {:induction false} CallsDeliverNothing(n: nat)
    ensures Delivered(Calls(n)) == []
  {
    if n > 0 {
      assert Calls(n)[1..] == Calls(n - 1);
      CallsDeliverNothing(n - 1);
    }
  }

  // Enough calls do drain the line.
  lemma {:induction false} CallsDrain(m: Machine, s: Session, input: Bytes) returns (n: nat)
    requires OpcodesKnown(m, s, input)
    ensures Run(m, Line(input, 0, s, true), Calls(n)) == Drained(m, s, input)
    decreases |input|
  {
    var l := Line(input, 0, s, true);
    assert input[0..] == input;
    n := 0;
    if s.running {
      match Transaction(m, s, input)
      case Completed(s', rest) =>
        TransactionShrinks(m, s, input);
        var k := CallsDrain(m, s', rest);
        n := k + 1;
        assert Calls(n)[1..] == Calls(k);
      case Crashed =>
        n := 1;
        assert Calls(1)[1..] == [];
      case _ =>
    }
  }

  // ------------------------------------------------------- unknown opcodes

  // At the start of a transaction: just the four bytes of an unknown opcode.
  predicate Stuck(l: Line) {
    && l.alive && l.session.running && l.offset == 0 && |l.kept| == 4
    && FindOperation(IntOf(l.kept), OPERATIONS) == Orders.None
  }

  // One byte more and the line is stuck.
  predicate StuckWith(l: Line, b: Byte) {
    Stuck(l.(kept := l.kept + [b]))
  }

  // Two calls on it send one more error reply and change nothing else.
  lemma {:induction false} StuckRepeats(m: Machine, l: Line, n: nat)
    requires Stuck(l)
    ensures var r := Run(m, l, Calls(2 * n)); Stuck(r) && |r.session.sent| >= |l.session.sent| + 4 * n
    decreases n
  {
    if n > 0 {
      StuckTwice(m, l);
      StuckRepeats(m, Transacted(m, Transacted(m, l)), n - 1);
      assert Calls(2 * n)[1..][1..] == Calls(2 * (n - 1));
    }
  }

  lemma {:induction false} StuckTwice(m: Machine, l: Line)
    requires Stuck(l)
    ensures Transacted(m, l) == Line(l.kept, 4, Reply(l.session, UNKNOWN_OPCODE, []), true)
    ensures var r := Transacted(m, Transacted(m, l)); Stuck(r) && |r.session.sent| >= |l.session.sent| + 4
  {
    assert l.kept[0..] == l.kept && l.kept[..4] == l.kept && l.kept[4..] == [];
    IntRoundTrip(UNKNOWN_OPCODE, []);
    assert Transacted(m, Transacted(m, l)) == Transacted(m, l).(offset := 0);
  }

  // The shortest part of the input that shows an unknown opcode.
  lemma {:induction false} FirstUnknown(m: Machine, s: Session, input: Bytes) returns (n: nat)
    requires !OpcodesKnown(m, s, input)
    ensures n < |input| && OpcodesKnown(m, s, input[..n]) && !OpcodesKnown(m, s, input[..n + 1])
    decreases |input|
  {
    assert input != [] by { assert Transaction(m, s, []) == Waiting; }
    n := |input| - 1;
    assert input[..n + 1] == input;
    if !OpcodesKnown(m, s, input[..n]) {
      var k := FirstUnknown(m, s, input[..n]);
      assert input[..n][..k] == input[..k] && input[..n][..k + 1] == input[..k + 1];
      n := k;
    }
  }

  // One byte completes it: the line is stuck.
  lemma {:induction false} ByteSticks(m: Machine, s: Session, input: Bytes, b: Byte)
    requires OpcodesKnown(m, s, input) && !OpcodesKnown(m, s, input + [b])
    ensures StuckWith(Drained(m, s, input), b)
  {
    var l := Drained(m, s, input);
    DrainedInParts(m, s, input, [b]);
    DrainedRests(m, s, input);
    TransactionStable(m, l.session, l.kept, [b]);
    var o := Transaction(m, l.session, l.kept + [b]);
    assert o == Unknown([]);
    StuckByUnknown(m, l, b);
  }

  lemma {:induction false} StuckByUnknown(m: Machine, l: Line, b: Byte)
    requires l.alive && l.session.running && l.offset == 0
    requires Transaction(m, l.session, l.kept + [b]) == Unknown([])
    ensures StuckWith(l, b)
  {
    UnknownBehindOpcode(m, l.session, l.kept + [b]);
    assert (l.kept + [b])[..4] == l.kept + [b];
    OperationOutcome(m, l.session, FindOperation(IntOf(l.kept + [b]), OPERATIONS), []);
  }

  // All that is needed to drain what has arrived.
  lemma {:induction false} ArriveAndDrain(m: Machine, s: Session, input: Bytes) returns (events: seq<Event>)
    requires OpcodesKnown(m, s, input)
    ensures Delivered(events) == input && Run(m, Start(s), events) == Drained(m, s, input)
  {
    var n := CallsDrain(m, s, input);
    CallsDeliverNothing(n);
    events := [Arrive(input)] + Calls(n);
    assert events[1..] == Calls(n) && Start(s).kept + input == input;
  }

  lemma {:induction false} ArriveAndRepeat(m: Machine, l: Line, b: Byte, n: nat) returns (events: seq<Event>)
    requires l.Valid() && StuckWith(l, b)
    ensures Delivered(events) == [b] && |Run(m, l, events).session.sent| >= 4 * n
  {
    StuckRepeats(m, l.(kept := l.kept + [b]), n);
    CallsDeliverNothing(2 * n);
    events := [Arrive([b])] + Calls(2 * n);
    assert events[1..] == Calls(2 * n);
  }

  lemma {:induction false} ArriveLast(m: Machine, l: Line, events: seq<Event>, bytes: Bytes)
    requires l.Valid()
    ensures Delivered(events + [Arrive(bytes)]) == Delivered(events) + bytes
    ensures Run(m, l, events + [Arrive(bytes)]).session == Run(m, l, events).session
  {
    var e := [Arrive(bytes)];
    RunInParts(m, l, events, e);
    assert e[1..] == [] && Delivered(e) == bytes + [] == bytes;
    var l' := Run(m, l, events);
    assert Run(m, l', e) == Run(m, Happened(m, l', e[0]), []);
  }

  // Where the input gets stuck: behind first, at byte b.
  lemma {:induction false} StickingPoint(m: Machine, s: Session, input: Bytes)
    returns (first: Bytes, b: Byte, others: Bytes)
    requires !OpcodesKnown(m, s, input)
    ensures input == first + ([b] + others) && OpcodesKnown(m, s, first)
    ensures Drained(m, s, first).Valid() && StuckWith(Drained(m, s, first), b)
  {
    var k := FirstUnknown(m, s, input);
    CutAt(input, k);
    first, b, others := input[..k], input[k], input[k + 1..];
    ByteSticks(m, s, first, b);
  }

  lemma {:induction false} CutAt(input: Bytes, k: nat)
    requires k < |input|
    ensures input == input[..k] + ([input[k]] + input[k + 1..]) && input[..k + 1] == input[..k] + [input[k]]
  {
  }

  // Some division into chunks, with some calls, draws at least n replies.
  lemma {:induction false} UnknownAnsweredOften(m: Machine, s: Session, input: Bytes, n: nat)
    returns (events: seq<Event>)
    requires !OpcodesKnown(m, s, input)
    ensures Delivered(events) == input && |Run(m, Start(s), events).session.sent| >= 4 * n
  {
    var first, b, others := StickingPoint(m, s, input);
    var e1 := ArriveAndDrain(m, s, first);
    var l := Drained(m, s, first);
    var e2 := ArriveAndRepeat(m, l, b, n);
    var e := e2 + [Arrive(others)];
    ArriveLast(m, l, e2, others);
    RunInParts(m, Start(s), e1, e);
    events := e1 + e;
  }

  // The replies stay within what some fixed reply string says.
  ghost predicate RepliesBounded(m: Machine, s: Session, input: Bytes, replies: Bytes) {
    forall events: seq<Event> | Delivered(events) == input :: Run(m, Start(s), events).session.sent <= replies
  }

  // The replies to a byte string do not depend on chunks and calls exactly if no
  // unknown opcode comes up in it.
  lemma {:induction false} IndependentIffOpcodesKnown(m: Machine, s: Session, input: Bytes)
    ensures (exists replies :: RepliesBounded(m, s, input, replies)) <==> OpcodesKnown(m, s, input)
  {
    if OpcodesKnown(m, s, input) {
      forall events: seq<Event> | Delivered(events) == input
        ensures Run(m, Start(s), events).session.sent <= Drained(m, s, input).session.sent
      {
        ChunkIndependence(m, s, events);
      }
      assert RepliesBounded(m, s, input, Drained(m, s, input).session.sent);
    } else {
      forall replies ensures !RepliesBounded(m, s, input, replies) {
        var events := UnknownAnsweredOften(m, s, input, |replies| + 1);
        assert |Run(m, Start(s), events).session.sent| > |replies|;
      }
    }
  }
}
