// iface.c, iface_handlers.c: one transaction on the configuration line, as a
// function of the bytes that have arrived.
module Protocol {
  import opened Orders
  import opened Wire
  import opened Configs

  datatype Handler =
    | HNewChain | HNewState | HSetMoveProbs | HSetSource | HSetDest | HSetProtocol | HSetTos
    | HSetLengthMin | HSetLengthMax | HSetWhichLength | HSetDropDelayProb | HSetDelayType
    | HSetSplitLinearPoints | HSetLambda | HSetTimeFactor | HSetStableDelayProb | HClearAll | HEndConnection

  datatype Operation = Operation(opcode: int, params: seq<ParamType>, handler: Handler)

  const OPERATIONS: seq<Operation> := [
    Operation(0x0, [TString], HNewChain),
    Operation(0x1, [TChain, TString], HNewState),
    Operation(0x2, [TChain, TInt, TInt], HSetMoveProbs),
    Operation(0x3, [TChain, TIpFilter], HSetSource),
    Operation(0x4, [TChain, TIpFilter], HSetDest),
    Operation(0x5, [TChain, TInt, TBool], HSetProtocol),
    Operation(0x6, [TChain, TInt, TBool], HSetTos),
    Operation(0x8, [TChain, TInt], HSetLengthMin),
    Operation(0x9, [TChain, TInt], HSetLengthMax),
    Operation(0xA, [TChain, TWhichLength], HSetWhichLength),
    Operation(0xE, [TChain, TState, TProb, TProb], HSetDropDelayProb),
    Operation(0xF, [TChain, TState, TDelayKind], HSetDelayType),
    Operation(0x10, [TChain, TState, TPoints], HSetSplitLinearPoints),
    Operation(0x11, [TChain, TState, TLambda], HSetLambda),
    Operation(0x13, [TChain, TState, TDelay], HSetTimeFactor),
    Operation(0x14, [TChain, TState, TProb], HSetStableDelayProb),
    Operation(0x19, [], HClearAll),
    Operation(0x10000, [], HEndConnection)
  ]

  function CompareOpcodes(opcode: int, op: Operation): int {
    if opcode < op.opcode then -1 else if opcode > op.opcode then 1 else 0
  }

  function FindOperation(opcode: int, table: seq<Operation>): Option<Operation> {
    if table == [] then None
    else if table[0].opcode == opcode then Some(table[0])
    else FindOperation(opcode, table[1..])
  }

  lemma {:induction false} TableSorted()
    ensures |OPERATIONS| == 18
    ensures forall j, k | 0 <= j < k < |OPERATIONS| :: OPERATIONS[j].opcode < OPERATIONS[k].opcode
  {
  }

  lemma {:induction false} FoundAt(table: seq<Operation>, i: nat)
    requires i < |table| && forall j, k | 0 <= j < k < |table| :: table[j].opcode < table[k].opcode
    ensures FindOperation(table[i].opcode, table) == Some(table[i])
    decreases |table|
  {
    if i > 0 {
      assert table[1..][i - 1] == table[i];
      FoundAt(table[1..], i - 1);
    }
  }

  lemma {:induction false} NotFound(opcode: int, table: seq<Operation>)
    requires forall j | 0 <= j < |table| :: table[j].opcode != opcode
    ensures FindOperation(opcode, table) == None
    decreases |table|
  {
    if table != [] {
      assert table[0].opcode != opcode;
      assert forall j | 0 <= j < |table[1..]| :: table[1..][j] == table[j + 1];
      NotFound(opcode, table[1..]);
    }
  }

  // A connection: the copy of the configuration it edits, what it created last,
  // whether it goes on, and the bytes it sent back.
  datatype Session = Session(data: Data, last: Last, running: bool, sent: Bytes)

  // How one call of the transaction routine ends.
  datatype Outcome =
    | Completed(session: Session, rest: Bytes)
    | Waiting
    | Unknown(after: Bytes)
    | Crashed

  function PackInts(ints: seq<int>): Bytes {
    if ints == [] then [] else PackInt(ints[0]) + PackInts(ints[1..])
  }

  function Reply(s: Session, code: int, outs: seq<int>): Session {
    s.(sent := s.sent + (PackInt(code) + PackInts(outs)))
  }

  // ----------------------------------------------------- parameters of a transaction

  function ParseAll(m: Machine, last: Last, types: seq<ParamType>, s: Bytes): Parsed<seq<Value>>
    decreases |types|
  {
    if types == [] then Got([], s)
    else
      match Parse(m, last, types[0], s)
      case Got(value, rest) => Then([value], ParseAll(m, last, types[1..], rest))
      case Short => Short
      case Broken => Broken
  }

  // n states below limit; None as soon as one is not.
  function ParseStates(last: Last, limit: nat, n: nat, s: Bytes): Parsed<Option<seq<int>>> {
    if n == 0 then Got(Some([]), s)
    else
      match ParseState(last, s)
      case Got(index, rest) =>
        if index >= limit then Got(None, rest) else AndThen([index], ParseStates(last, limit, n - 1, rest))
      case Short => Short
      case Broken => Broken
  }

  function AndThen(acc: seq<int>, p: Parsed<Option<seq<int>>>): Parsed<Option<seq<int>>> {
    match p
    case Got(None, rest) => Got(None, rest)
    case Got(Some(more), rest) => Got(Some(acc + more), rest)
    case Short => Short
    case Broken => Broken
  }

  function ParseRow(m: Machine, n: nat, s: Bytes): Parsed<seq<real>> {
    if n == 0 then Got([], s)
    else
      match ParseProb(m, s)
      case Got(p, rest) => Then([p], ParseRow(m, n - 1, rest))
      case Short => Short
      case Broken => Broken
  }

  function ParseTable(m: Machine, n: nat, width: nat, s: Bytes): Parsed<seq<seq<real>>> {
    if n == 0 then Got([], s)
    else
      match ParseRow(m, width, s)
      case Got(row, rest) => Then([row], ParseTable(m, n - 1, width, rest))
      case Short => Short
      case Broken => Broken
  }

  // The union param_t read as the field the handler expects.
  function NumberIn(v: Value): int {
    if v.ANumber? then v.n else 0
  }

  function NameIn(v: Value): Bytes {
    if v.AString? then v.name else []
  }

  function SpecsIn(v: Value): seq<IpSpec> {
    if v.AFilter? then v.specs else []
  }

  function ProbIn(v: Value): real {
    if v.AProb? then v.prob else 0.0
  }

  function PointsIn(v: Value): seq<Point> {
    if v.SomePoints? then v.points else []
  }

  function KindIn(v: Value): DelayKind {
    if v.ADelayKind? then v.kind else NoDelay
  }

  function WhichIn(v: Value): WhichLength {
    if v.AWhichLength? then v.which else DontCare
  }

  function NatIn(v: Value): nat {
    if v.ANumber? && v.n >= 0 then v.n else 0
  }

  // ------------------------------------------------------------------ handlers

  // The handlers that change the filter of a chain.
  function EditFilter(h: Handler, f: Filter, v: seq<Value>): Filter {
    if |v| < 2 then f
    else
      match h
      case HSetSource => f.(source := Some(SpecsIn(v[1])))
      case HSetDest => f.(dest := Some(SpecsIn(v[1])))
      case HSetProtocol => if |v| < 3 then f else f.(protocols := SetBit(f.protocols, NatIn(v[1]), NumberIn(v[2]) != 0))
      case HSetTos => if |v| < 3 then f else f.(tos := SetBit(f.tos, NatIn(v[1]), NumberIn(v[2]) != 0))
      case HSetLengthMin => f.(minLength := NumberIn(v[1]))
      case HSetLengthMax => f.(maxLength := NumberIn(v[1]))
      case HSetWhichLength => f.(which := WhichIn(v[1]))
      case _ => f
  }

  predicate OnState(h: Handler) {
    h in {HSetDropDelayProb, HSetDelayType, HSetSplitLinearPoints, HSetLambda, HSetTimeFactor, HSetStableDelayProb}
  }

  // The handlers that change a state; None where they refuse to.
  function EditState(h: Handler, st: State, v: seq<Value>): Option<State> {
    if |v| < 3 then None
    else
      match h
      case HSetDropDelayProb =>
        if |v| < 4 then None else Some(st.(dropProb := ProbIn(v[2]), delayProb := ProbIn(v[3])))
      case HSetDelayType => Some(st.(delay := WithKind(st.delay, KindIn(v[2]))))
      case HSetSplitLinearPoints =>
        if st.delay.LinearFunction? then Some(st.(delay := LinearFunction(PointsIn(v[2])))) else None
      case HSetLambda => if st.delay.ExpFunction? then Some(st.(delay := ExpFunction(Some(NumberIn(v[2]))))) else None
      case HSetTimeFactor => Some(st.(timeFactor := NumberIn(v[2])))
      case HSetStableDelayProb => Some(st.(stableDelayProb := ProbIn(v[2])))
      case _ => None
  }

  function WithState(data: Data, c: nat, i: nat, st: State): Data
    requires c < |data| && i < |data[c].states|
  {
    data[c := data[c].(states := data[c].states[i := st])]
  }

  // A state index of -1 (there is no last state yet) leads outside the array.
  function HandleState(s: Session, h: Handler, c: nat, v: seq<Value>, rest: Bytes): Outcome
    requires c < |s.data| && |v| >= 2
  {
    var i := NumberIn(v[1]);
    if i >= |s.data[c].states| then Completed(Reply(s, INDEX_OUT_OF_RANGE, []), rest)
    else if i < 0 then Crashed
    else
      match EditState(h, s.data[c].states[i], v)
      case Some(st) => Completed(Reply(s.(data := WithState(s.data, c, i, st)), OK, []), rest)
      case None => Completed(Reply(s, POINTS_ON_OTHER_TYPE, []), rest)
  }

  // The double loop of set_move_probs, unless it would write outside a row.
  function WriteProbs(states: seq<State>, sources: seq<int>, dests: seq<int>,
                      rows: seq<seq<real>>): Option<seq<State>> {
    if sources == [] || dests == [] then Some(states)
    else if Square(states) && InRange(sources, |states|) && InRange(dests, |states|) && Table(rows, sources, dests) then
      Some(WriteRows(states, sources, dests, rows))
    else None
  }

  // set_move_probs reads the rest of its input itself: the sources,
  function HandleMoveProbs(m: Machine, s: Session, c: nat, numSources: nat, numDests: nat, input: Bytes): Outcome
    requires c < |s.data|
  {
    match ParseStates(s.last, |s.data[c].states|, numSources, input)
    case Short => Waiting
    case Broken => Crashed
    case Got(None, rest) => Completed(Reply(s, INDEX_OUT_OF_RANGE, []), rest)
    case Got(Some(sources), rest) => HandleDests(m, s, c, sources, numDests, rest)
  }

  // the destinations
  function HandleDests(m: Machine, s: Session, c: nat, sources: seq<int>, numDests: nat, input: Bytes): Outcome
    requires c < |s.data|
  {
    match ParseStates(s.last, |s.data[c].states|, numDests, input)
    case Short => Waiting
    case Broken => Crashed
    case Got(None, rest) => Completed(Reply(s, INDEX_OUT_OF_RANGE, []), rest)
    case Got(Some(dests), rest) => HandleTable(m, s, c, sources, dests, rest)
  }

  // and the probabilities.
  function HandleTable(m: Machine, s: Session, c: nat, sources: seq<int>, dests: seq<int>, input: Bytes): Outcome
    requires c < |s.data|
  {
    match ParseTable(m, |sources|, |dests|, input)
    case Short => Waiting
    case Broken => Crashed
    case Got(rows, rest) => FinishMoveProbs(s, c, WriteProbs(s.data[c].states, sources, dests, rows), rest)
  }

  function FinishMoveProbs(s: Session, c: nat, states: Option<seq<State>>, rest: Bytes): Outcome
    requires c < |s.data|
  {
    match states
    case Some(states) => Completed(Reply(s.(data := s.data[c := s.data[c].(states := states)]), OK, []), rest)
    case None => Crashed
  }

  function HandleChain(m: Machine, s: Session, h: Handler, v: seq<Value>, rest: Bytes): Outcome
    requires |v| >= 2
  {
    var c := NumberIn(v[0]);
    if c >= |s.data| then Completed(Reply(s, INDEX_OUT_OF_RANGE, if h.HNewState? then [m.stale] else []), rest)
    else if c < 0 then Crashed
    else if h.HNewState? then
      var n := |s.data[c].states|;
      var s' := s.(data := s.data[c := AddState(s.data[c], NameIn(v[1]))], last := s.last.(state := n));
      Completed(Reply(s', OK, [n]), rest)
    else if h.HSetMoveProbs? then
      (if |v| < 3 then Crashed else HandleMoveProbs(m, s, c, NatIn(v[1]), NatIn(v[2]), rest))
    else if OnState(h) then HandleState(s, h, c, v, rest)
    else
      Completed(Reply(s.(data := s.data[c := s.data[c].(filter := EditFilter(h, s.data[c].filter, v))]), OK, []), rest)
  }

  function Handle(m: Machine, s: Session, h: Handler, v: seq<Value>, rest: Bytes): Outcome {
    match h
    case HClearAll => Completed(Reply(s.(data := []), OK, []), rest)
    case HEndConnection => Completed(Reply(s.(running := false), OK, []), rest)
    case HNewChain =>
      if |v| < 1 then Crashed
      else
        var n := |s.data|;
        Completed(Reply(s.(data := s.data + [ChainAlloc(NameIn(v[0]))], last := Last(n, -1)), OK, [n]), rest)
    case _ => if |v| < 2 then Crashed else HandleChain(m, s, h, v, rest)
  }

  // ------------------------------------------------------------- the answers

  // The handler refuses the state's function: points for one that is not
  // split-linear, a rate for one that is not exponential.
  predicate WrongFunction(h: Handler, st: State) {
    || (h == HSetSplitLinearPoints && !st.delay.LinearFunction?)
    || (h == HSetLambda && !st.delay.ExpFunction?)
  }

  // The values a handler needs.
  predicate Supplied(h: Handler, v: seq<Value>) {
    |v| >= if h == HSetDropDelayProb then 4 else 3
  }

  lemma {:induction false} SmallInts()
    ensures PackInt(0) == [0, 0, 0, 0] && PackInt(2) == [2, 0, 0, 0]
    ensures PackInt(3) == [3, 0, 0, 0] && PackInt(4) == [4, 0, 0, 0]
  {
    PackSmallInt(0);
    PackSmallInt(2);
    PackSmallInt(3);
    PackSmallInt(4);
  }

  // The session s' is s but for a reply of this return value, and perhaps one index.
  predicate Refused(s: Session, s': Session, code: Bytes, outs: Bytes) {
    s' == s.(sent := s.sent + (code + outs))
  }

  // A chain index out of range is answered 3, and nothing changes.
  lemma {:induction false} NoSuchChain(m: Machine, s: Session, h: Handler, v: seq<Value>, rest: Bytes)
    requires |v| >= 2 && NumberIn(v[0]) >= |s.data| && h != HClearAll && h != HEndConnection && h != HNewChain
    ensures var o := Handle(m, s, h, v, rest);
            && o.Completed? && o.rest == rest
            && Refused(s, o.session, [3, 0, 0, 0], if h == HNewState then PackInt(m.stale) else [])
  {
    SmallInts();
    assert PackInts([m.stale]) == PackInt(m.stale) + [] == PackInt(m.stale);
  }

  // A handler on a state answers 3 to a state index out of range and 4 to a wrong
  // function, changing nothing, and else 0.
  lemma {:induction false} StateAnswers(m: Machine, s: Session, h: Handler, v: seq<Value>, rest: Bytes)
    requires OnState(h) && Supplied(h, v) && 0 <= NumberIn(v[0]) < |s.data| && NumberIn(v[1]) >= 0
    ensures var (o, c, i) := (Handle(m, s, h, v, rest), NumberIn(v[0]), NumberIn(v[1]));
            && o.Completed? && o.rest == rest
            && (i >= |s.data[c].states| ==> Refused(s, o.session, [3, 0, 0, 0], []))
            && (i < |s.data[c].states| && WrongFunction(h, s.data[c].states[i]) ==>
                  Refused(s, o.session, [4, 0, 0, 0], []))
            && (i < |s.data[c].states| && !WrongFunction(h, s.data[c].states[i]) ==>
                  o.session.sent == s.sent + [0, 0, 0, 0])
  {
    SmallInts();
    assert PackInts([]) == [];
  }

  // The other handlers but set_move_probs answer 0, and the index of what they made.
  lemma {:induction false} OthersAnswer(m: Machine, s: Session, h: Handler, v: seq<Value>, rest: Bytes)
    requires h == HClearAll || h == HEndConnection || (h == HNewChain && |v| >= 1)
             || (|v| >= 2 && 0 <= NumberIn(v[0]) < |s.data| && !OnState(h) && h != HSetMoveProbs)
    ensures var o := Handle(m, s, h, v, rest);
            && o.Completed? && o.rest == rest
            && o.session.sent
               == s.sent + ([0, 0, 0, 0]
                            + if h == HNewChain then PackInt(|s.data|)
                              else if h == HNewState then PackInt(|s.data[NumberIn(v[0])].states|) else [])
  {
    SmallInts();
    var n := if h == HNewChain then |s.data| else if h == HNewState then |s.data[NumberIn(v[0])].states| else 0;
    assert PackInts([n]) == PackInt(n) + [] == PackInt(n);
  }

  // Among the sources or the destinations is a state index out of range.
  predicate IndexOutOfRange(last: Last, n: nat, numSources: nat, numDests: nat, input: Bytes) {
    var sources := ParseStates(last, n, numSources, input);
    && sources.Got?
    && (sources.value == None
        || (var dests := ParseStates(last, n, numDests, sources.rest); dests.Got? && dests.value == None))
  }

  // set_move_probs answers 3 if it finds a state index out of range, changing
  // nothing, and else 0.
  lemma {:induction false} MoveProbsAnswer(m: Machine, s: Session, c: nat, numSources: nat, numDests: nat, input: Bytes)
    requires c < |s.data| && HandleMoveProbs(m, s, c, numSources, numDests, input).Completed?
    ensures var o := HandleMoveProbs(m, s, c, numSources, numDests, input);
            if IndexOutOfRange(s.last, |s.data[c].states|, numSources, numDests, input)
            then Refused(s, o.session, [3, 0, 0, 0], [])
            else o.session.sent == s.sent + [0, 0, 0, 0]
  {
    SmallInts();
    assert PackInts([]) == [];
  }

  // Once the opcode is looked up: the parameters, then the handler.
  function Perform(m: Machine, s: Session, op: Option<Operation>, input: Bytes): Outcome {
    match op
    case None => Unknown(input)
    case Some(op) =>
      match ParseAll(m, s.last, op.params, input)
      case Short => Waiting
      case Broken => Crashed
      case Got(values, rest) => Handle(m, s, op.handler, values, rest)
  }

  // ip_noise_arbitrator_iface_transact on the bytes from the read pointer on.
  function Transaction(m: Machine, s: Session, input: Bytes): Outcome {
    match ParseInt(input)
    case Short => Waiting
    case Broken => Crashed
    case Got(opcode, rest) => Perform(m, s, FindOperation(opcode, OPERATIONS), rest)
  }

  // ------------------------------------------------ what every transaction keeps

  // In every chain each state has one move probability per state, and the bit
  // masks have their sizes.
  ghost predicate WellFormed(data: Data) {
    forall c | 0 <= c < |data| :: WellFormedChain(data[c])
  }

  ghost predicate WellFormedChain(chain: Chain) {
    Square(chain.states) && |chain.filter.protocols| == 32 && |chain.filter.tos| == 8
  }

  lemma {:induction false} MoveProbsKeepWellFormed(m: Machine, s: Session, c: nat, numSources: nat, numDests: nat,
                                                   input: Bytes)
    requires c < |s.data| && WellFormed(s.data)
    ensures var o := HandleMoveProbs(m, s, c, numSources, numDests, input); o.Completed? ==> WellFormed(o.session.data)
  {
  }

  lemma {:induction false} StateKeepsWellFormed(s: Session, h: Handler, c: nat, v: seq<Value>, rest: Bytes)
    requires c < |s.data| && |v| >= 2 && WellFormed(s.data) && OnState(h)
    ensures var o := HandleState(s, h, c, v, rest); o.Completed? ==> WellFormed(o.session.data)
  {
  }

  lemma {:induction false} ChainKeepsWellFormed(m: Machine, s: Session, h: Handler, v: seq<Value>, rest: Bytes)
    requires |v| >= 2 && WellFormed(s.data) && HandleChain(m, s, h, v, rest).Completed?
    ensures WellFormed(HandleChain(m, s, h, v, rest).session.data)
  {
    var c := NumberIn(v[0]);
    if 0 <= c < |s.data| {
      assert WellFormedChain(s.data[c]);
      if h.HSetMoveProbs? {
        MoveProbsKeepWellFormed(m, s, c, NatIn(v[1]), if |v| > 2 then NatIn(v[2]) else 0, rest);
      } else if OnState(h) {
        StateKeepsWellFormed(s, h, c, v, rest);
      }
    }
  }

  lemma {:induction false} HandlerKeepsWellFormed(m: Machine, s: Session, h: Handler, v: seq<Value>, rest: Bytes)
    requires WellFormed(s.data) && Handle(m, s, h, v, rest).Completed?
    ensures WellFormed(Handle(m, s, h, v, rest).session.data)
  {
    if h.HClearAll? || h.HEndConnection? || h.HNewChain? {
    } else if |v| >= 2 {
      ChainKeepsWellFormed(m, s, h, v, rest);
    }
  }

  // Whatever arrives on the line, the configuration stays well-formed.
  lemma {:induction false} TransactionKeepsWellFormed(m: Machine, s: Session, input: Bytes)
    requires WellFormed(s.data) && Transaction(m, s, input).Completed?
    ensures WellFormed(Transaction(m, s, input).session.data)
  {
    var p := ParseInt(input);
    var op := FindOperation(p.value, OPERATIONS).value;
    var q := ParseAll(m, s.last, op.params, p.rest);
    HandlerKeepsWellFormed(m, s, op.handler, q.value, q.rest);
  }

  // --------------------------------------- more bytes never change a transaction

  // The outcome o' with t arrived as well agrees with the outcome o without it;
  // and if o lacked bytes, o' takes some of t.
  ghost predicate AgreesWith(o: Outcome, o': Outcome, t: Bytes) {
    match o
    case Completed(s, rest) => o' == Completed(s, rest + t)
    case Waiting => o'.Completed? || o'.Unknown? ==> |Left(o')| < |t|
    case Unknown(after) => o' == Unknown(after + t)
    case Crashed => o' == Crashed
  }

  lemma {:induction false} AllStable(m: Machine, last: Last, types: seq<ParamType>, s: Bytes, t: Bytes)
    ensures Agrees(ParseAll(m, last, types, s), ParseAll(m, last, types, s + t), t)
    decreases |types|
  {
    if types != [] {
      ParseStable(m, last, types[0], s, t);
      var p := Parse(m, last, types[0], s);
      if p.Got? {
        AllStable(m, last, types[1..], p.rest, t);
      }
      var q := Parse(m, last, types[0], s + t);
      if q.Got? {
        AllShrinks(m, last, types[1..], q.rest);
      }
    }
  }

  lemma {:induction false} StatesStable(last: Last, limit: nat, n: nat, s: Bytes, t: Bytes)
    ensures Agrees(ParseStates(last, limit, n, s), ParseStates(last, limit, n, s + t), t)
  {
    if n > 0 {
      StateStable(last, s, t);
      var p := ParseState(last, s);
      if p.Got? {
        StatesStable(last, limit, n - 1, p.rest, t);
      }
      var q := ParseState(last, s + t);
      if q.Got? {
        StatesShrink(last, limit, n - 1, q.rest);
      }
    }
  }

  lemma {:induction false} RowStable(m: Machine, n: nat, s: Bytes, t: Bytes)
    ensures Agrees(ParseRow(m, n, s), ParseRow(m, n, s + t), t)
  {
    if n > 0 {
      ProbStable(m, s, t);
      if |s| >= 8 {
        RowStable(m, n - 1, s[8..], t);
      }
      if |s + t| >= 8 {
        RowShrinks(m, n - 1, (s + t)[8..]);
      }
    }
  }

  lemma {:induction false} TableStable(m: Machine, n: nat, width: nat, s: Bytes, t: Bytes)
    ensures Agrees(ParseTable(m, n, width, s), ParseTable(m, n, width, s + t), t)
  {
    if n > 0 {
      RowStable(m, width, s, t);
      var p := ParseRow(m, width, s);
      if p.Got? {
        TableStable(m, n - 1, width, p.rest, t);
      }
      var q := ParseRow(m, width, s + t);
      if q.Got? {
        TableShrinks(m, n - 1, width, q.rest);
      }
    }
  }

  lemma {:induction false} MoveProbsStable(m: Machine, s: Session, c: nat, numSources: nat, numDests: nat,
                                           input: Bytes, t: Bytes)
    requires c < |s.data|
    ensures AgreesWith(HandleMoveProbs(m, s, c, numSources, numDests, input),
                       HandleMoveProbs(m, s, c, numSources, numDests, input + t), t)
  {
    var n := |s.data[c].states|;
    StatesStable(s.last, n, numSources, input, t);
    var (p, q) := (ParseStates(s.last, n, numSources, input), ParseStates(s.last, n, numSources, input + t));
    if p.Got? && p.value.Some? {
      DestsStable(m, s, c, p.value.value, numDests, p.rest, t);
    }
    if q.Got? && q.value.Some? {
      DestsShrink(m, s, c, q.value.value, numDests, q.rest);
    }
  }

  lemma {:induction false} DestsStable(m: Machine, s: Session, c: nat, sources: seq<int>, numDests: nat,
                                       input: Bytes, t: Bytes)
    requires c < |s.data|
    ensures AgreesWith(HandleDests(m, s, c, sources, numDests, input),
                       HandleDests(m, s, c, sources, numDests, input + t), t)
  {
    var n := |s.data[c].states|;
    StatesStable(s.last, n, numDests, input, t);
    var (p, q) := (ParseStates(s.last, n, numDests, input), ParseStates(s.last, n, numDests, input + t));
    if p.Got? && p.value.Some? {
      TableStable(m, |sources|, |p.value.value|, p.rest, t);
    }
    if q.Got? && q.value.Some? {
      TableShrinks(m, |sources|, |q.value.value|, q.rest);
    }
  }

  lemma {:induction false} HandleStable(m: Machine, s: Session, h: Handler, v: seq<Value>, rest: Bytes, t: Bytes)
    ensures AgreesWith(Handle(m, s, h, v, rest), Handle(m, s, h, v, rest + t), t)
  {
    if h.HSetMoveProbs? && |v| >= 3 && 0 <= NumberIn(v[0]) < |s.data| {
      MoveProbsStable(m, s, NumberIn(v[0]), NatIn(v[1]), NatIn(v[2]), rest, t);
    }
  }

  // Once the bytes of a transaction are there, whatever arrives behind them
  // changes neither what it does nor how many bytes it takes.
  lemma {:induction false} TransactionStable(m: Machine, s: Session, input: Bytes, t: Bytes)
    ensures AgreesWith(Transaction(m, s, input), Transaction(m, s, input + t), t)
  {
    IntStable(input, t);
    var p := ParseInt(input);
    if p.Got? {
      OperationStable(m, s, FindOperation(p.value, OPERATIONS), p.rest, t);
    } else if ParseInt(input + t).Got? {
      var q := ParseInt(input + t);
      OperationShrinks(m, s, FindOperation(q.value, OPERATIONS), q.rest);
    }
  }

  lemma {:induction false} OperationStable(m: Machine, s: Session, op: Option<Operation>, input: Bytes, t: Bytes)
    ensures AgreesWith(Perform(m, s, op, input), Perform(m, s, op, input + t), t)
  {
    if op.Some? {
      var (types, h) := (op.value.params, op.value.handler);
      AllStable(m, s.last, types, input, t);
      var (p, q) := (ParseAll(m, s.last, types, input), ParseAll(m, s.last, types, input + t));
      if p.Got? {
        HandleStable(m, s, h, p.value, p.rest, t);
      } else if q.Got? {
        HandleShrinks(m, s, h, q.value, q.rest);
      }
    }
  }

  // ---------------------------------------------- a transaction takes its bytes

  lemma {:induction false} AllShrinks(m: Machine, last: Last, types: seq<ParamType>, s: Bytes)
    ensures ParseAll(m, last, types, s).Got? ==> |ParseAll(m, last, types, s).rest| <= |s|
    decreases |types|
  {
    if types != [] {
      ParseShrinks(m, last, types[0], s);
      var p := Parse(m, last, types[0], s);
      if p.Got? {
        AllShrinks(m, last, types[1..], p.rest);
      }
    }
  }

  lemma {:induction false} StatesShrink(last: Last, limit: nat, n: nat, s: Bytes)
    ensures ParseStates(last, limit, n, s).Got? ==> |ParseStates(last, limit, n, s).rest| <= |s|
  {
    if n > 0 && ParseState(last, s).Got? {
      StatesShrink(last, limit, n - 1, ParseState(last, s).rest);
    }
  }

  lemma {:induction false} RowShrinks(m: Machine, n: nat, s: Bytes)
    ensures ParseRow(m, n, s).Got? ==> |ParseRow(m, n, s).rest| <= |s|
  {
    if n > 0 && |s| >= 8 {
      RowShrinks(m, n - 1, s[8..]);
    }
  }

  lemma {:induction false} TableShrinks(m: Machine, n: nat, width: nat, s: Bytes)
    ensures ParseTable(m, n, width, s).Got? ==> |ParseTable(m, n, width, s).rest| <= |s|
  {
    if n > 0 {
      RowShrinks(m, width, s);
      if ParseRow(m, width, s).Got? {
        TableShrinks(m, n - 1, width, ParseRow(m, width, s).rest);
      }
    }
  }

  // What is left after a transaction, if it was complete or of unknown opcode.
  function Left(o: Outcome): Bytes {
    match o
    case Completed(_, rest) => rest
    case Unknown(after) => after
    case _ => []
  }

  lemma {:induction false} DestsShrink(m: Machine, s: Session, c: nat, sources: seq<int>, numDests: nat, input: Bytes)
    requires c < |s.data|
    ensures |Left(HandleDests(m, s, c, sources, numDests, input))| <= |input|
  {
    StatesShrink(s.last, |s.data[c].states|, numDests, input);
    var p := ParseStates(s.last, |s.data[c].states|, numDests, input);
    if p.Got? && p.value.Some? {
      TableShrinks(m, |sources|, |p.value.value|, p.rest);
    }
  }

  lemma {:induction false} MoveProbsShrinks(m: Machine, s: Session, c: nat, numSources: nat, numDests: nat,
                                            input: Bytes)
    requires c < |s.data|
    ensures |Left(HandleMoveProbs(m, s, c, numSources, numDests, input))| <= |input|
  {
    StatesShrink(s.last, |s.data[c].states|, numSources, input);
    var p := ParseStates(s.last, |s.data[c].states|, numSources, input);
    if p.Got? && p.value.Some? {
      DestsShrink(m, s, c, p.value.value, numDests, p.rest);
    }
  }

  lemma {:induction false} HandleShrinks(m: Machine, s: Session, h: Handler, v: seq<Value>, rest: Bytes)
    ensures |Left(Handle(m, s, h, v, rest))| <= |rest|
  {
    if h.HSetMoveProbs? && |v| >= 3 && 0 <= NumberIn(v[0]) < |s.data| {
      MoveProbsShrinks(m, s, NumberIn(v[0]), NatIn(v[1]), NatIn(v[2]), rest);
    }
  }

  lemma {:induction false} OperationShrinks(m: Machine, s: Session, op: Option<Operation>, input: Bytes)
    ensures |Left(Perform(m, s, op, input))| <= |input|
  {
    if op.Some? {
      AllShrinks(m, s.last, op.value.params, input);
      var p := ParseAll(m, s.last, op.value.params, input);
      if p.Got? {
        HandleShrinks(m, s, op.value.handler, p.value, p.rest);
      }
    }
  }

  lemma {:induction false} TransactionShrinks(m: Machine, s: Session, input: Bytes)
    requires Transaction(m, s, input).Completed? || Transaction(m, s, input).Unknown?
    ensures |Left(Transaction(m, s, input))| + 4 <= |input|
  {
    var p := ParseInt(input);
    OperationShrinks(m, s, FindOperation(p.value, OPERATIONS), p.rest);
  }
}
