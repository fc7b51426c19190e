// Translator.pm: the transactions as they are packed and sent, and what the
// arbitrator makes of each.
module Translator {
  import opened Orders
  import opened Wire
  import opened Configs
  import opened Protocol
  import opened Schedules

  datatype Name =
    | ClearAll | NewChain | EndConnection | NewState | SetMoveProbs | SetSource | SetDest | SetProtocol | SetTos
    | SetMinPacketLength | SetMaxPacketLength | SetWhichPacketLength | SetDropDelayProb | SetDelayType
    | SetSplitLinearPoints | SetLambda | SetTimeFactor | SetStableDelayProb | DeleteState | DeleteChain

  function Opcode(name: Name): int {
    match name
    case ClearAll => 0x19
    case NewChain => 0x0
    case EndConnection => 0x10000
    case NewState => 0x1
    case SetMoveProbs => 0x2
    case SetSource => 0x3
    case SetDest => 0x4
    case SetProtocol => 0x5
    case SetTos => 0x6
    case SetMinPacketLength => 0x8
    case SetMaxPacketLength => 0x9
    case SetWhichPacketLength => 0xA
    case SetDropDelayProb => 0xE
    case SetDelayType => 0xF
    case SetSplitLinearPoints => 0x10
    case SetLambda => 0x11
    case SetTimeFactor => 0x13
    case SetStableDelayProb => 0x14
    case DeleteState => 0x15
    case DeleteChain => 0x16
  }

  // The parameters; set_move_probs has three lists after these.
  function Params(name: Name): seq<ParamType> {
    match name
    case ClearAll => []
    case NewChain => [TString]
    case EndConnection => []
    case NewState => [TChain, TString]
    case SetMoveProbs => [TChain, TInt, TInt]
    case SetSource => [TChain, TIpFilter]
    case SetDest => [TChain, TIpFilter]
    case SetProtocol => [TChain, TInt, TBool]
    case SetTos => [TChain, TInt, TBool]
    case SetMinPacketLength => [TChain, TInt]
    case SetMaxPacketLength => [TChain, TInt]
    case SetWhichPacketLength => [TChain, TWhichLength]
    case SetDropDelayProb => [TChain, TState, TProb, TProb]
    case SetDelayType => [TChain, TState, TDelayKind]
    case SetSplitLinearPoints => [TChain, TState, TPoints]
    case SetLambda => [TChain, TState, TLambda]
    case SetTimeFactor => [TChain, TState, TDelay]
    case SetStableDelayProb => [TChain, TState, TProb]
    case DeleteState => [TChain, TState]
    case DeleteChain => [TChain]
  }

  function HandlerOf(name: Name): Option<Handler> {
    match name
    case ClearAll => Some(HClearAll)
    case NewChain => Some(HNewChain)
    case EndConnection => Some(HEndConnection)
    case NewState => Some(HNewState)
    case SetMoveProbs => Some(HSetMoveProbs)
    case SetSource => Some(HSetSource)
    case SetDest => Some(HSetDest)
    case SetProtocol => Some(HSetProtocol)
    case SetTos => Some(HSetTos)
    case SetMinPacketLength => Some(HSetLengthMin)
    case SetMaxPacketLength => Some(HSetLengthMax)
    case SetWhichPacketLength => Some(HSetWhichLength)
    case SetDropDelayProb => Some(HSetDropDelayProb)
    case SetDelayType => Some(HSetDelayType)
    case SetSplitLinearPoints => Some(HSetSplitLinearPoints)
    case SetLambda => Some(HSetLambda)
    case SetTimeFactor => Some(HSetTimeFactor)
    case SetStableDelayProb => Some(HSetStableDelayProb)
    case DeleteState => None
    case DeleteChain => None
  }

  // Position of an operation in the arbitrator's table.
  function Slot(h: Handler): nat {
    match h
    case HNewChain => 0 case HNewState => 1 case HSetMoveProbs => 2 case HSetSource => 3 case HSetDest => 4
    case HSetProtocol => 5 case HSetTos => 6 case HSetLengthMin => 7 case HSetLengthMax => 8 case HSetWhichLength => 9
    case HSetDropDelayProb => 10 case HSetDelayType => 11 case HSetSplitLinearPoints => 12 case HSetLambda => 13
    case HSetTimeFactor => 14 case HSetStableDelayProb => 15 case HClearAll => 16 case HEndConnection => 17
  }

  // The two tables agree on every transaction but two: the arbitrator knows no
  // delete_state and no delete_chain.
  lemma {:induction false} TablesAgree(name: Name)
    ensures match HandlerOf(name)
            case Some(h) => FindOperation(Opcode(name), OPERATIONS) == Some(Operation(Opcode(name), Params(name), h))
            case None => FindOperation(Opcode(name), OPERATIONS) == None
  {
    TableSorted();
    match HandlerOf(name)
    case Some(h) =>
      SlotHolds(name, h);
      FoundAt(OPERATIONS, Slot(h));
    case None => NotFound(Opcode(name), OPERATIONS);
  }

  lemma {:induction false} SlotHolds(name: Name, h: Handler)
    requires HandlerOf(name) == Some(h)
    ensures Slot(h) < |OPERATIONS| && OPERATIONS[Slot(h)] == Operation(Opcode(name), Params(name), h)
  {
    if Slot(h) < 9 {
      LowSlotHolds(name, h);
    } else {
      HighSlotHolds(name, h);
    }
  }

  lemma {:induction false} LowSlotHolds(name: Name, h: Handler)
    requires HandlerOf(name) == Some(h) && Slot(h) < 9
    ensures Slot(h) < |OPERATIONS| && OPERATIONS[Slot(h)] == Operation(Opcode(name), Params(name), h)
  {
    var table := OPERATIONS;
    assert |table| == 18;
  }

  lemma {:induction false} HighSlotHolds(name: Name, h: Handler)
    requires HandlerOf(name) == Some(h) && Slot(h) >= 9
    ensures Slot(h) < |OPERATIONS| && OPERATIONS[Slot(h)] == Operation(Opcode(name), Params(name), h)
  {
    var table := OPERATIONS;
    assert |table| == 18;
  }

  // So these two meet no handler, whatever parameters follow.
  lemma {:induction false} WithoutHandlerUnknown(m: Machine, s: Session, name: Name, params: Bytes)
    requires HandlerOf(name) == None
    ensures Transaction(m, s, PackInt(Opcode(name)) + params) == Unknown(params)
    ensures s.running ==> !OpcodesKnown(m, s, PackInt(Opcode(name)) + params)
  {
    TablesAgree(name);
    IntRoundTrip(Opcode(name), params);
  }

  // What is answered to them depends on how their bytes arrive.
  lemma {:induction false} WithoutHandlerUnbounded(m: Machine, s: Session, name: Name, params: Bytes)
    requires HandlerOf(name) == None && s.running
    ensures !exists replies :: RepliesBounded(m, s, PackInt(Opcode(name)) + params, replies)
  {
    WithoutHandlerUnknown(m, s, name, params);
    IndependentIffOpcodesKnown(m, s, PackInt(Opcode(name)) + params);
  }

  // The opcodes alone are such inputs.
  lemma {:induction false} DeleteStateUnknown(m: Machine, s: Session)
    requires s.running
    ensures !OpcodesKnown(m, s, [0x15, 0, 0, 0]) && !OpcodesKnown(m, s, [0x16, 0, 0, 0])
  {
    AloneUnknown(m, s, DeleteState);
    AloneUnknown(m, s, DeleteChain);
  }

  lemma {:induction false} AloneUnknown(m: Machine, s: Session, name: Name)
    requires HandlerOf(name) == None && s.running && 0 <= Opcode(name) < 256
    ensures !OpcodesKnown(m, s, [Opcode(name), 0, 0, 0])
  {
    PackSmallInt(Opcode(name));
    assert PackInt(Opcode(name)) + [] == [Opcode(name), 0, 0, 0];
    WithoutHandlerUnknown(m, s, name, []);
  }

  // A call of the translator's transact.
  datatype Tx =
    | Plain(name: Name, params: seq<Param>)
    | MoveProbs(sources: seq<StateRef>, dests: seq<StateRef>, probs: seq<seq<real>>)

  function PackAll(m: Machine, params: seq<Param>): Bytes {
    if params == [] then [] else Pack(m, params[0]) + PackAll(m, params[1..])
  }

  function PackStates(refs: seq<StateRef>): Bytes {
    if refs == [] then [] else PackState(refs[0]) + PackStates(refs[1..])
  }

  function PackProbs(m: Machine, probs: seq<real>): Bytes {
    if probs == [] then [] else m.pack(probs[0]) + PackProbs(m, probs[1..])
  }

  function PackTable(m: Machine, rows: seq<seq<real>>): Bytes {
    if rows == [] then [] else PackProbs(m, rows[0]) + PackTable(m, rows[1..])
  }

  function MoveParams(tx: Tx): seq<Param>
    requires tx.MoveProbs?
  {
    [LastChainParam, IntParam(|tx.sources|), IntParam(|tx.dests|)]
  }

  function Packed(m: Machine, tx: Tx): Bytes {
    match tx
    case Plain(name, params) => PackInt(Opcode(name)) + PackAll(m, params)
    case MoveProbs(sources, dests, probs) =>
      PackInt(Opcode(SetMoveProbs))
      + (PackAll(m, MoveParams(tx)) + (PackStates(sources) + (PackStates(dests) + PackTable(m, probs))))
  }

  // ------------------------------------------------------ what is answered

  // unpack("V") of four bytes.
  function UnpackInt(b: Bytes): nat
    requires |b| == 4
  {
    b[0] as nat + 0x100 * b[1] as nat + 0x1_0000 * b[2] as nat + 0x100_0000 * b[3] as nat
  }

  // The out parameters of a transaction, each an int.
  function OutParams(tx: Tx): nat {
    match tx
    case Plain(NewChain, _) => 1
    case Plain(NewState, _) => 1
    case _ => 0
  }

  // read_retvalue and the loop behind it: the line holds just the return value 0
  // and these out parameters.
  predicate AnswerRead(line: Bytes, outs: seq<int>) {
    && |line| == 4 + 4 * |outs|
    && UnpackInt(line[..4]) == 0
    && forall i | 0 <= i < |outs| :: UnpackInt(line[4 + 4 * i..8 + 4 * i]) == outs[i] % 0x1_0000_0000
  }

  // The answers to transactions one after the other: the translator reads off just
  // these bytes, and the return value is 0 each time.
  predicate AllZero(line: Bytes, txs: seq<Tx>) {
    if txs == [] then line == []
    else
      var n := 4 + 4 * OutParams(txs[0]);
      |line| >= n && UnpackInt(line[..4]) == 0 && AllZero(line[n..], txs[1..])
  }

  lemma {:induction false} UnpackPacked(v: int)
    ensures |PackInt(v)| == 4 && UnpackInt(PackInt(v)) == v % 0x1_0000_0000
  {
    var (b, u) := (PackInt(v), v % 0x1_0000_0000);
    assert Range(4) == 0x1_0000_0000;
    WordOfLowBytes(4, u);
    assert Word(b) == b[0] + 256 * Word(b[1..]) && Word(b[1..]) == b[1] + 256 * Word(b[1..][1..]);
    assert b[1..][1..] == b[2..] && Word(b[2..]) == b[2] + 256 * Word(b[2..][1..]);
    assert b[2..][1..] == b[3..] && Word(b[3..]) == b[3];
  }

  // A reply as the arbitrator packs it is read as it should be.
  lemma {:induction false} ReplyRead(outs: seq<int>)
    requires |outs| <= 1
    ensures AnswerRead(PackInt(0) + PackInts(outs), outs)
  {
    var line := PackInt(0) + PackInts(outs);
    UnpackPacked(0);
    assert line[..4] == PackInt(0);
    if outs != [] {
      assert outs[1..] == [] && PackInts(outs) == PackInt(outs[0]) + [] == PackInt(outs[0]);
      UnpackPacked(outs[0]);
      assert line[4..8] == PackInt(outs[0]);
    }
  }

  predicate ParamsFit(m: Machine, types: seq<ParamType>, params: seq<Param>) {
    |params| == |types| && forall i | 0 <= i < |params| :: TypeOf(params[i]) == types[i] && Fits(m, params[i])
  }

  function MeantAll(last: Last, params: seq<Param>): seq<Value> {
    seq(|params|, i requires 0 <= i < |params| => Meant(last, params[i]))
  }

  function StatesMeant(last: Last, refs: seq<StateRef>): seq<int> {
    seq(|refs|, i requires 0 <= i < |refs| => StateMeant(last, refs[i]))
  }

  lemma {:induction false} AllRoundTrip(m: Machine, last: Last, types: seq<ParamType>, params: seq<Param>, rest: Bytes)
    requires m.Sound() && ParamsFit(m, types, params)
    ensures ParseAll(m, last, types, PackAll(m, params) + rest) == Got(MeantAll(last, params), rest)
    decreases |params|
  {
    if params == [] {
      assert PackAll(m, params) + rest == rest && MeantAll(last, params) == [];
    } else {
      var more := PackAll(m, params[1..]);
      Regroup(Pack(m, params[0]), more, rest);
      assert TypeOf(params[0]) == types[0] && Fits(m, params[0]);
      RoundTrip(m, last, params[0], more + rest);
      OneParamMore(m, last, types, PackAll(m, params) + rest, Meant(last, params[0]), more + rest);
      assert forall i | 0 <= i < |params[1..]| :: params[1..][i] == params[i + 1] && types[1..][i] == types[i + 1];
      AllRoundTrip(m, last, types[1..], params[1..], rest);
      assert [Meant(last, params[0])] + MeantAll(last, params[1..]) == MeantAll(last, params);
    }
  }

  lemma {:induction false} OneParamMore(m: Machine, last: Last, types: seq<ParamType>, s: Bytes, value: Value,
                                        rest: Bytes)
    requires types != [] && Parse(m, last, types[0], s) == Got(value, rest)
    ensures ParseAll(m, last, types, s) == Then([value], ParseAll(m, last, types[1..], rest))
  {
  }

  predicate RefFits(last: Last, ref: StateRef, limit: nat) {
    (ref.StateIndex? ==> IntFits(ref.index)) && 0 <= StateMeant(last, ref) < limit
  }

  lemma {:induction false} StatesRoundTrip(last: Last, limit: nat, refs: seq<StateRef>, rest: Bytes)
    requires forall i | 0 <= i < |refs| :: RefFits(last, refs[i], limit)
    ensures ParseStates(last, limit, |refs|, PackStates(refs) + rest) == Got(Some(StatesMeant(last, refs)), rest)
    decreases |refs|
  {
    if refs == [] {
      assert PackStates(refs) + rest == rest && StatesMeant(last, refs) == [];
    } else {
      assert forall i | 0 <= i < |refs[1..]| :: refs[1..][i] == refs[i + 1];
      StatesRoundTrip(last, limit, refs[1..], rest);
      FirstFits(last, limit, refs, rest, StatesMeant(last, refs[1..]));
      assert [StateMeant(last, refs[0])] + StatesMeant(last, refs[1..]) == StatesMeant(last, refs);
    }
  }

  lemma {:induction false} FirstFits(last: Last, limit: nat, refs: seq<StateRef>, rest: Bytes, more: seq<int>)
    requires refs != [] && RefFits(last, refs[0], limit)
    requires ParseStates(last, limit, |refs[1..]|, PackStates(refs[1..]) + rest) == Got(Some(more), rest)
    ensures ParseStates(last, limit, |refs|, PackStates(refs) + rest)
            == Got(Some([StateMeant(last, refs[0])] + more), rest)
  {
    FirstStateRoundTrip(last, limit, refs, rest);
  }

  lemma {:induction false} FirstStateRoundTrip(last: Last, limit: nat, refs: seq<StateRef>, rest: Bytes)
    requires refs != [] && RefFits(last, refs[0], limit)
    ensures ParseStates(last, limit, |refs|, PackStates(refs) + rest)
            == AndThen([StateMeant(last, refs[0])],
                       ParseStates(last, limit, |refs| - 1, PackStates(refs[1..]) + rest))
  {
    var more := PackStates(refs[1..]);
    Regroup(PackState(refs[0]), more, rest);
    StateRoundTrip(last, refs[0], more + rest);
    OneStateMore(last, limit, |refs|, PackStates(refs) + rest, StateMeant(last, refs[0]), more + rest);
  }

  lemma {:induction false} OneStateMore(last: Last, limit: nat, n: nat, s: Bytes, index: int, rest: Bytes)
    requires n > 0 && ParseState(last, s) == Got(index, rest) && index < limit
    ensures ParseStates(last, limit, n, s) == AndThen([index], ParseStates(last, limit, n - 1, rest))
  {
  }

  // The k-th reference is the first whose index is beyond the limit.
  predicate FirstOutside(last: Last, limit: nat, refs: seq<StateRef>, k: nat) {
    && k < |refs| && (refs[k].StateIndex? ==> IntFits(refs[k].index)) && StateMeant(last, refs[k]) >= limit
    && forall i | 0 <= i < k :: RefFits(last, refs[i], limit)
  }

  // Then the reader gives up right behind it.
  lemma {:induction false} StatesRefused(last: Last, limit: nat, refs: seq<StateRef>, k: nat, rest: Bytes)
    requires FirstOutside(last, limit, refs, k)
    ensures ParseStates(last, limit, |refs|, PackStates(refs) + rest) == Got(None, PackStates(refs[k + 1..]) + rest)
    decreases k
  {
    if k == 0 {
      FirstStateRefused(last, limit, refs, rest);
    } else {
      TailOutside(last, limit, refs, k);
      StatesRefused(last, limit, refs[1..], k - 1, rest);
      OneFitsFirst(last, limit, refs, rest, PackStates(refs[k + 1..]) + rest);
    }
  }

  lemma {:induction false} OneFitsFirst(last: Last, limit: nat, refs: seq<StateRef>, rest: Bytes, left: Bytes)
    requires refs != [] && RefFits(last, refs[0], limit)
    requires ParseStates(last, limit, |refs[1..]|, PackStates(refs[1..]) + rest) == Got(None, left)
    ensures ParseStates(last, limit, |refs|, PackStates(refs) + rest) == Got(None, left)
  {
    FirstStateRoundTrip(last, limit, refs, rest);
  }

  lemma {:induction false} TailOutside(last: Last, limit: nat, refs: seq<StateRef>, k: nat)
    requires k > 0 && FirstOutside(last, limit, refs, k)
    ensures RefFits(last, refs[0], limit)
    ensures FirstOutside(last, limit, refs[1..], k - 1) && refs[1..][k..] == refs[k + 1..]
  {
    assert forall i | 0 <= i < |refs[1..]| :: refs[1..][i] == refs[i + 1];
  }

  lemma {:induction false} FirstStateRefused(last: Last, limit: nat, refs: seq<StateRef>, rest: Bytes)
    requires FirstOutside(last, limit, refs, 0)
    ensures ParseStates(last, limit, |refs|, PackStates(refs) + rest) == Got(None, PackStates(refs[1..]) + rest)
  {
    var more := PackStates(refs[1..]);
    Regroup(PackState(refs[0]), more, rest);
    StateRoundTrip(last, refs[0], more + rest);
    OneStateTooFar(last, limit, |refs|, PackStates(refs) + rest, StateMeant(last, refs[0]), more + rest);
  }

  lemma {:induction false} OneStateTooFar(last: Last, limit: nat, n: nat, s: Bytes, index: int, rest: Bytes)
    requires n > 0 && ParseState(last, s) == Got(index, rest) && index >= limit
    ensures ParseStates(last, limit, n, s) == Got(None, rest)
  {
  }

  predicate RowFits(m: Machine, row: seq<real>) {
    forall i | 0 <= i < |row| :: ProbFits(m, row[i])
  }

  lemma {:induction false} RowRoundTrip(m: Machine, row: seq<real>, rest: Bytes)
    requires m.Sound() && RowFits(m, row)
    ensures ParseRow(m, |row|, PackProbs(m, row) + rest) == Got(row, rest)
    decreases |row|
  {
    if row == [] {
      assert PackProbs(m, row) + rest == rest;
    } else {
      var more := PackProbs(m, row[1..]);
      Regroup(m.pack(row[0]), more, rest);
      assert ProbFits(m, row[0]);
      ProbRoundTrip(m, row[0], more + rest);
      assert forall i | 0 <= i < |row[1..]| :: row[1..][i] == row[i + 1];
      RowRoundTrip(m, row[1..], rest);
      assert [row[0]] + row[1..] == row;
    }
  }

  predicate RowsFit(m: Machine, rows: seq<seq<real>>, width: nat) {
    forall i | 0 <= i < |rows| :: |rows[i]| == width && RowFits(m, rows[i])
  }

  lemma {:induction false} TableRoundTrip(m: Machine, rows: seq<seq<real>>, width: nat, rest: Bytes)
    requires m.Sound() && RowsFit(m, rows, width)
    ensures ParseTable(m, |rows|, width, PackTable(m, rows) + rest) == Got(rows, rest)
    decreases |rows|
  {
    if rows == [] {
      assert PackTable(m, rows) + rest == rest;
    } else {
      var more := PackTable(m, rows[1..]);
      Regroup(PackProbs(m, rows[0]), more, rest);
      assert |rows[0]| == width && RowFits(m, rows[0]);
      RowRoundTrip(m, rows[0], more + rest);
      assert forall i | 0 <= i < |rows[1..]| :: rows[1..][i] == rows[i + 1];
      TableRoundTrip(m, rows[1..], width, rest);
      assert [rows[0]] + rows[1..] == rows;
    }
  }

  lemma {:induction false} OpcodeArrives(m: Machine, s: Session, opcode: int, op: Operation, rest: Bytes)
    requires IntFits(opcode) && FindOperation(opcode, OPERATIONS) == Some(op)
    ensures Transaction(m, s, PackInt(opcode) + rest) == Perform(m, s, Some(op), rest)
  {
    IntRoundTrip(opcode, rest);
  }

  lemma {:induction false} ParamsArrive(m: Machine, s: Session, op: Operation, params: seq<Param>, rest: Bytes)
    requires m.Sound() && ParamsFit(m, op.params, params)
    ensures Perform(m, s, Some(op), PackAll(m, params) + rest)
            == Handle(m, s, op.handler, MeantAll(s.last, params), rest)
  {
    AllRoundTrip(m, s.last, op.params, params, rest);
  }

  lemma {:induction false} HeadArrives(m: Machine, s: Session, name: Name, h: Handler, params: seq<Param>, rest: Bytes)
    requires m.Sound() && HandlerOf(name) == Some(h) && ParamsFit(m, Params(name), params)
    ensures Transaction(m, s, PackInt(Opcode(name)) + (PackAll(m, params) + rest))
            == Handle(m, s, h, MeantAll(s.last, params), rest)
  {
    var op := Operation(Opcode(name), Params(name), h);
    TablesAgree(name);
    OpcodeArrives(m, s, Opcode(name), op, PackAll(m, params) + rest);
    ParamsArrive(m, s, op, params, rest);
  }

  // A transaction as packed reaches its handler with the parameters as they were
  // meant, and the next transaction follows right behind.
  lemma {:induction false} PlainArrives(m: Machine, s: Session, name: Name, params: seq<Param>, rest: Bytes)
    requires m.Sound() && HandlerOf(name).Some? && ParamsFit(m, Params(name), params)
    ensures Transaction(m, s, Packed(m, Plain(name, params)) + rest)
            == Handle(m, s, HandlerOf(name).value, MeantAll(s.last, params), rest)
  {
    Regroup(PackInt(Opcode(name)), PackAll(m, params), rest);
    HeadArrives(m, s, name, HandlerOf(name).value, params, rest);
  }

  predicate MoveProbsFit(m: Machine, s: Session, tx: Tx) {
    && tx.MoveProbs? && 0 <= s.last.chain < |s.data|
    && IntFits(|tx.sources|) && IntFits(|tx.dests|) && |tx.probs| == |tx.sources| && RowsFit(m, tx.probs, |tx.dests|)
    && (forall i | 0 <= i < |tx.sources| :: RefFits(s.last, tx.sources[i], |s.data[s.last.chain].states|))
    && (forall i | 0 <= i < |tx.dests| :: RefFits(s.last, tx.dests[i], |s.data[s.last.chain].states|))
  }

  // set_move_probs arrives with all its lists.
  lemma {:induction false} MoveProbsArrive(m: Machine, s: Session, tx: Tx, rest: Bytes)
    requires m.Sound() && MoveProbsFit(m, s, tx)
    ensures var c := s.last.chain;
            Transaction(m, s, Packed(m, tx) + rest)
            == FinishMoveProbs(s, c, WriteProbs(s.data[c].states, StatesMeant(s.last, tx.sources),
                                                StatesMeant(s.last, tx.dests), tx.probs), rest)
  {
    var params := MoveParams(tx);
    var values: seq<Value> := [ANumber(s.last.chain), ANumber(|tx.sources|), ANumber(|tx.dests|)];
    var lists := PackStates(tx.sources) + (PackStates(tx.dests) + (PackTable(m, tx.probs) + rest));
    PackedMoves(m, tx, rest);
    MoveValues(m, s.last, tx, values);
    HeadArrives(m, s, SetMoveProbs, HSetMoveProbs, params, lists);
    MoveListsHandled(m, s, tx, values, rest);
  }

  lemma {:induction false} MoveListsHandled(m: Machine, s: Session, tx: Tx, values: seq<Value>, rest: Bytes)
    requires m.Sound() && MoveProbsFit(m, s, tx)
    requires values == [ANumber(s.last.chain), ANumber(|tx.sources|), ANumber(|tx.dests|)]
    ensures var c := s.last.chain;
            Handle(m, s, HSetMoveProbs, values,
                   PackStates(tx.sources) + (PackStates(tx.dests) + (PackTable(m, tx.probs) + rest)))
            == FinishMoveProbs(s, c, WriteProbs(s.data[c].states, StatesMeant(s.last, tx.sources),
                                                StatesMeant(s.last, tx.dests), tx.probs), rest)
  {
    MoveHandled(m, s, values, PackStates(tx.sources) + (PackStates(tx.dests) + (PackTable(m, tx.probs) + rest)));
    MoveListsArrive(m, s, tx, rest);
  }

  lemma {:induction false} MoveValues(m: Machine, last: Last, tx: Tx, values: seq<Value>)
    requires tx.MoveProbs? && IntFits(|tx.sources|) && IntFits(|tx.dests|)
    requires values == [ANumber(last.chain), ANumber(|tx.sources|), ANumber(|tx.dests|)]
    ensures ParamsFit(m, Params(SetMoveProbs), MoveParams(tx)) && MeantAll(last, MoveParams(tx)) == values
  {
  }

  lemma {:induction false} PackedMoves(m: Machine, tx: Tx, rest: Bytes)
    requires tx.MoveProbs?
    ensures Packed(m, tx) + rest
            == PackInt(Opcode(SetMoveProbs))
               + (PackAll(m, MoveParams(tx))
                  + (PackStates(tx.sources) + (PackStates(tx.dests) + (PackTable(m, tx.probs) + rest))))
  {
    RegroupFive(PackInt(Opcode(SetMoveProbs)), PackAll(m, MoveParams(tx)), PackStates(tx.sources),
                PackStates(tx.dests), PackTable(m, tx.probs), rest);
  }

  lemma {:induction false} RegroupFive(a: Bytes, b: Bytes, c: Bytes, d: Bytes, e: Bytes, f: Bytes)
    ensures (a + (b + (c + (d + e)))) + f == a + (b + (c + (d + (e + f))))
  {
    Regroup(d, e, f);
    Regroup(c, d + e, f);
    Regroup(b, c + (d + e), f);
    Regroup(a, b + (c + (d + e)), f);
  }

  lemma {:induction false} MoveHandled(m: Machine, s: Session, v: seq<Value>, lists: Bytes)
    requires |v| == 3 && v[0].ANumber? && v[1].ANumber? && v[2].ANumber?
    requires 0 <= v[0].n < |s.data| && v[1].n >= 0 && v[2].n >= 0
    ensures Handle(m, s, HSetMoveProbs, v, lists) == HandleMoveProbs(m, s, v[0].n, v[1].n, v[2].n, lists)
  {
  }

  lemma {:induction false} MoveListsArrive(m: Machine, s: Session, tx: Tx, rest: Bytes)
    requires m.Sound() && MoveProbsFit(m, s, tx)
    ensures var c := s.last.chain;
            HandleMoveProbs(m, s, c, |tx.sources|, |tx.dests|,
                            PackStates(tx.sources) + (PackStates(tx.dests) + (PackTable(m, tx.probs) + rest)))
            == FinishMoveProbs(s, c, WriteProbs(s.data[c].states, StatesMeant(s.last, tx.sources),
                                                StatesMeant(s.last, tx.dests), tx.probs), rest)
  {
    var n := |s.data[s.last.chain].states|;
    var after := PackTable(m, tx.probs) + rest;
    StatesRoundTrip(s.last, n, tx.sources, PackStates(tx.dests) + after);
    StatesRoundTrip(s.last, n, tx.dests, after);
    TableRoundTrip(m, tx.probs, |tx.dests|, rest);
  }

  predicate MovesSized(s: Session, tx: Tx) {
    tx.MoveProbs? && 0 <= s.last.chain < |s.data| && IntFits(|tx.sources|) && IntFits(|tx.dests|)
  }

  lemma {:induction false} MovesHandled(m: Machine, s: Session, tx: Tx, rest: Bytes)
    requires m.Sound() && MovesSized(s, tx)
    ensures Transaction(m, s, Packed(m, tx) + rest)
            == HandleMoveProbs(m, s, s.last.chain, |tx.sources|, |tx.dests|,
                               PackStates(tx.sources) + (PackStates(tx.dests) + (PackTable(m, tx.probs) + rest)))
  {
    var values: seq<Value> := [ANumber(s.last.chain), ANumber(|tx.sources|), ANumber(|tx.dests|)];
    var lists := PackStates(tx.sources) + (PackStates(tx.dests) + (PackTable(m, tx.probs) + rest));
    PackedMoves(m, tx, rest);
    MoveValues(m, s.last, tx, values);
    HeadArrives(m, s, SetMoveProbs, HSetMoveProbs, MoveParams(tx), lists);
    MoveHandled(m, s, values, lists);
  }

  // A source or a destination that is no state is answered 3 and changes nothing; the
  // lists are not read any further, so what is left of them comes up as the next
  // transactions.
  lemma {:induction false} SourceRefused(m: Machine, s: Session, tx: Tx, k: nat, rest: Bytes)
    requires m.Sound() && MovesSized(s, tx) && FirstOutside(s.last, |s.data[s.last.chain].states|, tx.sources, k)
    ensures var left := PackStates(tx.sources[k + 1..]) + (PackStates(tx.dests) + (PackTable(m, tx.probs) + rest));
            Transaction(m, s, Packed(m, tx) + rest) == Completed(s.(sent := s.sent + [3, 0, 0, 0]), left)
  {
    var after := PackStates(tx.dests) + (PackTable(m, tx.probs) + rest);
    MovesHandled(m, s, tx, rest);
    StatesRefused(s.last, |s.data[s.last.chain].states|, tx.sources, k, after);
    PackSmallInt(3);
    assert PackInt(INDEX_OUT_OF_RANGE) + PackInts([]) == [3, 0, 0, 0];
  }

  lemma {:induction false} DestRefused(m: Machine, s: Session, tx: Tx, k: nat, rest: Bytes)
    requires m.Sound() && MovesSized(s, tx)
    requires var n := |s.data[s.last.chain].states|;
             && FirstOutside(s.last, n, tx.dests, k)
             && forall i | 0 <= i < |tx.sources| :: RefFits(s.last, tx.sources[i], n)
    ensures var left := PackStates(tx.dests[k + 1..]) + (PackTable(m, tx.probs) + rest);
            Transaction(m, s, Packed(m, tx) + rest) == Completed(s.(sent := s.sent + [3, 0, 0, 0]), left)
  {
    var (n, after) := (|s.data[s.last.chain].states|, PackTable(m, tx.probs) + rest);
    MovesHandled(m, s, tx, rest);
    StatesRoundTrip(s.last, n, tx.sources, PackStates(tx.dests) + after);
    StatesRefused(s.last, n, tx.dests, k, after);
    PackSmallInt(3);
    assert PackInt(INDEX_OUT_OF_RANGE) + PackInts([]) == [3, 0, 0, 0];
  }
}
