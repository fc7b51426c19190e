// Translator.pm, load_arbitrator: the transactions that carry a declared
// configuration over, and the configuration they leave in the arbitrator.
module Loader {
  import opened Basics
  import opened Orders
  import opened Wire
  import opened Configs
  import opened Protocol
  import opened Schedules
  import opened Translator

  datatype DelayDecl = Generic(points: seq<Point>) | ExponentialOf(rate: int)

  datatype StateDecl = StateDecl(name: Bytes, dropProb: real, delayProb: real, delay: DelayDecl, timeFactor: int,
                                 stableDelayProb: real, moveTo: map<Bytes, real>)

  datatype SetDecl = Every | Only(elems: seq<int>) | Except(elems: seq<int>)

  datatype LengthDecl = AnyLength | LengthIs(which: WhichLength, min: int, max: int)

  // A chain as the parser delivers it. The states are in the order in which they
  // are sent, a state named start first; order lists them in the order of the
  // hash, in which the move probabilities are sent.
  datatype ChainDecl = ChainDecl(name: Bytes, states: seq<StateDecl>, order: seq<nat>, source: Option<seq<IpSpec>>,
                                 dest: Option<seq<IpSpec>>, protocols: SetDecl, tos: SetDecl, length: LengthDecl)

  predicate OrderInRange(d: ChainDecl) {
    forall k | 0 <= k < |d.order| :: d.order[k] < |d.states|
  }

  // The declared probability of moving from state i to state j.
  function MoveProb(d: ChainDecl, i: nat, j: nat): real
    requires i < |d.states| && j < |d.states|
  {
    var (moveTo, name) := (d.states[i].moveTo, d.states[j].name);
    if name in moveTo then moveTo[name] else 0.0
  }

  // ---------------------------------------------------------- what is sent

  function OnChain(name: Name, params: seq<Param>): Tx {
    Plain(name, [LastChainParam] + params)
  }

  function OnLastState(name: Name, params: seq<Param>): Tx {
    Plain(name, [LastChainParam, StateParam(LastState)] + params)
  }

  function GenericTxs(points: seq<Point>): seq<Tx> {
    [OnLastState(SetDelayType, [DelayKindParam(SplitLinear)]), OnLastState(SetSplitLinearPoints, [PointsParam(points)])]
  }

  function ExponentialTxs(rate: int): seq<Tx> {
    [OnLastState(SetDelayType, [DelayKindParam(Exponential)]), OnLastState(SetLambda, [LambdaParam(rate)])]
  }

  function DelayTxs(d: StateDecl): seq<Tx> {
    if d.delayProb > 0.0 then
      match d.delay
      case Generic(points) => GenericTxs(points)
      case ExponentialOf(rate) => ExponentialTxs(rate)
    else []
  }

  function HeadTxs(d: StateDecl): seq<Tx> {
    [OnChain(NewState, [NameParam(d.name)]),
     OnLastState(SetDropDelayProb, [ProbParam(d.dropProb), ProbParam(d.delayProb)])]
  }

  function TailTxs(d: StateDecl): seq<Tx> {
    [OnLastState(SetTimeFactor, [DelayParam(d.timeFactor)]),
     OnLastState(SetStableDelayProb, [ProbParam(d.stableDelayProb)])]
  }

  function StateTxs(d: StateDecl): seq<Tx> {
    HeadTxs(d) + (DelayTxs(d) + TailTxs(d))
  }

  function StatesTxs(ds: seq<StateDecl>): seq<Tx> {
    if ds == [] then [] else StateTxs(ds[0]) + StatesTxs(ds[1..])
  }

  function SpecsTxs(name: Name, specs: Option<seq<IpSpec>>): seq<Tx> {
    match specs
    case None => []
    case Some(specs) => [OnChain(name, [FilterParam(specs)])]
  }

  function MaskName(tos: bool): Name {
    if tos then SetTos else SetProtocol
  }

  function BitTx(tos: bool, index: int, on: bool): Tx {
    OnChain(MaskName(tos), [IntParam(index), BoolParam(on)])
  }

  function BitsTxs(tos: bool, elems: seq<int>, on: bool): seq<Tx> {
    if elems == [] then [] else [BitTx(tos, elems[0], on)] + BitsTxs(tos, elems[1..], on)
  }

  // First past the last bit: that means all of them.
  function MaskSize(tos: bool): nat {
    if tos then 64 else 256
  }

  function SetTxs(tos: bool, d: SetDecl): seq<Tx> {
    match d
    case Every => []
    case Only(elems) => [BitTx(tos, MaskSize(tos), false)] + BitsTxs(tos, elems, true)
    case Except(elems) => BitsTxs(tos, elems, false)
  }

  predicate HasMax(which: WhichLength) {
    which == Between || which == NotBetween || which == Lower
  }

  predicate HasMin(which: WhichLength) {
    which == Between || which == NotBetween || which == Greater
  }

  function BoundTxs(toMax: bool, send: bool, n: int): seq<Tx> {
    if send then [OnChain(if toMax then SetMaxPacketLength else SetMinPacketLength, [IntParam(n)])] else []
  }

  function LengthTxs(d: LengthDecl): seq<Tx> {
    match d
    case AnyLength => []
    case LengthIs(which, min, max) =>
      BoundTxs(true, HasMax(which), max)
      + (BoundTxs(false, HasMin(which), min) + [OnChain(SetWhichPacketLength, [WhichLengthParam(which)])])
  }

  function Refs(order: seq<nat>): seq<StateRef> {
    seq(|order|, k requires 0 <= k < |order| => StateIndex(order[k]))
  }

  function Probs(d: ChainDecl): seq<seq<real>>
    requires OrderInRange(d)
  {
    seq(|d.order|, k requires 0 <= k < |d.order| =>
      seq(|d.order|, l requires 0 <= l < |d.order| => MoveProb(d, d.order[k], d.order[l])))
  }

  function MovesTx(d: ChainDecl): Tx
    requires OrderInRange(d)
  {
    MoveProbs(Refs(d.order), Refs(d.order), Probs(d))
  }

  function FilterTxs(d: ChainDecl): seq<Tx> {
    SpecsTxs(SetSource, d.source)
    + (SpecsTxs(SetDest, d.dest) + (SetTxs(false, d.protocols) + (SetTxs(true, d.tos) + LengthTxs(d.length))))
  }

  function BodyTxs(d: ChainDecl): seq<Tx>
    requires OrderInRange(d)
  {
    StatesTxs(d.states) + (FilterTxs(d) + [MovesTx(d)])
  }

  function ChainTxs(d: ChainDecl): seq<Tx>
    requires OrderInRange(d)
  {
    [Plain(NewChain, [NameParam(d.name)])] + BodyTxs(d)
  }

  function ChainsTxs(ds: seq<ChainDecl>): seq<Tx>
    requires forall i | 0 <= i < |ds| :: OrderInRange(ds[i])
  {
    if ds == [] then [] else ChainTxs(ds[0]) + ChainsTxs(ds[1..])
  }

  // "default", in ASCII.
  const DEFAULT: Bytes := [100, 101, 102, 97, 117, 108, 116]

  function LowerByte(b: Byte): Byte {
    LowerCode(b)
  }

  predicate IsDefault(d: ChainDecl) {
    |d.name| == |DEFAULT| && forall i | 0 <= i < |d.name| :: LowerByte(d.name[i]) == DEFAULT[i]
  }

  // The default chain if none is declared: one state that lets everything pass.
  const BUILT_IN: ChainDecl :=
    ChainDecl(DEFAULT, [StateDecl([65], 0.0, 0.0, ExponentialOf(500), 10000, 0.0, map[[65] := 1.0])], [0],
              None, None, Every, Every, AnyLength)

  function FirstDefault(ds: seq<ChainDecl>): ChainDecl {
    if ds == [] then BUILT_IN else if IsDefault(ds[0]) then ds[0] else FirstDefault(ds[1..])
  }

  function NonDefaults(ds: seq<ChainDecl>): seq<ChainDecl> {
    if ds == [] then []
    else if IsDefault(ds[0]) then NonDefaults(ds[1..])
    else [ds[0]] + NonDefaults(ds[1..])
  }

  // The chains in the order in which they are sent.
  function WithDefault(ds: seq<ChainDecl>): seq<ChainDecl> {
    [FirstDefault(ds)] + NonDefaults(ds)
  }

  // All of load_arbitrator, once the default chain is in front.
  function LoadTxs(ds: seq<ChainDecl>): seq<Tx>
    requires forall i | 0 <= i < |ds| :: OrderInRange(ds[i])
  {
    [Plain(ClearAll, [])] + (ChainsTxs(ds) + [Plain(EndConnection, [])])
  }

  // ------------------------------------------------------ what can be sent

  predicate StateFits(m: Machine, d: StateDecl) {
    && NameFits(d.name) && ProbFits(m, d.dropProb) && ProbFits(m, d.delayProb) && ProbFits(m, d.stableDelayProb)
    && IntFits(d.timeFactor) && d.timeFactor != 0
    && (match d.delay
        case Generic(points) => PointsFit(m, points)
        case ExponentialOf(rate) => IntFits(rate))
    && (forall name | name in d.moveTo :: ProbFits(m, d.moveTo[name]))
  }

  predicate SpecsFit(specs: Option<seq<IpSpec>>) {
    specs.Some? ==> specs.value != [] && forall i | 0 <= i < |specs.value| :: SpecFits(specs.value[i])
  }

  predicate SetFits(d: SetDecl, size: nat) {
    d != Every ==> forall i | 0 <= i < |d.elems| :: 0 <= d.elems[i] < size
  }

  predicate OrderFits(order: seq<nat>, n: nat) {
    && |order| == n
    && (forall k | 0 <= k < n :: order[k] < n)
    && (forall k, l | 0 <= k < l < n :: order[k] != order[l])
    && (forall i: nat | i < n :: i in order)
  }

  predicate ChainFits(m: Machine, d: ChainDecl) {
    && NameFits(d.name) && IntFits(|d.states|) && OrderFits(d.order, |d.states|)
    && (forall i | 0 <= i < |d.states| :: StateFits(m, d.states[i]))
    && SpecsFit(d.source) && SpecsFit(d.dest) && SetFits(d.protocols, 256) && SetFits(d.tos, 64)
    && (d.length.LengthIs? ==> d.length.which != DontCare && IntFits(d.length.min) && IntFits(d.length.max))
  }

  predicate ChainsFit(m: Machine, ds: seq<ChainDecl>) {
    forall i | 0 <= i < |ds| :: OrderInRange(ds[i]) && ChainFits(m, ds[i])
  }

  // ----------------------------------------------------- what should be there

  function LoadedDelay(d: StateDecl): DelayFunction {
    if d.delayProb > 0.0 then
      match d.delay
      case Generic(points) => LinearFunction(points)
      case ExponentialOf(rate) => ExpFunction(Some(rate))
    else NoFunction
  }

  function LoadedState(d: StateDecl, moveTos: seq<real>): State {
    State(d.name, d.dropProb, d.delayProb, LoadedDelay(d), d.timeFactor, moveTos, d.stableDelayProb)
  }

  // But for their rows the states are those declared.
  ghost predicate StatesBuilt(states: seq<State>, ds: seq<StateDecl>) {
    && |states| == |ds| && Square(states)
    && forall i | 0 <= i < |ds| :: states[i] == LoadedState(ds[i], states[i].moveTos)
  }

  ghost predicate RowsLoaded(states: seq<State>, d: ChainDecl) {
    && |states| == |d.states| && Square(states)
    && forall i, j | 0 <= i < |states| && 0 <= j < |states| :: states[i].moveTos[j] == MoveProb(d, i, j)
  }

  predicate Passes(d: SetDecl, j: nat) {
    match d
    case Every => true
    case Only(elems) => j in elems
    case Except(elems) => j !in elems
  }

  ghost predicate MaskLoaded(mask: Mask, d: SetDecl, size: nat) {
    8 * |mask| == size && forall j: nat | j < size :: HasBit(mask, j) <==> Passes(d, j)
  }

  predicate LengthLoaded(f: Filter, d: LengthDecl) {
    match d
    case AnyLength => f.which == DontCare
    case LengthIs(which, min, max) =>
      f.which == which && (HasMin(which) ==> f.minLength == min) && (HasMax(which) ==> f.maxLength == max)
  }

  // The arbitrator's chain says what was declared, the matrix included.
  ghost predicate ChainLoaded(c: Chain, d: ChainDecl) {
    && c.name == d.name && StatesBuilt(c.states, d.states) && RowsLoaded(c.states, d)
    && c.filter.source == d.source && c.filter.dest == d.dest
    && MaskLoaded(c.filter.protocols, d.protocols, 256) && MaskLoaded(c.filter.tos, d.tos, 64)
    && LengthLoaded(c.filter, d.length)
  }

  // ------------------------------------------------------------ transactions

  // The indices a transaction is answered: that of a new chain, or of a new state in
  // the last chain.
  function NewIds(s: Session, tx: Tx): (ids: seq<int>)
    ensures |ids| == OutParams(tx)
  {
    match tx
    case Plain(NewChain, _) => [|s.data|]
    case Plain(NewState, _) => [if 0 <= s.last.chain < |s.data| then |s.data[s.last.chain].states| else 0]
    case _ => []
  }

  // The translator reads the return value 0, the indices, and nothing is left.
  predicate Accepted(s: Session, s': Session, tx: Tx) {
    s.sent <= s'.sent && AnswerRead(s'.sent[|s.sent|..], NewIds(s, tx))
  }

  // The session after a transaction that takes just its bytes and is accepted.
  function Send(m: Machine, s: Session, tx: Tx): Option<Session> {
    if !s.running then None
    else
      match Transaction(m, s, Packed(m, tx))
      case Completed(s', rest) => if rest == [] && Accepted(s, s', tx) then Some(s') else None
      case _ => None
  }

  type Sending = (Session, Tx) -> Option<Session>

  function Sender(m: Machine): Sending {
    (s, tx) => Send(m, s, tx)
  }

  function SendAll(send: Sending, s: Session, txs: seq<Tx>): Option<Session>
    decreases |txs|
  {
    if txs == [] then Some(s)
    else
      match send(s, txs[0])
      case Some(s') => SendAll(send, s', txs[1..])
      case None => None
  }

  lemma {:induction false} SendParts(send: Sending, s: Session, a: seq<Tx>, b: seq<Tx>)
    requires SendAll(send, s, a).Some?
    ensures SendAll(send, s, a + b) == SendAll(send, SendAll(send, s, a).value, b)
    decreases |a|
  {
    if a == [] {
      assert a + b == b;
    } else {
      assert (a + b)[1..] == a[1..] + b;
      SendParts(send, send(s, a[0]).value, a[1..], b);
    }
  }

  lemma {:induction false} SendOne(send: Sending, s: Session, tx: Tx)
    ensures SendAll(send, s, [tx]) == send(s, tx)
  {
  }

  lemma {:induction false} ReplyAccepted(s: Session, s': Session, tx: Tx)
    requires s'.sent == s.sent + (PackInt(OK) + PackInts(NewIds(s, tx)))
    ensures Accepted(s, s', tx)
  {
    ReplyRead(NewIds(s, tx));
    assert s'.sent[|s.sent|..] == PackInt(OK) + PackInts(NewIds(s, tx));
  }

  // The session edits the chain last created, i being the state last created.
  ghost predicate At(s: Session, base: Data, chain: Chain, i: int) {
    s.data == base + [chain] && s.last == Last(|base|, i) && s.running
  }

  lemma {:induction false} NewStateHandled(m: Machine, s: Session, base: Data, chain: Chain, i: int, v: seq<Value>)
    requires At(s, base, chain, i) && |v| == 2 && v[0] == ANumber(|base|)
    ensures var n := |chain.states|;
            Handle(m, s, HNewState, v, [])
            == Completed(Reply(s.(data := base + [AddState(chain, NameIn(v[1]))], last := Last(|base|, n)), OK, [n]),
                         [])
  {
  }

  predicate OnFilter(h: Handler) {
    h in {HSetSource, HSetDest, HSetProtocol, HSetTos, HSetLengthMin, HSetLengthMax, HSetWhichLength}
  }

  lemma {:induction false} StateHandled(m: Machine, s: Session, base: Data, chain: Chain, i: nat, h: Handler,
                                        v: seq<Value>, st: State)
    requires At(s, base, chain, i) && i < |chain.states| && OnState(h)
    requires |v| >= 2 && v[0] == ANumber(|base|) && v[1] == ANumber(i) && EditState(h, chain.states[i], v) == Some(st)
    ensures Handle(m, s, h, v, [])
            == Completed(Reply(s.(data := base + [chain.(states := chain.states[i := st])]), OK, []), [])
  {
  }

  lemma {:induction false} FilterHandled(m: Machine, s: Session, base: Data, chain: Chain, i: int, h: Handler,
                                         v: seq<Value>)
    requires At(s, base, chain, i) && OnFilter(h) && |v| >= 2 && v[0] == ANumber(|base|)
    ensures Handle(m, s, h, v, [])
            == Completed(Reply(s.(data := base + [chain.(filter := EditFilter(h, chain.filter, v))]), OK, []), [])
  {
  }

  // A handler's completion is the transaction's, if the handler's reply is 0.
  lemma {:induction false} HandledSent(m: Machine, s: Session, name: Name, params: seq<Param>, s': Session,
                                       outs: seq<int>)
    requires m.Sound() && HandlerOf(name).Some? && ParamsFit(m, Params(name), params)
    requires Handle(m, s, HandlerOf(name).value, MeantAll(s.last, params), []) == Completed(Reply(s', OK, outs), [])
    requires s.running && s'.sent == s.sent && outs == NewIds(s, Plain(name, params))
    ensures Send(m, s, Plain(name, params)) == Some(Reply(s', OK, outs))
  {
    PlainArrives(m, s, name, params, []);
    assert Packed(m, Plain(name, params)) + [] == Packed(m, Plain(name, params));
    ReplyAccepted(s, Reply(s', OK, outs), Plain(name, params));
  }

  // ------------------------------------------------ what a transaction means

  // The chain being built and the state last created in it.
  datatype Draft = Draft(chain: Chain, i: int)

  // What an accepted transaction makes of the draft; at is the chain's index.
  function Effect(at: nat, d: Draft, tx: Tx): Option<Draft> {
    match tx
    case MoveProbs(sources, dests, probs) =>
      var last := Last(at, d.i);
      (match WriteProbs(d.chain.states, StatesMeant(last, sources), StatesMeant(last, dests), probs)
       case Some(states) => Some(d.(chain := d.chain.(states := states)))
       case None => None)
    case Plain(name, params) =>
      if HandlerOf(name) == None || |params| != |Params(name)| || |params| < 2 then None
      else EffectOn(d, HandlerOf(name).value, MeantAll(Last(at, d.i), params))
  }

  function EffectOn(d: Draft, h: Handler, v: seq<Value>): Option<Draft>
    requires |v| >= 2
  {
    if h == HNewState then Some(Draft(AddState(d.chain, NameIn(v[1])), |d.chain.states|))
    else if OnState(h) then
      if 0 <= d.i < |d.chain.states| && v[1] == ANumber(d.i) then
        match EditState(h, d.chain.states[d.i], v)
        case Some(st) => Some(d.(chain := With(d.chain, d.i, st)))
        case None => None
      else None
    else if OnFilter(h) then Some(d.(chain := d.chain.(filter := EditFilter(h, d.chain.filter, v))))
    else None
  }

  function Effects(at: nat, d: Draft, txs: seq<Tx>): Option<Draft>
    decreases |txs|
  {
    if txs == [] then Some(d)
    else
      match Effect(at, d, txs[0])
      case Some(d') => Effects(at, d', txs[1..])
      case None => None
  }

  function With(chain: Chain, i: nat, st: State): Chain
    requires i < |chain.states|
  {
    chain.(states := chain.states[i := st])
  }

  predicate TxFits(m: Machine, tx: Tx) {
    match tx
    case Plain(name, params) => ParamsFit(m, Params(name), params) && |params| > 0 && params[0] == LastChainParam
    case MoveProbs(sources, dests, probs) =>
      && IntFits(|sources|) && IntFits(|dests|) && |probs| == |sources| && RowsFit(m, probs, |dests|)
      && (forall k | 0 <= k < |sources| :: sources[k].StateIndex? && IntFits(sources[k].index))
      && (forall k | 0 <= k < |dests| :: dests[k].StateIndex? && IntFits(dests[k].index))
      && (sources == [] <==> dests == [])
  }

  lemma {:induction false} PlainHasEffect(m: Machine, s: Session, base: Data, d: Draft, name: Name, params: seq<Param>)
    requires m.Sound() && At(s, base, d.chain, d.i) && TxFits(m, Plain(name, params))
    requires Effect(|base|, d, Plain(name, params)).Some?
    ensures var (r, d') := (Send(m, s, Plain(name, params)), Effect(|base|, d, Plain(name, params)).value);
            r.Some? && At(r.value, base, d'.chain, d'.i)
  {
    var (h, v) := (HandlerOf(name).value, MeantAll(s.last, params));
    var d' := EffectOn(d, h, v).value;
    if h == HNewState {
      var n := |d.chain.states|;
      NewStateHandled(m, s, base, d.chain, d.i, v);
      HandledSent(m, s, name, params, s.(data := base + [d'.chain], last := Last(|base|, n)), [n]);
    } else if OnState(h) {
      var st := EditState(h, d.chain.states[d.i], v).value;
      StateHandled(m, s, base, d.chain, d.i, h, v, st);
      HandledSent(m, s, name, params, s.(data := base + [d'.chain]), []);
    } else {
      FilterHandled(m, s, base, d.chain, d.i, h, v);
      HandledSent(m, s, name, params, s.(data := base + [d'.chain]), []);
    }
  }

  lemma {:induction false} MovesHaveEffect(m: Machine, s: Session, base: Data, d: Draft, tx: Tx)
    requires m.Sound() && At(s, base, d.chain, d.i) && tx.MoveProbs? && TxFits(m, tx) && Effect(|base|, d, tx).Some?
    ensures var (r, d') := (Send(m, s, tx), Effect(|base|, d, tx).value); r.Some? && At(r.value, base, d'.chain, d'.i)
  {
    var states := WriteProbs(d.chain.states, StatesMeant(s.last, tx.sources), StatesMeant(s.last, tx.dests), tx.probs);
    RefsInRange(s.last, d.chain.states, tx);
    assert s.data[|base|] == d.chain;
    MoveProbsArrive(m, s, tx, []);
    assert Packed(m, tx) + [] == Packed(m, tx);
    RowsAccepted(s, base, d.chain, d.i, states, tx);
  }

  lemma {:induction false} RowsAccepted(s: Session, base: Data, chain: Chain, i: int, states: Option<seq<State>>,
                                        tx: Tx)
    requires At(s, base, chain, i) && states.Some? && s.data[|base|] == chain && tx.MoveProbs?
    ensures var o := FinishMoveProbs(s, |base|, states, []);
            && o.Completed? && o.rest == [] && Accepted(s, o.session, tx)
            && At(o.session, base, chain.(states := states.value), i)
  {
    var s1 := s.(data := s.data[|base| := chain.(states := states.value)]);
    assert s1.data == base + [chain.(states := states.value)];
    ReplyAccepted(s, Reply(s1, OK, []), tx);
  }

  lemma {:induction false} RefsInRange(last: Last, states: seq<State>, tx: Tx)
    requires tx.MoveProbs? && (tx.sources == [] <==> tx.dests == [])
    requires forall k | 0 <= k < |tx.sources| :: tx.sources[k].StateIndex? && IntFits(tx.sources[k].index)
    requires forall k | 0 <= k < |tx.dests| :: tx.dests[k].StateIndex? && IntFits(tx.dests[k].index)
    requires WriteProbs(states, StatesMeant(last, tx.sources), StatesMeant(last, tx.dests), tx.probs).Some?
    ensures forall k | 0 <= k < |tx.sources| :: RefFits(last, tx.sources[k], |states|)
    ensures forall k | 0 <= k < |tx.dests| :: RefFits(last, tx.dests[k], |states|)
  {
    forall k | 0 <= k < |tx.sources| ensures RefFits(last, tx.sources[k], |states|) {
      assert StatesMeant(last, tx.sources)[k] == tx.sources[k].index;
    }
    forall k | 0 <= k < |tx.dests| ensures RefFits(last, tx.dests[k], |states|) {
      assert StatesMeant(last, tx.dests)[k] == tx.dests[k].index;
    }
  }

  // What the loading needs to know about sending.
  ghost predicate Obeys(m: Machine, send: Sending) {
    && (forall s: Session | s.running :: ClearAllObeyed(send, s) && EndObeyed(send, s))
    && (forall s: Session, name | NameFits(name) && s.running :: NewChainObeyed(send, s, name))
    && (forall s: Session, base: Data, d: Draft, tx
          | At(s, base, d.chain, d.i) && TxFits(m, tx) && Effect(|base|, d, tx).Some? ::
          EffectObeyed(send, s, base, tx, Effect(|base|, d, tx).value))
  }

  // Whatever is sent and goes through is answered as the translator wants it.
  ghost predicate Answers(send: Sending) {
    forall s, tx | send(s, tx).Some? :: Accepted(s, send(s, tx).value, tx)
  }

  ghost predicate ClearAllObeyed(send: Sending, s: Session) {
    var r := send(s, Plain(ClearAll, []));
    r.Some? && r.value.data == [] && r.value.running
  }

  ghost predicate EndObeyed(send: Sending, s: Session) {
    var r := send(s, Plain(EndConnection, []));
    r.Some? && r.value.data == s.data && !r.value.running
  }

  ghost predicate NewChainObeyed(send: Sending, s: Session, name: Bytes) {
    var r := send(s, Plain(NewChain, [NameParam(name)]));
    r.Some? && At(r.value, s.data, ChainAlloc(name), -1)
  }

  ghost predicate EffectObeyed(send: Sending, s: Session, base: Data, tx: Tx, d: Draft) {
    send(s, tx).Some? && At(send(s, tx).value, base, d.chain, d.i)
  }

  lemma {:induction false} ClearAllSent(m: Machine, s: Session)
    requires m.Sound() && s.running
    ensures ClearAllObeyed(Sender(m), s)
  {
    assert MeantAll(s.last, []) == [];
    HandledSent(m, s, ClearAll, [], s.(data := []), []);
  }

  lemma {:induction false} EndSent(m: Machine, s: Session)
    requires m.Sound() && s.running
    ensures EndObeyed(Sender(m), s)
  {
    assert MeantAll(s.last, []) == [];
    HandledSent(m, s, EndConnection, [], s.(running := false), []);
  }

  lemma {:induction false} NewChainSent(m: Machine, s: Session, name: Bytes)
    requires m.Sound() && NameFits(name) && s.running
    ensures NewChainObeyed(Sender(m), s, name)
  {
    assert MeantAll(s.last, [NameParam(name)]) == [AString(name)];
    var s' := s.(data := s.data + [ChainAlloc(name)], last := Last(|s.data|, -1));
    HandledSent(m, s, NewChain, [NameParam(name)], s', [|s.data|]);
  }

  lemma {:induction false} EffectSent(m: Machine, s: Session, base: Data, d: Draft, tx: Tx)
    requires m.Sound() && At(s, base, d.chain, d.i) && TxFits(m, tx) && Effect(|base|, d, tx).Some?
    ensures EffectObeyed(Sender(m), s, base, tx, Effect(|base|, d, tx).value)
  {
    match tx
    case Plain(name, params) => PlainHasEffect(m, s, base, d, name, params);
    case MoveProbs(_, _, _) => MovesHaveEffect(m, s, base, d, tx);
  }

  lemma {:induction false} SenderObeys(m: Machine)
    requires m.Sound()
    ensures Obeys(m, Sender(m))
  {
    forall s: Session | s.running ensures ClearAllObeyed(Sender(m), s) && EndObeyed(Sender(m), s) {
      ClearAllSent(m, s);
      EndSent(m, s);
    }
    forall s: Session, name | NameFits(name) && s.running ensures NewChainObeyed(Sender(m), s, name) {
      NewChainSent(m, s, name);
    }
    forall s: Session, base: Data, d: Draft, tx
      | At(s, base, d.chain, d.i) && TxFits(m, tx) && Effect(|base|, d, tx).Some?
      ensures EffectObeyed(Sender(m), s, base, tx, Effect(|base|, d, tx).value)
    {
      EffectSent(m, s, base, d, tx);
    }
  }

  // Transactions sent one after the other leave the arbitrator's chain as their
  // effects say, each of them accepted.
  lemma {:induction false} EffectsSent(m: Machine, send: Sending, s: Session, base: Data, d: Draft, txs: seq<Tx>)
    requires Obeys(m, send) && At(s, base, d.chain, d.i) && Effects(|base|, d, txs).Some?
    requires forall k | 0 <= k < |txs| :: TxFits(m, txs[k])
    ensures var (r, d') := (SendAll(send, s, txs), Effects(|base|, d, txs).value);
            r.Some? && At(r.value, base, d'.chain, d'.i)
    decreases |txs|
  {
    if txs != [] {
      assert TxFits(m, txs[0]);
      var d' := Effect(|base|, d, txs[0]).value;
      assert EffectObeyed(send, s, base, txs[0], d');
      assert forall k | 0 <= k < |txs[1..]| :: txs[1..][k] == txs[k + 1];
      EffectsSent(m, send, send(s, txs[0]).value, base, d', txs[1..]);
    }
  }

  lemma {:induction false} EffectsInParts(at: nat, d: Draft, a: seq<Tx>, b: seq<Tx>)
    requires Effects(at, d, a).Some?
    ensures Effects(at, d, a + b) == Effects(at, Effects(at, d, a).value, b)
    decreases |a|
  {
    if a == [] {
      assert a + b == b;
    } else {
      assert (a + b)[1..] == a[1..] + b;
      EffectsInParts(at, Effect(at, d, a[0]).value, a[1..], b);
    }
  }

  lemma {:induction false} EffectOne(at: nat, d: Draft, tx: Tx)
    ensures Effects(at, d, [tx]) == Effect(at, d, tx)
  {
  }

  lemma {:induction false} EffectTwo(at: nat, d: Draft, a: Tx, b: Tx)
    requires Effect(at, d, a).Some?
    ensures Effects(at, d, [a, b]) == Effect(at, Effect(at, d, a).value, b)
  {
    assert [a, b] == [a] + [b];
    EffectOne(at, d, a);
    EffectsInParts(at, d, [a], [b]);
    EffectOne(at, Effect(at, d, a).value, b);
  }

  // ------------------------------------------------------------- one state

  // A transaction on the last state does what its handler makes of that state.
  lemma {:induction false} StateEffect(at: nat, d: Draft, name: Name, params: seq<Param>, v: seq<Value>, st: State)
    requires 0 <= d.i < |d.chain.states| && HandlerOf(name).Some? && OnState(HandlerOf(name).value)
    requires |Params(name)| == |params| + 2 && v == MeantAll(Last(at, d.i), params)
    requires EditState(HandlerOf(name).value, d.chain.states[d.i], [ANumber(at), ANumber(d.i)] + v) == Some(st)
    ensures Effect(at, d, OnLastState(name, params)) == Some(d.(chain := With(d.chain, d.i, st)))
  {
  }

  // The draft with st as its last state.
  function Put(d: Draft, st: State): Draft
    requires 0 <= d.i < |d.chain.states|
  {
    d.(chain := With(d.chain, d.i, st))
  }

  lemma {:induction false} PutEffect(at: nat, d: Draft, st: State, name: Name, params: seq<Param>, v: seq<Value>,
                                     st': State)
    requires 0 <= d.i < |d.chain.states| && HandlerOf(name).Some? && OnState(HandlerOf(name).value)
    requires |Params(name)| == |params| + 2 && v == MeantAll(Last(at, d.i), params)
    requires EditState(HandlerOf(name).value, st, [ANumber(at), ANumber(d.i)] + v) == Some(st')
    ensures Effect(at, Put(d, st), OnLastState(name, params)) == Some(Put(d, st'))
  {
    StateEffect(at, Put(d, st), name, params, v, st');
    assert With(With(d.chain, d.i, st), d.i, st') == With(d.chain, d.i, st');
  }

  lemma {:induction false} DelayEffect(at: nat, d: Draft, st: State, decl: StateDecl)
    requires 0 <= d.i < |d.chain.states| && st.delay == NoFunction
    ensures Effects(at, Put(d, st), DelayTxs(decl)) == Some(Put(d, st.(delay := LoadedDelay(decl))))
  {
    if decl.delayProb > 0.0 {
      match decl.delay
      case Generic(points) => GenericEffect(at, d, st, points);
      case ExponentialOf(rate) => ExponentialEffect(at, d, st, rate);
    }
  }

  lemma {:induction false} GenericEffect(at: nat, d: Draft, st: State, points: seq<Point>)
    requires 0 <= d.i < |d.chain.states| && st.delay == NoFunction
    ensures Effects(at, Put(d, st), GenericTxs(points)) == Some(Put(d, st.(delay := LinearFunction(points))))
  {
    var st1 := st.(delay := LinearFunction([]));
    PutEffect(at, d, st, SetDelayType, [DelayKindParam(SplitLinear)], [ADelayKind(SplitLinear)], st1);
    PutEffect(at, d, st1, SetSplitLinearPoints, [PointsParam(points)], [SomePoints(points)],
              st.(delay := LinearFunction(points)));
    EffectTwo(at, Put(d, st), GenericTxs(points)[0], GenericTxs(points)[1]);
  }

  lemma {:induction false} ExponentialEffect(at: nat, d: Draft, st: State, rate: int)
    requires 0 <= d.i < |d.chain.states| && st.delay == NoFunction
    ensures Effects(at, Put(d, st), ExponentialTxs(rate)) == Some(Put(d, st.(delay := ExpFunction(Some(rate)))))
  {
    var st1 := st.(delay := ExpFunction(None));
    PutEffect(at, d, st, SetDelayType, [DelayKindParam(Exponential)], [ADelayKind(Exponential)], st1);
    PutEffect(at, d, st1, SetLambda, [LambdaParam(rate)], [ANumber(rate)], st.(delay := ExpFunction(Some(rate))));
    EffectTwo(at, Put(d, st), ExponentialTxs(rate)[0], ExponentialTxs(rate)[1]);
  }

  lemma {:induction false} HeadEffect(at: nat, d: Draft, decl: StateDecl)
    ensures var n := |d.chain.states|;
            var st := StateAlloc(decl.name, Identity(n)).(dropProb := decl.dropProb, delayProb := decl.delayProb);
            Effects(at, d, HeadTxs(decl)) == Some(Put(Draft(AddState(d.chain, decl.name), n), st))
  {
    var (n, params) := (|d.chain.states|, [LastChainParam] + [NameParam(decl.name)]);
    assert MeantAll(Last(at, d.i), params) == [ANumber(at), AString(decl.name)];
    var d1 := Draft(AddState(d.chain, decl.name), n);
    assert Effect(at, d, HeadTxs(decl)[0]) == Some(d1);
    var st := StateAlloc(decl.name, Identity(n)).(dropProb := decl.dropProb, delayProb := decl.delayProb);
    StateEffect(at, d1, SetDropDelayProb, [ProbParam(decl.dropProb), ProbParam(decl.delayProb)],
                [AProb(decl.dropProb), AProb(decl.delayProb)], st);
    EffectTwo(at, d, HeadTxs(decl)[0], HeadTxs(decl)[1]);
  }

  lemma {:induction false} TailEffect(at: nat, d: Draft, st: State, decl: StateDecl)
    requires 0 <= d.i < |d.chain.states|
    ensures Effects(at, Put(d, st), TailTxs(decl))
            == Some(Put(d, st.(timeFactor := decl.timeFactor, stableDelayProb := decl.stableDelayProb)))
  {
    var st1 := st.(timeFactor := decl.timeFactor);
    PutEffect(at, d, st, SetTimeFactor, [DelayParam(decl.timeFactor)], [ANumber(decl.timeFactor)], st1);
    PutEffect(at, d, st1, SetStableDelayProb, [ProbParam(decl.stableDelayProb)], [AProb(decl.stableDelayProb)],
              st1.(stableDelayProb := decl.stableDelayProb));
    EffectTwo(at, Put(d, st), TailTxs(decl)[0], TailTxs(decl)[1]);
  }

  // The draft once the state decl is sent, before its move probabilities are.
  function Grown(d: Draft, decl: StateDecl): Draft {
    var n := |d.chain.states|;
    Put(Draft(AddState(d.chain, decl.name), n), LoadedState(decl, Identity(n)))
  }

  lemma {:induction false} StateTxsEffect(at: nat, d: Draft, decl: StateDecl)
    ensures Effects(at, d, StateTxs(decl)) == Some(Grown(d, decl))
  {
    var n := |d.chain.states|;
    var d1 := Draft(AddState(d.chain, decl.name), n);
    var st := StateAlloc(decl.name, Identity(n)).(dropProb := decl.dropProb, delayProb := decl.delayProb);
    HeadEffect(at, d, decl);
    DelayEffect(at, d1, st, decl);
    TailEffect(at, d1, st.(delay := LoadedDelay(decl)), decl);
    EffectsInParts(at, Put(d1, st), DelayTxs(decl), TailTxs(decl));
    EffectsInParts(at, d, HeadTxs(decl), DelayTxs(decl) + TailTxs(decl));
  }

  lemma {:induction false} GrownBuilt(d: Draft, ds: seq<StateDecl>, decl: StateDecl)
    requires StatesBuilt(d.chain.states, ds)
    ensures StatesBuilt(Grown(d, decl).chain.states, ds + [decl])
  {
  }

  lemma {:induction false} Rejoin<T>(a: seq<T>, b: seq<T>)
    requires b != []
    ensures (a + [b[0]]) + b[1..] == a + b
  {
  }

  lemma {:induction false} OneMoreState(at: nat, d: Draft, done: seq<StateDecl>, decl: StateDecl) returns (d': Draft)
    requires StatesBuilt(d.chain.states, done)
    ensures Effects(at, d, StateTxs(decl)) == Some(d') && StatesBuilt(d'.chain.states, done + [decl])
    ensures d'.chain.filter == d.chain.filter && d'.chain.name == d.chain.name
  {
    StateTxsEffect(at, d, decl);
    GrownBuilt(d, done, decl);
    d' := Grown(d, decl);
  }

  // All states of a chain.
  lemma {:induction false} StatesEffect(at: nat, d: Draft, done: seq<StateDecl>, ds: seq<StateDecl>) returns (d': Draft)
    requires StatesBuilt(d.chain.states, done)
    ensures Effects(at, d, StatesTxs(ds)) == Some(d') && StatesBuilt(d'.chain.states, done + ds)
    ensures d'.chain.filter == d.chain.filter && d'.chain.name == d.chain.name
    decreases |ds|
  {
    if ds == [] {
      assert done + ds == done;
      d' := d;
    } else {
      var d1 := OneMoreState(at, d, done, ds[0]);
      d' := StatesEffect(at, d1, done + [ds[0]], ds[1..]);
      Rejoin(done, ds);
      EffectsInParts(at, d, StateTxs(ds[0]), StatesTxs(ds[1..]));
    }
  }

  // ------------------------------------------------------------- the filter

  // The draft with f as its filter.
  function Filtered(d: Draft, f: Filter): Draft {
    d.(chain := d.chain.(filter := f))
  }

  // A transaction on the filter does what its handler makes of the filter.
  lemma {:induction false} FilterEffect(at: nat, d: Draft, name: Name, params: seq<Param>, v: seq<Value>)
    requires HandlerOf(name).Some? && OnFilter(HandlerOf(name).value)
    requires |Params(name)| == |params| + 1 && v == MeantAll(Last(at, d.i), params) && |v| >= 1
    ensures Effect(at, d, OnChain(name, params))
            == Some(Filtered(d, EditFilter(HandlerOf(name).value, d.chain.filter, [ANumber(at)] + v)))
  {
  }

  lemma {:induction false} SpecsEffect(at: nat, d: Draft, toDest: bool, specs: Option<seq<IpSpec>>)
    requires if toDest then d.chain.filter.dest == None else d.chain.filter.source == None
    ensures Effects(at, d, SpecsTxs(if toDest then SetDest else SetSource, specs))
            == Some(Filtered(d, if toDest then d.chain.filter.(dest := specs) else d.chain.filter.(source := specs)))
  {
  }

  function MaskOf(f: Filter, tos: bool): Mask {
    if tos then f.tos else f.protocols
  }

  function WithMask(f: Filter, tos: bool, mask: Mask): Filter {
    if tos then f.(tos := mask) else f.(protocols := mask)
  }

  lemma {:induction false} BitEffect(at: nat, d: Draft, tos: bool, index: nat, on: bool)
    ensures Effect(at, d, BitTx(tos, index, on))
            == Some(Filtered(d, WithMask(d.chain.filter, tos, SetBit(MaskOf(d.chain.filter, tos), index, on))))
  {
  }

  // The listed bits read on, the others as before.
  ghost predicate BitsWritten(before: Mask, after: Mask, elems: seq<int>, on: bool) {
    && |after| == |before|
    && forall j: nat | j / 8 < |before| :: HasBit(after, j) <==> if j in elems then on else HasBit(before, j)
  }

  lemma {:induction false} BitWritten(mask: Mask, index: nat, on: bool)
    requires index < 8 * |mask|
    ensures BitsWritten(mask, SetBit(mask, index, on), [index], on)
  {
    SetBitMeaning(mask, index, on, index);
    forall j: nat | j / 8 < |mask|
      ensures HasBit(SetBit(mask, index, on), j) <==> if j in [index] then on else HasBit(mask, j)
    {
      SetBitMeaning(mask, index, on, j);
    }
  }

  lemma {:induction false} BitsThen(a: Mask, b: Mask, c: Mask, first: int, more: seq<int>, on: bool)
    requires BitsWritten(a, b, [first], on) && BitsWritten(b, c, more, on)
    ensures BitsWritten(a, c, [first] + more, on)
  {
  }

  lemma {:induction false} BitsEffect(at: nat, d: Draft, tos: bool, elems: seq<int>, on: bool) returns (mask: Mask)
    requires 8 * |MaskOf(d.chain.filter, tos)| == MaskSize(tos)
    requires forall k | 0 <= k < |elems| :: 0 <= elems[k] < MaskSize(tos)
    ensures Effects(at, d, BitsTxs(tos, elems, on)) == Some(Filtered(d, WithMask(d.chain.filter, tos, mask)))
    ensures BitsWritten(MaskOf(d.chain.filter, tos), mask, elems, on)
    decreases |elems|
  {
    var before := MaskOf(d.chain.filter, tos);
    if elems == [] {
      mask := before;
    } else {
      var first := SetBit(before, elems[0], on);
      BitEffect(at, d, tos, elems[0], on);
      BitWritten(before, elems[0], on);
      var d1 := Filtered(d, WithMask(d.chain.filter, tos, first));
      assert forall k | 0 <= k < |elems[1..]| :: elems[1..][k] == elems[k + 1];
      mask := BitsEffect(at, d1, tos, elems[1..], on);
      BitsThen(before, first, mask, elems[0], elems[1..], on);
      EffectOne(at, d, BitTx(tos, elems[0], on));
      EffectsInParts(at, d, [BitTx(tos, elems[0], on)], BitsTxs(tos, elems[1..], on));
      assert elems == [elems[0]] + elems[1..];
    }
  }

  ghost predicate AllBits(mask: Mask, on: bool) {
    forall j: nat | j / 8 < |mask| :: HasBit(mask, j) == on
  }

  lemma {:induction false} Cleared(mask: Mask, size: nat)
    requires size == 8 * |mask|
    ensures |SetBit(mask, size, false)| == |mask| && AllBits(SetBit(mask, size, false), false)
  {
  }

  lemma {:induction false} WrittenLoaded(before: Mask, after: Mask, elems: seq<int>, on: bool, size: nat)
    requires 8 * |before| == size && AllBits(before, !on) && BitsWritten(before, after, elems, on)
    ensures MaskLoaded(after, if on then Only(elems) else Except(elems), size)
  {
  }

  lemma {:induction false} SetEffect(at: nat, d: Draft, tos: bool, decl: SetDecl) returns (mask: Mask)
    requires SetFits(decl, MaskSize(tos))
    requires 8 * |MaskOf(d.chain.filter, tos)| == MaskSize(tos) && AllBits(MaskOf(d.chain.filter, tos), true)
    ensures Effects(at, d, SetTxs(tos, decl)) == Some(Filtered(d, WithMask(d.chain.filter, tos, mask)))
    ensures MaskLoaded(mask, decl, MaskSize(tos))
  {
    var (before, size) := (MaskOf(d.chain.filter, tos), MaskSize(tos));
    match decl
    case Every => mask := before;
    case Except(elems) =>
      mask := BitsEffect(at, d, tos, elems, false);
      WrittenLoaded(before, mask, elems, false, size);
    case Only(elems) =>
      var none := SetBit(before, size, false);
      BitEffect(at, d, tos, size, false);
      Cleared(before, size);
      var d1 := Filtered(d, WithMask(d.chain.filter, tos, none));
      mask := BitsEffect(at, d1, tos, elems, true);
      WrittenLoaded(none, mask, elems, true, size);
      EffectOne(at, d, BitTx(tos, size, false));
      EffectsInParts(at, d, [BitTx(tos, size, false)], BitsTxs(tos, elems, true));
  }

  lemma {:induction false} BoundEffect(at: nat, d: Draft, toMax: bool, send: bool, n: int)
    ensures Effects(at, d, BoundTxs(toMax, send, n)) == Some(Filtered(d, Bounded(d.chain.filter, toMax, send, n)))
  {
  }

  function Bounded(f: Filter, toMax: bool, send: bool, n: int): Filter {
    if !send then f else if toMax then f.(maxLength := n) else f.(minLength := n)
  }

  // The filter once a length declaration is sent.
  function LengthFilter(f: Filter, decl: LengthDecl): Filter {
    match decl
    case AnyLength => f
    case LengthIs(which, min, max) =>
      Bounded(Bounded(f, true, HasMax(which), max), false, HasMin(which), min).(which := which)
  }

  lemma {:induction false} LengthFilterLoaded(f: Filter, decl: LengthDecl)
    requires f.which == DontCare
    ensures var g := LengthFilter(f, decl);
            LengthLoaded(g, decl) && g == f.(minLength := g.minLength, maxLength := g.maxLength, which := g.which)
  {
  }

  lemma {:induction false} WhichEffect(at: nat, d: Draft, which: WhichLength)
    ensures Effects(at, d, [OnChain(SetWhichPacketLength, [WhichLengthParam(which)])])
            == Some(Filtered(d, d.chain.filter.(which := which)))
  {
    var tx := OnChain(SetWhichPacketLength, [WhichLengthParam(which)]);
    FilterEffect(at, d, SetWhichPacketLength, [WhichLengthParam(which)], [AWhichLength(which)]);
    EffectOne(at, d, tx);
  }

  lemma {:induction false} LengthEffect(at: nat, d: Draft, decl: LengthDecl) returns (f: Filter)
    requires d.chain.filter.which == DontCare
    ensures Effects(at, d, LengthTxs(decl)) == Some(Filtered(d, f)) && LengthLoaded(f, decl)
    ensures f == d.chain.filter.(minLength := f.minLength, maxLength := f.maxLength, which := f.which)
  {
    f := LengthFilter(d.chain.filter, decl);
    LengthFilterLoaded(d.chain.filter, decl);
    match decl
    case AnyLength =>
    case LengthIs(which, min, max) => LengthSent(at, d, which, min, max);
  }

  lemma {:induction false} LengthSent(at: nat, d: Draft, which: WhichLength, min: int, max: int)
    ensures var decl := LengthIs(which, min, max);
            Effects(at, d, LengthTxs(decl)) == Some(Filtered(d, LengthFilter(d.chain.filter, decl)))
  {
    var (a, b, c) := (BoundTxs(true, HasMax(which), max), BoundTxs(false, HasMin(which), min),
                      [OnChain(SetWhichPacketLength, [WhichLengthParam(which)])]);
    var d1 := Filtered(d, Bounded(d.chain.filter, true, HasMax(which), max));
    var d2 := Filtered(d1, Bounded(d1.chain.filter, false, HasMin(which), min));
    BoundEffect(at, d, true, HasMax(which), max);
    BoundEffect(at, d1, false, HasMin(which), min);
    WhichEffect(at, d2, which);
    EffectsInParts(at, d1, b, c);
    EffectsInParts(at, d, a, b + c);
  }

  // ------------------------------------------------------ the probabilities

  predicate Distinct(indices: seq<int>) {
    forall k, l | 0 <= k < l < |indices| :: indices[k] != indices[l]
  }

  // Distinct columns: each holds its probability, the others are as before.
  lemma {:induction false} RowWritten(row: seq<real>, dests: seq<int>, probs: seq<real>)
    requires |dests| == |probs| && InRange(dests, |row|) && Distinct(dests)
    ensures var r := WriteRow(row, dests, probs);
            && |r| == |row|
            && (forall k | 0 <= k < |dests| :: r[dests[k]] == probs[k])
            && (forall j | 0 <= j < |row| && j !in dests :: r[j] == row[j])
    decreases |dests|
  {
    if dests != [] {
      assert forall i | 0 <= i < |dests[1..]| :: dests[1..][i] == dests[i + 1];
      var row1 := row[dests[0] := probs[0]];
      RowWritten(row1, dests[1..], probs[1..]);
      var r := WriteRow(row, dests, probs);
      forall k | 0 <= k < |dests| ensures r[dests[k]] == probs[k] {
        if k == 0 {
          assert dests[0] !in dests[1..];
        } else {
          assert r[dests[1..][k - 1]] == probs[1..][k - 1];
        }
      }
    }
  }

  // Distinct rows: each is written as by itself, everything else is as before.
  lemma {:induction false} RowsWritten(states: seq<State>, sources: seq<int>, dests: seq<int>, rows: seq<seq<real>>)
    requires Square(states) && InRange(sources, |states|) && InRange(dests, |states|) && Table(rows, sources, dests)
    requires Distinct(sources)
    ensures var r := WriteRows(states, sources, dests, rows);
            && (forall k | 0 <= k < |sources| ::
                  r[sources[k]].moveTos == WriteRow(states[sources[k]].moveTos, dests, rows[k]))
            && (forall i | 0 <= i < |states| :: r[i] == states[i].(moveTos := r[i].moveTos))
            && (forall i | 0 <= i < |states| && i !in sources :: r[i] == states[i])
    decreases |sources|
  {
    if sources != [] {
      var s := sources[0];
      assert forall i | 0 <= i < |sources[1..]| :: sources[1..][i] == sources[i + 1];
      assert forall i | 0 <= i < |rows[1..]| :: rows[1..][i] == rows[i + 1];
      RowLength(states[s].moveTos, dests, rows[0]);
      var states1 := states[s := states[s].(moveTos := WriteRow(states[s].moveTos, dests, rows[0]))];
      RowsWritten(states1, sources[1..], dests, rows[1..]);
      var r := WriteRows(states, sources, dests, rows);
      assert r == WriteRows(states1, sources[1..], dests, rows[1..]);
      forall k | 0 <= k < |sources|
        ensures r[sources[k]].moveTos == WriteRow(states[sources[k]].moveTos, dests, rows[k])
      {
        if k == 0 {
          assert s !in sources[1..];
        } else {
          assert r[sources[1..][k - 1]].moveTos
                 == WriteRow(states1[sources[1..][k - 1]].moveTos, dests, rows[1..][k - 1]);
        }
      }
    }
  }

  lemma {:induction false} OrderMeant(last: Last, order: seq<nat>)
    ensures StatesMeant(last, Refs(order)) == order
  {
  }

  lemma {:induction false} EntryWritten(states: seq<State>, decl: ChainDecl, r: seq<State>, i: nat, j: nat)
    requires OrderFits(decl.order, |decl.states|) && |r| == |states| == |decl.states| && Square(states)
    requires i < |r| && j < |r|
    requires forall k | 0 <= k < |decl.order| ::
               r[decl.order[k]].moveTos == WriteRow(states[decl.order[k]].moveTos, decl.order, Probs(decl)[k])
    ensures j < |r[i].moveTos| && r[i].moveTos[j] == MoveProb(decl, i, j)
  {
    var (order, rows) := (decl.order, Probs(decl));
    assert i in order && j in order;
    var k :| 0 <= k < |order| && order[k] == i;
    var l :| 0 <= l < |order| && order[l] == j;
    RowWritten(states[i].moveTos, order, rows[k]);
    assert r[order[k]].moveTos == WriteRow(states[order[k]].moveTos, order, rows[k]);
    assert r[i].moveTos[order[l]] == rows[k][l];
  }

  // The matrix arrives: entry (i, j) is the declared probability.
  lemma {:induction false} MovesEffect(at: nat, d: Draft, decl: ChainDecl) returns (d': Draft)
    requires StatesBuilt(d.chain.states, decl.states) && OrderFits(decl.order, |decl.states|)
    ensures Effect(at, d, MovesTx(decl)) == Some(d') && d' == d.(chain := d.chain.(states := d'.chain.states))
    ensures StatesBuilt(d'.chain.states, decl.states) && RowsLoaded(d'.chain.states, decl)
  {
    OrderMeant(Last(at, d.i), decl.order);
    var (states, order, rows) := (d.chain.states, decl.order, Probs(decl));
    if order == [] {
      d' := d;
    } else {
      var r := WriteRows(states, order, order, rows);
      d' := d.(chain := d.chain.(states := r));
      RowsWritten(states, order, order, rows);
      forall i: nat, j: nat | i < |r| && j < |r| ensures r[i].moveTos[j] == MoveProb(decl, i, j) {
        EntryWritten(states, decl, r, i, j);
      }
    }
  }

  // ---------------------------------------------------------- a whole chain

  lemma {:induction false} FullMask(n: nat)
    ensures AllBits(seq(n, _ => 0xFF as bv8), true)
  {
  }

  // What the transactions on a fresh chain's filter leave in it.
  ghost predicate FilterLoaded(f: Filter, d: ChainDecl) {
    && f.source == d.source && f.dest == d.dest && LengthLoaded(f, d.length)
    && MaskLoaded(f.protocols, d.protocols, 256) && MaskLoaded(f.tos, d.tos, 64)
  }

  ghost predicate FreshFilter(f: Filter) {
    && f.source == None && f.dest == None && f.which == DontCare
    && |f.protocols| == 32 && AllBits(f.protocols, true) && |f.tos| == 8 && AllBits(f.tos, true)
  }

  lemma {:induction false} MasksEffect(at: nat, d: Draft, decl: ChainDecl) returns (f: Filter)
    requires SetFits(decl.protocols, 256) && SetFits(decl.tos, 64)
    requires |d.chain.filter.protocols| == 32 && AllBits(d.chain.filter.protocols, true)
    requires |d.chain.filter.tos| == 8 && AllBits(d.chain.filter.tos, true) && d.chain.filter.which == DontCare
    ensures Effects(at, d, SetTxs(false, decl.protocols) + (SetTxs(true, decl.tos) + LengthTxs(decl.length)))
            == Some(Filtered(d, f))
    ensures f.source == d.chain.filter.source && f.dest == d.chain.filter.dest && LengthLoaded(f, decl.length)
    ensures MaskLoaded(f.protocols, decl.protocols, 256) && MaskLoaded(f.tos, decl.tos, 64)
  {
    var protocols := SetEffect(at, d, false, decl.protocols);
    var d1 := Filtered(d, WithMask(d.chain.filter, false, protocols));
    var tos := SetEffect(at, d1, true, decl.tos);
    var d2 := Filtered(d1, WithMask(d1.chain.filter, true, tos));
    f := LengthEffect(at, d2, decl.length);
    EffectsInParts(at, d1, SetTxs(true, decl.tos), LengthTxs(decl.length));
    EffectsInParts(at, d, SetTxs(false, decl.protocols), SetTxs(true, decl.tos) + LengthTxs(decl.length));
  }

  lemma {:induction false} FiltersEffect(at: nat, d: Draft, decl: ChainDecl) returns (f: Filter)
    requires SetFits(decl.protocols, 256) && SetFits(decl.tos, 64) && FreshFilter(d.chain.filter)
    ensures Effects(at, d, FilterTxs(decl)) == Some(Filtered(d, f)) && FilterLoaded(f, decl)
  {
    SpecsEffect(at, d, false, decl.source);
    var d1 := Filtered(d, d.chain.filter.(source := decl.source));
    SpecsEffect(at, d1, true, decl.dest);
    var d2 := Filtered(d1, d1.chain.filter.(dest := decl.dest));
    f := MasksEffect(at, d2, decl);
    var more := SetTxs(false, decl.protocols) + (SetTxs(true, decl.tos) + LengthTxs(decl.length));
    EffectsInParts(at, d1, SpecsTxs(SetDest, decl.dest), more);
    EffectsInParts(at, d, SpecsTxs(SetSource, decl.source), SpecsTxs(SetDest, decl.dest) + more);
  }

  lemma {:induction false} BodyEffect(at: nat, decl: ChainDecl) returns (d: Draft)
    requires SetFits(decl.protocols, 256) && SetFits(decl.tos, 64) && OrderFits(decl.order, |decl.states|)
    ensures Effects(at, Draft(ChainAlloc(decl.name), -1), BodyTxs(decl)) == Some(d) && ChainLoaded(d.chain, decl)
  {
    var d0 := Draft(ChainAlloc(decl.name), -1);
    FullMask(32);
    FullMask(8);
    var d1 := StatesEffect(at, d0, [], decl.states);
    assert [] + decl.states == decl.states;
    var f := FiltersEffect(at, d1, decl);
    var d2 := Filtered(d1, f);
    d := MovesEffect(at, d2, decl);
    EffectOne(at, d2, MovesTx(decl));
    EffectsInParts(at, d1, FilterTxs(decl), [MovesTx(decl)]);
    EffectsInParts(at, d0, StatesTxs(decl.states), FilterTxs(decl) + [MovesTx(decl)]);
  }

  // -------------------------------------------- everything sent fits the line

  ghost predicate AllFit(m: Machine, txs: seq<Tx>) {
    forall k | 0 <= k < |txs| :: TxFits(m, txs[k])
  }

  lemma {:induction false} FitParts(m: Machine, a: seq<Tx>, b: seq<Tx>)
    requires AllFit(m, a) && AllFit(m, b)
    ensures AllFit(m, a + b)
  {
  }

  lemma {:induction false} HeadFits(m: Machine, d: StateDecl)
    requires StateFits(m, d)
    ensures AllFit(m, HeadTxs(d))
  {
  }

  lemma {:induction false} GenericFits(m: Machine, points: seq<Point>)
    requires PointsFit(m, points)
    ensures AllFit(m, GenericTxs(points))
  {
  }

  lemma {:induction false} ExponentialFits(m: Machine, rate: int)
    requires IntFits(rate)
    ensures AllFit(m, ExponentialTxs(rate))
  {
  }

  lemma {:induction false} DelayFits(m: Machine, d: StateDecl)
    requires StateFits(m, d)
    ensures AllFit(m, DelayTxs(d))
  {
    match d.delay
    case Generic(points) => GenericFits(m, points);
    case ExponentialOf(rate) => ExponentialFits(m, rate);
  }

  lemma {:induction false} TailFits(m: Machine, d: StateDecl)
    requires StateFits(m, d)
    ensures AllFit(m, TailTxs(d))
  {
  }

  lemma {:induction false} StateTxsFit(m: Machine, d: StateDecl)
    requires StateFits(m, d)
    ensures AllFit(m, StateTxs(d))
  {
    HeadFits(m, d);
    DelayFits(m, d);
    TailFits(m, d);
    FitParts(m, DelayTxs(d), TailTxs(d));
    FitParts(m, HeadTxs(d), DelayTxs(d) + TailTxs(d));
  }

  lemma {:induction false} StatesTxsFit(m: Machine, ds: seq<StateDecl>)
    requires forall i | 0 <= i < |ds| :: StateFits(m, ds[i])
    ensures AllFit(m, StatesTxs(ds))
    decreases |ds|
  {
    if ds != [] {
      StateTxsFit(m, ds[0]);
      StatesTxsFit(m, ds[1..]);
      FitParts(m, StateTxs(ds[0]), StatesTxs(ds[1..]));
    }
  }

  lemma {:induction false} BitsFit(m: Machine, tos: bool, elems: seq<int>, on: bool)
    requires forall k | 0 <= k < |elems| :: 0 <= elems[k] < MaskSize(tos)
    ensures AllFit(m, BitsTxs(tos, elems, on))
    decreases |elems|
  {
    if elems != [] {
      BitsFit(m, tos, elems[1..], on);
      FitParts(m, [BitTx(tos, elems[0], on)], BitsTxs(tos, elems[1..], on));
    }
  }

  lemma {:induction false} SetFitsLine(m: Machine, tos: bool, d: SetDecl)
    requires SetFits(d, MaskSize(tos))
    ensures AllFit(m, SetTxs(tos, d))
  {
    match d
    case Every =>
    case Except(elems) => BitsFit(m, tos, elems, false);
    case Only(elems) =>
      BitsFit(m, tos, elems, true);
      FitParts(m, [BitTx(tos, MaskSize(tos), false)], BitsTxs(tos, elems, true));
  }

  lemma {:induction false} LengthFits(m: Machine, d: LengthDecl)
    requires d.LengthIs? ==> d.which != DontCare && IntFits(d.min) && IntFits(d.max)
    ensures AllFit(m, LengthTxs(d))
  {
    if d.LengthIs? {
      var (a, b, c) := (BoundTxs(true, HasMax(d.which), d.max), BoundTxs(false, HasMin(d.which), d.min),
                        [OnChain(SetWhichPacketLength, [WhichLengthParam(d.which)])]);
      FitParts(m, b, c);
      FitParts(m, a, b + c);
    }
  }

  lemma {:induction false} SpecsFitLine(m: Machine, name: Name, specs: Option<seq<IpSpec>>)
    requires SpecsFit(specs) && (name == SetSource || name == SetDest)
    ensures AllFit(m, SpecsTxs(name, specs))
  {
  }

  lemma {:induction false} FilterTxsFit(m: Machine, d: ChainDecl)
    requires ChainFits(m, d)
    ensures AllFit(m, FilterTxs(d))
  {
    SpecsFitLine(m, SetSource, d.source);
    SpecsFitLine(m, SetDest, d.dest);
    SetFitsLine(m, false, d.protocols);
    SetFitsLine(m, true, d.tos);
    LengthFits(m, d.length);
    var rest := SetTxs(true, d.tos) + LengthTxs(d.length);
    FitParts(m, SetTxs(true, d.tos), LengthTxs(d.length));
    FitParts(m, SetTxs(false, d.protocols), rest);
    FitParts(m, SpecsTxs(SetDest, d.dest), SetTxs(false, d.protocols) + rest);
    FitParts(m, SpecsTxs(SetSource, d.source), SpecsTxs(SetDest, d.dest) + (SetTxs(false, d.protocols) + rest));
  }

  lemma {:induction false} MovesTxFits(m: Machine, d: ChainDecl)
    requires m.Sound() && ChainFits(m, d)
    ensures TxFits(m, MovesTx(d))
  {
  }

  lemma {:induction false} BodyTxsFit(m: Machine, d: ChainDecl)
    requires m.Sound() && ChainFits(m, d)
    ensures AllFit(m, BodyTxs(d))
  {
    StatesTxsFit(m, d.states);
    FilterTxsFit(m, d);
    MovesTxFits(m, d);
    FitParts(m, FilterTxs(d), [MovesTx(d)]);
    FitParts(m, StatesTxs(d.states), FilterTxs(d) + [MovesTx(d)]);
  }

  // --------------------------------------------------------- all the chains

  lemma {:induction false} ChainSent(m: Machine, send: Sending, s: Session, d: ChainDecl) returns (s': Session)
    requires m.Sound() && Obeys(m, send) && s.running && ChainFits(m, d)
    ensures SendAll(send, s, ChainTxs(d)) == Some(s') && s'.running
    ensures |s'.data| == |s.data| + 1 && s'.data[..|s.data|] == s.data && ChainLoaded(s'.data[|s.data|], d)
  {
    var tx := Plain(NewChain, [NameParam(d.name)]);
    assert NewChainObeyed(send, s, d.name);
    var s1 := send(s, tx).value;
    var draft := BodyEffect(|s.data|, d);
    BodyTxsFit(m, d);
    EffectsSent(m, send, s1, s.data, Draft(ChainAlloc(d.name), -1), BodyTxs(d));
    SendOne(send, s, tx);
    SendParts(send, s, [tx], BodyTxs(d));
    s' := SendAll(send, s1, BodyTxs(d)).value;
  }

  // From chain n on, the data are the declared chains.
  ghost predicate ChainsLoaded(data: Data, n: nat, ds: seq<ChainDecl>) {
    |data| == n + |ds| && forall i | 0 <= i < |ds| :: ChainLoaded(data[n + i], ds[i])
  }

  lemma {:induction false} ChainsSent(m: Machine, send: Sending, s: Session, ds: seq<ChainDecl>) returns (s': Session)
    requires m.Sound() && Obeys(m, send) && s.running && ChainsFit(m, ds)
    ensures SendAll(send, s, ChainsTxs(ds)) == Some(s') && s'.running
    ensures |s.data| <= |s'.data| && s'.data[..|s.data|] == s.data && ChainsLoaded(s'.data, |s.data|, ds)
    decreases |ds|
  {
    if ds == [] {
      s' := s;
    } else {
      var n := |s.data|;
      assert ChainFits(m, ds[0]);
      var s1 := ChainSent(m, send, s, ds[0]);
      assert forall i | 0 <= i < |ds[1..]| :: ds[1..][i] == ds[i + 1];
      s' := ChainsSent(m, send, s1, ds[1..]);
      SendParts(send, s, ChainTxs(ds[0]), ChainsTxs(ds[1..]));
      OneMoreChain(s.data, s1.data, s'.data, ds);
    }
  }

  lemma {:induction false} OneMoreChain(a: Data, b: Data, c: Data, ds: seq<ChainDecl>)
    requires |b| == |a| + 1 && b[..|a|] == a && ds != [] && ChainLoaded(b[|a|], ds[0])
    requires |b| <= |c| && c[..|b|] == b && ChainsLoaded(c, |b|, ds[1..])
    ensures |a| <= |c| && c[..|a|] == a && ChainsLoaded(c, |a|, ds)
  {
  }

  // Loading: every transaction is accepted, and the arbitrator ends up with
  // exactly the declared chains, matrices included.
  lemma {:induction false} LoadSent(m: Machine, send: Sending, s: Session, ds: seq<ChainDecl>) returns (s': Session)
    requires m.Sound() && Obeys(m, send) && Answers(send) && s.running && ChainsFit(m, ds)
    ensures SendAll(send, s, LoadTxs(ds)) == Some(s') && !s'.running && ChainsLoaded(s'.data, 0, ds)
    ensures s.sent <= s'.sent && AllZero(s'.sent[|s.sent|..], LoadTxs(ds))
  {
    s' := ChainsLoad(m, send, s, ds);
    AnsweredInARow(send, s, LoadTxs(ds));
  }

  lemma {:induction false} ChainsLoad(m: Machine, send: Sending, s: Session, ds: seq<ChainDecl>)
    returns (s': Session)
    requires m.Sound() && Obeys(m, send) && s.running && ChainsFit(m, ds)
    ensures SendAll(send, s, LoadTxs(ds)) == Some(s') && !s'.running && ChainsLoaded(s'.data, 0, ds)
  {
    var (first, last) := (Plain(ClearAll, []), Plain(EndConnection, []));
    assert ClearAllObeyed(send, s);
    var s1 := send(s, first).value;
    var s2 := ChainsSent(m, send, s1, ds);
    assert EndObeyed(send, s2);
    s' := send(s2, last).value;
    SendOne(send, s2, last);
    SendParts(send, s1, ChainsTxs(ds), [last]);
    SendOne(send, s, first);
    SendParts(send, s, [first], ChainsTxs(ds) + [last]);
  }

  // What transactions accepted one by one add to the replies, the translator reads
  // as return values of 0 and out parameters.
  lemma {:induction false} AnsweredInARow(send: Sending, s: Session, txs: seq<Tx>)
    requires Answers(send) && SendAll(send, s, txs).Some?
    ensures var s' := SendAll(send, s, txs).value; s.sent <= s'.sent && AllZero(s'.sent[|s.sent|..], txs)
    decreases |txs|
  {
    if txs != [] {
      var s1 := send(s, txs[0]).value;
      AnsweredInARow(send, s1, txs[1..]);
      var s' := SendAll(send, s1, txs[1..]).value;
      assert Accepted(s, s1, txs[0]);
      AnswersJoin(s.sent, s1.sent, s'.sent, 4 + 4 * OutParams(txs[0]));
    }
  }

  lemma {:induction false} AnswersJoin(a: Bytes, b: Bytes, c: Bytes, n: nat)
    requires a <= b <= c && |b| == |a| + n && n >= 4
    ensures c[|a|..][n..] == c[|b|..] && c[|a|..][..4] == b[|a|..][..4]
  {
  }

  function PackedAll(m: Machine, txs: seq<Tx>): Bytes {
    if txs == [] then [] else Packed(m, txs[0]) + PackedAll(m, txs[1..])
  }

  lemma {:induction false} SentStep(m: Machine, s: Session, tx: Tx, rest: Bytes)
    requires Send(m, s, tx).Some?
    ensures Transaction(m, s, Packed(m, tx) + rest) == Completed(Send(m, s, tx).value, rest)
  {
    TransactionStable(m, s, Packed(m, tx), rest);
    assert [] + rest == rest;
  }

  lemma {:induction false} DrainStep(m: Machine, s: Session, input: Bytes, s': Session, rest: Bytes)
    requires s.running && Transaction(m, s, input) == Completed(s', rest)
    ensures Drained(m, s, input) == Drained(m, s', rest)
    ensures OpcodesKnown(m, s, input) <==> OpcodesKnown(m, s', rest)
  {
  }

  // Transactions accepted one by one are carried out alike when their bytes come
  // in a row.
  lemma {:induction false} SentInARow(m: Machine, s: Session, txs: seq<Tx>)
    requires SendAll(Sender(m), s, txs).Some? && !SendAll(Sender(m), s, txs).value.running
    ensures Drained(m, s, PackedAll(m, txs)) == Line([], 0, SendAll(Sender(m), s, txs).value, true)
    ensures OpcodesKnown(m, s, PackedAll(m, txs))
    decreases |txs|
  {
    if txs != [] {
      var s1 := Send(m, s, txs[0]).value;
      SentStep(m, s, txs[0], PackedAll(m, txs[1..]));
      DrainStep(m, s, PackedAll(m, txs), s1, PackedAll(m, txs[1..]));
      SentInARow(m, s1, txs[1..]);
    }
  }

  // Chain i is the first of those called default.
  predicate FirstDefaultIs(ds: seq<ChainDecl>, i: nat) {
    i < |ds| && IsDefault(ds[i]) && forall j | 0 <= j < i :: !IsDefault(ds[j])
  }

  // A chain declared to let everything pass: one state that neither drops nor delays
  // and only moves to itself, and no filter.
  predicate DeclaredOpen(d: ChainDecl) {
    && |d.states| == 1 && d.states[0].dropProb == 0.0 && d.states[0].delayProb == 0.0 && MoveProb(d, 0, 0) == 1.0
    && d.source == None && d.dest == None && d.protocols == Every && d.tos == Every && d.length == AnyLength
  }

  // As it is loaded.
  ghost predicate LoadedOpen(c: Chain) {
    && |c.states| == 1 && c.states[0].dropProb == 0.0 && c.states[0].delayProb == 0.0 && c.states[0].moveTos == [1.0]
    && c.filter.source == None && c.filter.dest == None && c.filter.which == DontCare
    && |c.filter.protocols| == 32 && (forall j: nat | j < 256 :: HasBit(c.filter.protocols, j))
    && |c.filter.tos| == 8 && (forall j: nat | j < 64 :: HasBit(c.filter.tos, j))
  }

  lemma {:induction false} OpenLoaded(c: Chain, d: ChainDecl)
    requires ChainLoaded(c, d) && DeclaredOpen(d)
    ensures LoadedOpen(c)
  {
    assert c.states[0].moveTos[0] == MoveProb(d, 0, 0);
    assert c.states[0].moveTos == [1.0];
  }

  // A chain is a default chain if it is called default, in letters of any case.
  lemma {:induction false} IsDefaultMeaning(d: ChainDecl)
    ensures IsDefault(d) <==> |d.name| == 7 && forall i | 0 <= i < 7 ::
                                d.name[i] == "default"[i] as int || d.name[i] == "DEFAULT"[i] as int
  {
    assert DEFAULT == ['d' as int, 'e' as int, 'f' as int, 'a' as int, 'u' as int, 'l' as int, 't' as int];
    if |d.name| == 7 {
      forall i | 0 <= i < 7
        ensures LowerByte(d.name[i]) == DEFAULT[i] <==>
                  d.name[i] == "default"[i] as int || d.name[i] == "DEFAULT"[i] as int
      {
        assert "DEFAULT"[i] as int + 32 == "default"[i] as int == DEFAULT[i];
      }
    }
  }

  // The chain sent first is the first declared default chain, or if there is none
  // one that lets everything pass; of the others, just those that are no default
  // chains are sent.
  lemma {:induction false} DefaultFirst(m: Machine, ds: seq<ChainDecl>)
    requires m.Sound() && ChainsFit(m, ds)
    ensures ChainsFit(m, WithDefault(ds)) && IsDefault(WithDefault(ds)[0])
    ensures forall i: nat | FirstDefaultIs(ds, i) :: WithDefault(ds)[0] == ds[i]
    ensures (forall i | 0 <= i < |ds| :: !IsDefault(ds[i])) ==> DeclaredOpen(WithDefault(ds)[0])
    ensures forall d :: d in NonDefaults(ds) <==> d in ds && !IsDefault(d)
  {
    SentFit(m, ds);
    FirstSent(ds);
  }

  lemma {:induction false} SentFit(m: Machine, ds: seq<ChainDecl>)
    requires m.Sound() && ChainsFit(m, ds)
    ensures ChainsFit(m, WithDefault(ds)) && IsDefault(WithDefault(ds)[0])
    ensures forall d :: d in NonDefaults(ds) <==> d in ds && !IsDefault(d)
  {
    if ds == [] {
      BuiltInFits(m);
    } else {
      assert OrderInRange(ds[0]) && ChainFits(m, ds[0]);
      assert forall i | 0 <= i < |ds[1..]| :: ds[1..][i] == ds[i + 1];
      SentFit(m, ds[1..]);
      var (a, b) := (WithDefault(ds), WithDefault(ds[1..]));
      assert forall i | 0 <= i < |a| :: a[i] == ds[0] || a[i] in b;
      assert ds == [ds[0]] + ds[1..];
    }
  }

  lemma {:induction false} FirstSent(ds: seq<ChainDecl>)
    ensures forall i: nat | FirstDefaultIs(ds, i) :: FirstDefault(ds) == ds[i]
    ensures (forall i | 0 <= i < |ds| :: !IsDefault(ds[i])) ==> DeclaredOpen(FirstDefault(ds))
  {
    if ds == [] {
      BuiltInOpen();
    } else if !IsDefault(ds[0]) {
      assert forall i | 0 <= i < |ds[1..]| :: ds[1..][i] == ds[i + 1];
      FirstSent(ds[1..]);
      forall i: nat | FirstDefaultIs(ds, i) ensures FirstDefault(ds) == ds[i] {
        assert FirstDefaultIs(ds[1..], i - 1);
      }
    }
  }

  // Where the other chains stand among those declared.
  predicate Positions(ds: seq<ChainDecl>, at: seq<nat>) {
    && (forall k | 0 <= k < |at| :: at[k] < |ds|)
    && (forall k, l | 0 <= k < l < |at| :: at[k] < at[l])
    && (forall i: nat | i < |ds| :: i in at <==> !IsDefault(ds[i]))
  }

  // They keep their order.
  lemma {:induction false} OthersInOrder(ds: seq<ChainDecl>) returns (at: seq<nat>)
    ensures Positions(ds, at) && |WithDefault(ds)| == 1 + |at|
    ensures forall k | 0 <= k < |at| :: WithDefault(ds)[1 + k] == ds[at[k]]
  {
    at := NonDefaultsInOrder(ds);
  }

  lemma {:induction false} NonDefaultsInOrder(ds: seq<ChainDecl>) returns (at: seq<nat>)
    ensures Positions(ds, at) && |NonDefaults(ds)| == |at|
    ensures forall k | 0 <= k < |at| :: NonDefaults(ds)[k] == ds[at[k]]
  {
    if ds == [] {
      at := [];
    } else {
      var rest := NonDefaultsInOrder(ds[1..]);
      at := PositionsBehind(ds, rest);
      forall k | 0 <= k < |at| ensures NonDefaults(ds)[k] == ds[at[k]] {
        NonDefaultAt(ds, rest, at, k);
      }
    }
  }

  lemma {:induction false} NonDefaultAt(ds: seq<ChainDecl>, rest: seq<nat>, at: seq<nat>, k: nat)
    requires ds != [] && |NonDefaults(ds[1..])| == |rest| && k < |at| && at[k] < |ds|
    requires forall j | 0 <= j < |rest| :: rest[j] < |ds[1..]| && NonDefaults(ds[1..])[j] == ds[1..][rest[j]]
    requires at == (if IsDefault(ds[0]) then [] else [0]) + Shifted(rest)
    ensures NonDefaults(ds)[k] == ds[at[k]]
  {
    var n := |at| - |rest|;
    if k >= n {
      assert at[k] == rest[k - n] + 1;
    }
  }

  lemma {:induction false} PositionsBehind(ds: seq<ChainDecl>, rest: seq<nat>) returns (at: seq<nat>)
    requires ds != [] && Positions(ds[1..], rest)
    ensures Positions(ds, at) && at == (if IsDefault(ds[0]) then [] else [0]) + Shifted(rest)
  {
    var later := Shifted(rest);
    forall i: nat | 0 < i < |ds| ensures i in later <==> !IsDefault(ds[i]) {
      assert ds[1..][i - 1] == ds[i];
      InShifted(rest, i);
    }
    at := (if IsDefault(ds[0]) then [] else [0]) + later;
  }

  function Shifted(rest: seq<nat>): seq<nat> {
    seq(|rest|, k requires 0 <= k < |rest| => rest[k] + 1)
  }

  lemma {:induction false} InShifted(rest: seq<nat>, i: nat)
    requires i > 0
    ensures i in Shifted(rest) <==> i - 1 in rest
  {
    assert i - 1 in rest ==> exists k :: 0 <= k < |rest| && rest[k] == i - 1 && Shifted(rest)[k] == i;
  }

  lemma {:induction false} BuiltInFits(m: Machine)
    requires m.Sound()
    ensures OrderInRange(BUILT_IN) && ChainFits(m, BUILT_IN) && IsDefault(BUILT_IN)
  {
  }

  lemma {:induction false} BuiltInOpen()
    ensures DeclaredOpen(BUILT_IN)
  {
  }

  // In front is the first declared default chain, or if there is none one that lets
  // everything pass.
  ghost predicate DefaultInFront(data: Data, ds: seq<ChainDecl>) {
    && |data| > 0
    && (forall i: nat | FirstDefaultIs(ds, i) :: ChainLoaded(data[0], ds[i]))
    && ((forall i | 0 <= i < |ds| :: !IsDefault(ds[i])) ==> LoadedOpen(data[0]))
  }

  // What loading the chains ds makes of session s: the connection has ended, the
  // configuration is the declared one, and every answer was 0.
  ghost predicate LoadDone(s: Session, r: Session, ds: seq<ChainDecl>)
    requires forall i | 0 <= i < |WithDefault(ds)| :: OrderInRange(WithDefault(ds)[i])
  {
    match r
    case Session(data, _, running, sent) =>
      && !running && ChainsLoaded(data, 0, WithDefault(ds)) && DefaultInFront(data, ds)
      && s.sent <= sent && AllZero(sent[|s.sent|..], LoadTxs(WithDefault(ds)))
  }

  lemma {:induction false} FirstLoaded(data: Data, ds: seq<ChainDecl>)
    requires ChainsLoaded(data, 0, WithDefault(ds))
    requires forall i: nat | FirstDefaultIs(ds, i) :: WithDefault(ds)[0] == ds[i]
    requires (forall i | 0 <= i < |ds| :: !IsDefault(ds[i])) ==> DeclaredOpen(WithDefault(ds)[0])
    ensures DefaultInFront(data, ds)
  {
    assert ChainLoaded(data[0 + 0], WithDefault(ds)[0]);
    if DeclaredOpen(WithDefault(ds)[0]) {
      OpenLoaded(data[0], WithDefault(ds)[0]);
    }
  }

  lemma {:induction false} InFront(m: Machine, data: Data, ds: seq<ChainDecl>)
    requires m.Sound() && ChainsFit(m, ds) && ChainsLoaded(data, 0, WithDefault(ds))
    ensures DefaultInFront(data, ds)
  {
    DefaultFirst(m, ds);
    FirstLoaded(data, ds);
  }

  lemma {:induction false} SenderAnswers(m: Machine)
    ensures Answers(Sender(m))
  {
  }

  lemma {:induction false} AllSent(m: Machine, s: Session, ds: seq<ChainDecl>) returns (s': Session)
    requires m.Sound() && s.running && ChainsFit(m, ds)
    ensures ChainsFit(m, WithDefault(ds)) && !s'.running && LoadDone(s, s', ds)
    ensures SendAll(Sender(m), s, LoadTxs(WithDefault(ds))) == Some(s')
  {
    SentFit(m, ds);
    SenderObeys(m);
    SenderAnswers(m);
    s' := LoadSent(m, Sender(m), s, WithDefault(ds));
    InFront(m, s'.data, ds);
  }

  // Loading over the line: however the bytes of the transactions are divided and
  // whenever they are looked at, once nothing moves any more all is done.
  lemma {:induction false} LoadArbitrator(m: Machine, s: Session, ds: seq<ChainDecl>, events: seq<Event>)
    requires m.Sound() && s.running && ChainsFit(m, ds)
    requires var all := WithDefault(ds); ChainsFit(m, all) && Delivered(events) == PackedAll(m, LoadTxs(all))
    requires Transacted(m, Run(m, Start(s), events)) == Run(m, Start(s), events)
    ensures var l := Run(m, Start(s), events); l.alive && l.kept == [] && LoadDone(s, l.session, ds)
  {
    var s' := AllSent(m, s, ds);
    SentInARow(m, s, LoadTxs(WithDefault(ds)));
    ChunkIndependence(m, s, events);
  }
}
