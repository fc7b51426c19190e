// iface.h and iface_handlers.c: the configuration of chains and states, and what
// each transaction does to it.
module Configs {
  import opened Orders
  import opened Wire

  datatype DelayFunction =
    | NoFunction
    | ExpFunction(rate: Option<int>) // None: whatever the union held
    | LinearFunction(points: seq<Point>)

  // moveTos[d] is the probability of moving from this state to state d.
  datatype State = State(name: Bytes, dropProb: real, delayProb: real, delay: DelayFunction, timeFactor: int,
                         moveTos: seq<real>, stableDelayProb: real)

  type Mask = seq<bv8>

  datatype Filter = Filter(source: Option<seq<IpSpec>>, dest: Option<seq<IpSpec>>, protocols: Mask, tos: Mask,
                           minLength: int, maxLength: int, which: WhichLength)

  datatype Chain = Chain(name: Bytes, states: seq<State>, filter: Filter)

  type Data = seq<Chain>

  // What the handler of a transaction sends back.
  const OK := 0
  const UNKNOWN_OPCODE := 2
  const INDEX_OUT_OF_RANGE := 3
  const POINTS_ON_OTHER_TYPE := 4

  // chain_alloc: every protocol and every TOS passes.
  function ChainAlloc(name: Bytes): Chain {
    Chain(name, [], Filter(None, None, seq(32, _ => 0xFF), seq(8, _ => 0xFF), 0, 65535, DontCare))
  }

  // state_alloc, with its row of move probabilities.
  function StateAlloc(name: Bytes, moveTos: seq<real>): State {
    State(name, 0.0, 0.0, NoFunction, 1000, moveTos, 0.0)
  }

  function Identity(index: nat): seq<real> {
    seq(index, _ => 0.0) + [1.0]
  }

  // A state once there is one more state to move to.
  function Widened(state: State): State {
    state.(moveTos := state.moveTos + [0.0])
  }

  // new_state: the other states do not move to the new one, nor it to them.
  function AddState(chain: Chain, name: Bytes): Chain {
    var n := |chain.states|;
    chain.(states := seq(n, i requires 0 <= i < n => Widened(chain.states[i])) + [StateAlloc(name, Identity(n))])
  }

  // A new chain has no state and lets every packet pass.
  lemma {:induction false} NewChainMeaning(name: Bytes)
    ensures var c := ChainAlloc(name);
            && c.name == name && c.states == []
            && c.filter.source == None && c.filter.dest == None && c.filter.which == DontCare
            && c.filter.minLength == 0 && c.filter.maxLength == 65535
            && |c.filter.protocols| == 32 && (forall j: nat | j < 256 :: HasBit(c.filter.protocols, j))
            && |c.filter.tos| == 8 && (forall j: nat | j < 64 :: HasBit(c.filter.tos, j))
  {
    forall j: nat | j < 256 ensures 0xFF & ((1 as bv8) << (j % 8)) != 0 {
      BitInByte(0xFF, j % 8, j % 8);
    }
  }

  // A new state drops and delays nothing, and moves to itself; no other state
  // moves to it, and they move as before.
  lemma {:induction false} NewStateMeaning(chain: Chain, name: Bytes)
    requires Square(chain.states)
    ensures var (n, r) := (|chain.states|, AddState(chain, name));
            && |r.states| == n + 1 && Square(r.states) && r.name == chain.name && r.filter == chain.filter
            && r.states[n] == State(name, 0.0, 0.0, NoFunction, 1000, r.states[n].moveTos, 0.0)
            && (forall j | 0 <= j <= n :: r.states[n].moveTos[j] == if j == n then 1.0 else 0.0)
            && (forall i | 0 <= i < n :: r.states[i] == chain.states[i].(moveTos := r.states[i].moveTos))
            && (forall i, j | 0 <= i < n && 0 <= j <= n ::
                  r.states[i].moveTos[j] == if j == n then 0.0 else chain.states[i].moveTos[j])
  {
  }

  // set_move_probs, one row: the probabilities go to the columns dests, later
  // ones over earlier ones.
  function WriteRow(row: seq<real>, dests: seq<int>, probs: seq<real>): seq<real>
    requires |dests| == |probs| && forall i | 0 <= i < |dests| :: 0 <= dests[i] < |row|
    decreases |dests|
  {
    if dests == [] then row
    else
      assert forall i | 0 <= i < |dests[1..]| :: dests[1..][i] == dests[i + 1];
      WriteRow(row[dests[0] := probs[0]], dests[1..], probs[1..])
  }

  // Every state has a row as long as the chain has states.
  predicate Square(states: seq<State>) {
    forall i | 0 <= i < |states| :: |states[i].moveTos| == |states|
  }

  predicate InRange(indices: seq<int>, n: nat) {
    forall i | 0 <= i < |indices| :: 0 <= indices[i] < n
  }

  predicate Table(rows: seq<seq<real>>, sources: seq<int>, dests: seq<int>) {
    |rows| == |sources| && forall i | 0 <= i < |rows| :: |rows[i]| == |dests|
  }

  function WriteRows(states: seq<State>, sources: seq<int>, dests: seq<int>, rows: seq<seq<real>>): (r: seq<State>)
    requires Square(states) && InRange(sources, |states|) && InRange(dests, |states|) && Table(rows, sources, dests)
    ensures |r| == |states| && Square(r)
    decreases |sources|
  {
    if sources == [] then states
    else
      var s := sources[0];
      RowLength(states[s].moveTos, dests, rows[0]);
      var states' := states[s := states[s].(moveTos := WriteRow(states[s].moveTos, dests, rows[0]))];
      assert forall i | 0 <= i < |sources[1..]| :: sources[1..][i] == sources[i + 1];
      assert forall i | 0 <= i < |rows[1..]| :: rows[1..][i] == rows[i + 1];
      WriteRows(states', sources[1..], dests, rows[1..])
  }

  lemma {:induction false} RowLength(row: seq<real>, dests: seq<int>, probs: seq<real>)
    requires |dests| == |probs| && InRange(dests, |row|)
    ensures |WriteRow(row, dests, probs)| == |row|
    decreases |dests|
  {
    if dests != [] {
      assert forall i | 0 <= i < |dests[1..]| :: dests[1..][i] == dests[i + 1];
      RowLength(row[dests[0] := probs[0]], dests[1..], probs[1..]);
    }
  }

  // set_protocol and set_tos: one bit, or all of them if there is no such bit.
  function SetBit(mask: Mask, index: nat, enable: bool): Mask {
    var (byte, bit) := (index / 8, index % 8);
    if byte >= |mask| then seq(|mask|, _ => if enable then 0xFF else 0x00)
    else if enable then mask[byte := mask[byte] | ((1 as bv8) << bit)]
    else mask[byte := mask[byte] & !((1 as bv8) << bit)]
  }

  predicate HasBit(mask: Mask, index: nat)
    requires index / 8 < |mask|
  {
    mask[index / 8] & ((1 as bv8) << (index % 8)) != 0
  }

  // In one byte, writing bit i leaves the others alone.
  lemma {:induction false} BitInByte(b: bv8, i: nat, j: nat)
    requires i < 8 && j < 8
    ensures (b | ((1 as bv8) << i)) & ((1 as bv8) << j) != 0 <==> i == j || b & ((1 as bv8) << j) != 0
    ensures (b & !((1 as bv8) << i)) & ((1 as bv8) << j) != 0 <==> i != j && b & ((1 as bv8) << j) != 0
  {
    if i == 0 {} else if i == 1 {} else if i == 2 {} else if i == 3 {}
    else if i == 4 {} else if i == 5 {} else if i == 6 {} else {}
  }

  // After the call bit j reads as asked for if it is the one named, or if none
  // was; otherwise it reads as before.
  lemma {:induction false} SetBitMeaning(mask: Mask, index: nat, enable: bool, j: nat)
    requires j / 8 < |mask|
    ensures |SetBit(mask, index, enable)| == |mask|
    ensures HasBit(SetBit(mask, index, enable), j) <==>
              if index == j || index >= 8 * |mask| then enable else HasBit(mask, j)
  {
  }

  // set_delay_type: a function of the kind named. What it is set to is kept only by
  // an exponential one; a split-linear one has no points yet.
  lemma {:induction false} WithKindMeaning(delay: DelayFunction, kind: DelayKind)
    ensures var r := WithKind(delay, kind);
            && (kind == NoDelay <==> r.NoFunction?)
            && (kind == Exponential <==> r.ExpFunction?)
            && (kind == SplitLinear <==> r == LinearFunction([]))
            && (kind == Exponential && delay.ExpFunction? ==> r == delay)
            && (kind == Exponential && !delay.ExpFunction? ==> r.rate == None)
  {
  }

  // set_delay_type
  function WithKind(delay: DelayFunction, kind: DelayKind): DelayFunction {
    match kind
    case NoDelay => NoFunction
    case Exponential => if delay.ExpFunction? then delay else ExpFunction(None)
    case SplitLinear => LinearFunction([])
  }
}
