// The two ends of the configuration line: Translator.pm packs the parameters of
// a transaction into bytes, iface.c reads them back.
module Wire {

  type Byte = x: int | 0 <= x < 256

  type Bytes = seq<Byte>

  // What a reader makes of the bytes that have arrived: a value and the bytes
  // after it, too few bytes, or a point from which the program exits or its
  // behaviour hangs on uninitialised memory.
  datatype Parsed<T> = Got(value: T, rest: Bytes) | Short | Broken

  // The later reading q, with t arrived as well, agrees with the earlier one p;
  // and if p lacked bytes, q takes some of t.
  ghost predicate Agrees<T>(p: Parsed<T>, q: Parsed<T>, t: Bytes) {
    match p
    case Got(value, rest) => q == Got(value, rest + t)
    case Short => q.Got? ==> |q.rest| < |t|
    case Broken => q == Broken
  }

  // The machine's double, as far as the line is concerned: pack("d", r) on one
  // side, eight bytes copied into a double on the other. The real r survives if
  // it is exactly representable. And the int in an out parameter never set.
  datatype Machine = Machine(pack: real -> Bytes, value: Bytes -> real, exact: real -> bool, stale: int)
  {
    ghost predicate Sound() {
      exact(0.0) && exact(1.0) && forall r | exact(r) :: |pack(r)| == 8 && value(pack(r)) == r
    }
  }

  datatype StateRef = LastState | StateIndex(index: int)

  datatype PortRange = PortRange(start: int, end: int)

  datatype IpSpec = IpSpec(ip: Bytes, netMask: int, ports: seq<PortRange>)

  datatype Point = Point(prob: real, delay: int)

  datatype WhichLength = DontCare | Greater | Lower | Between | NotBetween

  datatype DelayKind = NoDelay | Exponential | SplitLinear

  // A parameter as the translator hands it to its pack function.
  datatype Param =
    | NameParam(name: Bytes)
    | IntParam(n: int)
    | LastChainParam
    | StateParam(ref: StateRef)
    | FilterParam(specs: seq<IpSpec>)
    | BoolParam(on: bool)
    | WhichLengthParam(which: WhichLength)
    | ProbParam(prob: real)
    | DelayKindParam(kind: DelayKind)
    | PointsParam(points: seq<Point>)
    | LambdaParam(rate: int)
    | DelayParam(delay: int)

  datatype ParamType =
    | TString | TInt | TChain | TState | TIpFilter | TBool | TWhichLength | TProb | TDelayKind | TPoints | TLambda
    | TDelay

  // The union param_t once it is filled in.
  datatype Value =
    | AString(name: Bytes)
    | ANumber(n: int)
    | AFilter(specs: seq<IpSpec>)
    | AWhichLength(which: WhichLength)
    | AProb(prob: real)
    | ADelayKind(kind: DelayKind)
    | SomePoints(points: seq<Point>)

  // The chain and the state the connection last created; -1 before.
  datatype Last = Last(chain: int, state: int)

  const TERMINATOR: Bytes := [255, 255, 255, 255]

  // ---------------------------------------------------------------- packing

  // The n low bytes of u, lowest first.
  function LowBytes(n: nat, u: nat): Bytes {
    if n == 0 then [] else [u % 256] + LowBytes(n - 1, u / 256)
  }

  function Word(b: Bytes): nat {
    if b == [] then 0 else b[0] + 256 * Word(b[1..])
  }

  function Range(n: nat): nat {
    if n == 0 then 1 else 256 * Range(n - 1)
  }

  lemma {:induction false} WordOfLowBytes(n: nat, u: nat)
    requires u < Range(n)
    ensures |LowBytes(n, u)| == n && Word(LowBytes(n, u)) == u
  {
    if n > 0 {
      WordOfLowBytes(n - 1, u / 256);
      assert LowBytes(n, u)[1..] == LowBytes(n - 1, u / 256);
    }
  }

  // pack("V", v)
  function PackInt(v: int): Bytes {
    LowBytes(4, v % 0x1_0000_0000)
  }

  // pack("S", v) on a little-endian machine
  function PackUint16(v: int): Bytes {
    LowBytes(2, v % 0x1_0000)
  }

  function Zeros(n: nat): Bytes {
    seq(n, i => 0)
  }

  // pack("a80", name): cut off or filled up with zeros.
  function PackName(name: Bytes): Bytes {
    if |name| >= 80 then name[..80] else name + Zeros(80 - |name|)
  }

  function PackState(ref: StateRef): Bytes {
    match ref
    case LastState => PackInt(2)
    case StateIndex(index) => PackInt(0) + PackInt(index)
  }

  function PackRange(r: PortRange): Bytes {
    PackUint16(r.start) + PackUint16(r.end)
  }

  function PackPorts(ports: seq<PortRange>): Bytes {
    if ports == [] then PackRange(PortRange(65535, 0)) else PackRange(ports[0]) + PackPorts(ports[1..])
  }

  function PackSpec(spec: IpSpec): Bytes {
    spec.ip + (PackInt(spec.netMask) + PackPorts(spec.ports))
  }

  function PackFilter(specs: seq<IpSpec>): Bytes {
    if specs == [] then PackSpec(IpSpec(TERMINATOR, 32, [PortRange(0, 65535)]))
    else PackSpec(specs[0]) + PackFilter(specs[1..])
  }

  function PackPoints(m: Machine, points: seq<Point>): Bytes {
    if points == [] then []
    else m.pack(points[0].prob) + (PackInt(points[0].delay) + PackPoints(m, points[1..]))
  }

  function LengthCode(which: WhichLength): int {
    match which
    case DontCare => 0
    case Greater => 1
    case Lower => 2
    case Between => 3
    case NotBetween => 4
  }

  // pack_delay_function_type; a delay type of no name packs to nothing.
  function PackKind(kind: DelayKind): Bytes {
    match kind
    case Exponential => PackInt(0)
    case SplitLinear => PackInt(1)
    case NoDelay => []
  }

  function Pack(m: Machine, p: Param): Bytes {
    match p
    case NameParam(name) => PackName(name)
    case IntParam(n) => PackInt(n)
    case LastChainParam => PackInt(2)
    case StateParam(ref) => PackState(ref)
    case FilterParam(specs) => PackFilter(specs)
    case BoolParam(on) => PackInt(if on then 1 else 0)
    case WhichLengthParam(which) => PackInt(LengthCode(which))
    case ProbParam(prob) => m.pack(prob)
    case DelayKindParam(kind) => PackKind(kind)
    case PointsParam(points) => PackPoints(m, points)
    case LambdaParam(rate) => PackInt(rate)
    case DelayParam(delay) => PackInt(delay)
  }

  // ---------------------------------------------------------------- reading

  // ip_noise_read
  function Take(s: Bytes, n: nat): Parsed<Bytes> {
    if |s| < n then Short else Got(s[..n], s[n..])
  }

  // The four bytes as read_int puts them together; a negative int becomes 0.
  function IntOf(b: Bytes): nat {
    if Word(b) >= 0x8000_0000 then 0 else Word(b)
  }

  function ParseInt(s: Bytes): Parsed<nat> {
    if |s| < 4 then Short else Got(IntOf(s[..4]), s[4..])
  }

  function ParseUint16(s: Bytes): Parsed<nat> {
    if |s| < 2 then Short else Got(Word(s[..2]), s[2..])
  }

  function CString(raw: Bytes): Bytes {
    if raw == [] || raw[0] == 0 then [] else [raw[0]] + CString(raw[1..])
  }

  function ParseName(s: Bytes): Parsed<Bytes> {
    if |s| < 80 then Short else Got(CString(s[..80][79 := 0]), s[80..])
  }

  function ParseChain(last: Last, s: Bytes): Parsed<int> {
    match ParseInt(s)
    case Got(which, rest) => if which == 2 then Got(last.chain, rest) else Broken
    case Short => Short
    case Broken => Broken
  }

  function ParseState(last: Last, s: Bytes): Parsed<int> {
    match ParseInt(s)
    case Got(which, rest) =>
      if which == 0 then
        match ParseInt(rest) {
          case Got(index, rest) => Got(index, rest)
          case Short => Short
          case Broken => Broken
        }
      else if which == 2 then Got(last.state, rest)
      else Broken
    case Short => Short
    case Broken => Broken
  }

  function Clamped(p: real): real {
    if p < 0.0 || p > 1.0 then 0.0 else p
  }

  function ParseProb(m: Machine, s: Bytes): Parsed<real> {
    if |s| < 8 then Short else Got(Clamped(m.value(s[..8])), s[8..])
  }

  // acc and then what p found.
  function Then<T>(acc: seq<T>, p: Parsed<seq<T>>): Parsed<seq<T>> {
    match p
    case Got(more, rest) => Got(acc + more, rest)
    case Short => Short
    case Broken => Broken
  }

  function ParseRange(s: Bytes): Parsed<PortRange> {
    match ParseUint16(s)
    case Got(start, rest) =>
      (match ParseUint16(rest)
       case Got(end, rest) => Got(PortRange(start, end), rest)
       case Short => Short
       case Broken => Broken)
    case Short => Short
    case Broken => Broken
  }

  function ParsePorts(s: Bytes): Parsed<seq<PortRange>>
    decreases |s|
  {
    match ParseRange(s)
    case Got(range, rest) => if range.start > range.end then Got([], rest) else Then([range], ParsePorts(rest))
    case Short => Short
    case Broken => Broken
  }

  // One round of the outer loop of the filter reader.
  function ParseSpec(s: Bytes): Parsed<IpSpec> {
    match Take(s, 4)
    case Got(ip, rest) =>
      (match ParseInt(rest)
       case Got(netMask, rest) =>
         (match ParsePorts(rest)
          case Got(ports, rest) => Got(IpSpec(ip, netMask, ports), rest)
          case Short => Short
          case Broken => Broken)
       case Short => Short
       case Broken => Broken)
    case Short => Short
    case Broken => Broken
  }

  lemma {:induction false} PortsShrink(s: Bytes)
    ensures ParsePorts(s).Got? ==> |ParsePorts(s).rest| < |s|
    decreases |s|
  {
    var p := ParseRange(s);
    if p.Got? && p.value.start <= p.value.end {
      PortsShrink(p.rest);
    }
  }

  function ParseSpecs(s: Bytes): Parsed<seq<IpSpec>>
    decreases |s|
  {
    match ParseSpec(s)
    case Got(spec, rest) =>
      if spec.ip == TERMINATOR then Got([], rest)
      else (PortsShrink(s[8..]); Then([spec], ParseSpecs(rest)))
    case Short => Short
    case Broken => Broken
  }

  // An empty list leaves the reader with a spec that was never filled in.
  function ParseFilter(s: Bytes): Parsed<seq<IpSpec>> {
    match ParseSpecs(s)
    case Got(specs, rest) => if specs == [] then Broken else Got(specs, rest)
    case Short => Short
    case Broken => Broken
  }

  function ParsePoint(m: Machine, s: Bytes): Parsed<Point> {
    match ParseProb(m, s)
    case Got(prob, rest) =>
      (match ParseInt(rest)
       case Got(delay, rest) => Got(Point(prob, delay), rest)
       case Short => Short
       case Broken => Broken)
    case Short => Short
    case Broken => Broken
  }

  function ParsePoints(m: Machine, s: Bytes): Parsed<seq<Point>>
    decreases |s|
  {
    match ParsePoint(m, s)
    case Got(point, rest) => if point.prob < 1.0 then Then([point], ParsePoints(m, rest)) else Got([point], rest)
    case Short => Short
    case Broken => Broken
  }

  function LengthOf(code: nat): WhichLength {
    if code == 1 then Greater else if code == 2 then Lower
    else if code == 3 then Between else if code == 4 then NotBetween else DontCare
  }

  function KindOf(code: nat): DelayKind {
    if code == 0 then Exponential else if code == 1 then SplitLinear else NoDelay
  }

  // The parameter types that travel as one int, and what is made of it.
  function NumberMeaning(t: ParamType, n: nat): Value {
    match t
    case TDelay => ANumber(if n == 0 then 1000 else n)
    case TBool => ANumber(if n != 0 then 1 else 0)
    case TWhichLength => AWhichLength(LengthOf(n))
    case TDelayKind => ADelayKind(KindOf(n))
    case _ => ANumber(n)
  }

  function ParseNumber(t: ParamType, s: Bytes): Parsed<Value> {
    match ParseInt(s)
    case Got(n, rest) => Got(NumberMeaning(t, n), rest)
    case Short => Short
    case Broken => Broken
  }

  // p, its value made into a param_t.
  function Wrapped<T>(p: Parsed<T>, f: T -> Value): Parsed<Value> {
    match p
    case Got(value, rest) => Got(f(value), rest)
    case Short => Short
    case Broken => Broken
  }

  // read_param_type
  function Parse(m: Machine, last: Last, t: ParamType, s: Bytes): Parsed<Value> {
    match t
    case TString => Wrapped(ParseName(s), name => AString(name))
    case TChain => Wrapped(ParseChain(last, s), n => ANumber(n))
    case TState => Wrapped(ParseState(last, s), n => ANumber(n))
    case TIpFilter => Wrapped(ParseFilter(s), specs => AFilter(specs))
    case TProb => Wrapped(ParseProb(m, s), prob => AProb(prob))
    case TPoints => Wrapped(ParsePoints(m, s), points => SomePoints(points))
    case _ => ParseNumber(t, s)
  }

  // ------------------------------------------------- what the reader should get

  function TypeOf(p: Param): ParamType {
    match p
    case NameParam(_) => TString
    case IntParam(_) => TInt
    case LastChainParam => TChain
    case StateParam(_) => TState
    case FilterParam(_) => TIpFilter
    case BoolParam(_) => TBool
    case WhichLengthParam(_) => TWhichLength
    case ProbParam(_) => TProb
    case DelayKindParam(_) => TDelayKind
    case PointsParam(_) => TPoints
    case LambdaParam(_) => TLambda
    case DelayParam(_) => TDelay
  }

  function StateMeant(last: Last, ref: StateRef): int {
    match ref
    case LastState => last.state
    case StateIndex(index) => index
  }

  function Meant(last: Last, p: Param): Value {
    match p
    case NameParam(name) => AString(name)
    case IntParam(n) => ANumber(n)
    case LastChainParam => ANumber(last.chain)
    case StateParam(ref) => ANumber(StateMeant(last, ref))
    case FilterParam(specs) => AFilter(specs)
    case BoolParam(on) => ANumber(if on then 1 else 0)
    case WhichLengthParam(which) => AWhichLength(which)
    case ProbParam(prob) => AProb(prob)
    case DelayKindParam(kind) => ADelayKind(kind)
    case PointsParam(points) => SomePoints(points)
    case LambdaParam(rate) => ANumber(rate)
    case DelayParam(delay) => ANumber(delay)
  }

  predicate IntFits(n: int) {
    0 <= n < 0x8000_0000
  }

  predicate NameFits(name: Bytes) {
    |name| <= 79 && 0 !in name
  }

  predicate RangeFits(r: PortRange) {
    0 <= r.start <= r.end < 0x1_0000
  }

  predicate SpecFits(spec: IpSpec) {
    && |spec.ip| == 4 && spec.ip != TERMINATOR && IntFits(spec.netMask)
    && forall i | 0 <= i < |spec.ports| :: RangeFits(spec.ports[i])
  }

  predicate ProbFits(m: Machine, p: real) {
    0.0 <= p <= 1.0 && m.exact(p)
  }

  // Only the last point has probability 1.
  predicate PointsFit(m: Machine, points: seq<Point>) {
    && |points| > 0
    && (forall i | 0 <= i < |points| :: ProbFits(m, points[i].prob) && IntFits(points[i].delay))
    && (forall i | 0 <= i < |points| :: points[i].prob == 1.0 <==> i == |points| - 1)
  }

  predicate Fits(m: Machine, p: Param) {
    match p
    case NameParam(name) => NameFits(name)
    case IntParam(n) => IntFits(n)
    case LastChainParam => true
    case StateParam(ref) => ref.LastState? || IntFits(ref.index)
    case FilterParam(specs) => specs != [] && forall i | 0 <= i < |specs| :: SpecFits(specs[i])
    case BoolParam(on) => true
    case WhichLengthParam(which) => true
    case ProbParam(prob) => ProbFits(m, prob)
    case DelayKindParam(kind) => kind != NoDelay
    case PointsParam(points) => PointsFit(m, points)
    case LambdaParam(rate) => IntFits(rate)
    case DelayParam(delay) => IntFits(delay) && delay != 0
  }

  // -------------------------------------------------------------- round trips

  // An int comes back unchanged exactly if it is in 0 .. 2^31 - 1.
  lemma {:induction false} IntRoundTrip(v: int, rest: Bytes)
    ensures |PackInt(v)| == 4
    ensures ParseInt(PackInt(v) + rest) == Got(v, rest) <==> IntFits(v)
    ensures ParseInt(PackInt(v) + rest).Got? && ParseInt(PackInt(v) + rest).rest == rest
  {
    WordOfLowBytes(4, v % 0x1_0000_0000);
    var s := PackInt(v) + rest;
    assert s[..4] == PackInt(v) && s[4..] == rest;
  }

  lemma {:induction false} Uint16RoundTrip(v: int, rest: Bytes)
    requires 0 <= v < 0x1_0000
    ensures ParseUint16(PackUint16(v) + rest) == Got(v, rest)
  {
    WordOfLowBytes(2, v);
    var s := PackUint16(v) + rest;
    assert s[..2] == PackUint16(v) && s[2..] == rest;
  }

  lemma {:induction false} CStringOf(name: Bytes, tail: Bytes)
    requires 0 !in name && tail != [] && tail[0] == 0
    ensures CString(name + tail) == name
  {
    if name == [] {
      assert name + tail == tail;
    } else {
      assert (name + tail)[1..] == name[1..] + tail;
      CStringOf(name[1..], tail);
    }
  }

  // A name comes back cut to its first 79 characters, so unchanged exactly if
  // it has no more.
  lemma {:induction false} NameRoundTrip(name: Bytes, rest: Bytes)
    requires 0 !in name
    ensures |PackName(name)| == 80
    ensures ParseName(PackName(name) + rest) == Got(if |name| <= 79 then name else name[..79], rest)
  {
    var (s, kept) := (PackName(name) + rest, if |name| <= 79 then name else name[..79]);
    assert s[80..] == rest;
    var raw := s[..80][79 := 0];
    assert raw == kept + raw[|kept|..];
    CStringOf(kept, raw[|kept|..]);
  }

  lemma {:induction false} Regroup(a: Bytes, b: Bytes, c: Bytes)
    ensures (a + b) + c == a + (b + c)
  {
  }

  lemma {:induction false} StateRoundTrip(last: Last, ref: StateRef, rest: Bytes)
    requires ref.LastState? || IntFits(ref.index)
    ensures ParseState(last, PackState(ref) + rest) == Got(StateMeant(last, ref), rest)
  {
    match ref
    case LastState => IntRoundTrip(2, rest);
    case StateIndex(index) =>
      Regroup(PackInt(0), PackInt(index), rest);
      IntRoundTrip(0, PackInt(index) + rest);
      IntRoundTrip(index, rest);
  }

  lemma {:induction false} RangeRoundTrip(r: PortRange, rest: Bytes)
    requires 0 <= r.start < 0x1_0000 && 0 <= r.end < 0x1_0000
    ensures ParseRange(PackRange(r) + rest) == Got(r, rest)
  {
    Regroup(PackUint16(r.start), PackUint16(r.end), rest);
    Uint16RoundTrip(r.start, PackUint16(r.end) + rest);
    Uint16RoundTrip(r.end, rest);
  }

  lemma {:induction false} PortsRoundTrip(ports: seq<PortRange>, rest: Bytes)
    requires forall i | 0 <= i < |ports| :: RangeFits(ports[i])
    ensures ParsePorts(PackPorts(ports) + rest) == Got(ports, rest)
  {
    if ports == [] {
      RangeRoundTrip(PortRange(65535, 0), rest);
    } else {
      var more := PackPorts(ports[1..]);
      Regroup(PackRange(ports[0]), more, rest);
      assert RangeFits(ports[0]);
      RangeRoundTrip(ports[0], more + rest);
      forall i | 0 <= i < |ports[1..]| ensures ports[1..][i] == ports[i + 1] {}
      PortsRoundTrip(ports[1..], rest);
      assert [ports[0]] + ports[1..] == ports;
    }
  }

  lemma {:induction false} SpecRoundTrip(spec: IpSpec, rest: Bytes)
    requires |spec.ip| == 4 && IntFits(spec.netMask) && forall i | 0 <= i < |spec.ports| :: RangeFits(spec.ports[i])
    ensures ParseSpec(PackSpec(spec) + rest) == Got(spec, rest)
  {
    var ports := PackPorts(spec.ports);
    Regroup(spec.ip, PackInt(spec.netMask) + ports, rest);
    Regroup(PackInt(spec.netMask), ports, rest);
    TakeFront(spec.ip, PackInt(spec.netMask) + (ports + rest));
    IntRoundTrip(spec.netMask, ports + rest);
    PortsRoundTrip(spec.ports, rest);
  }

  lemma {:induction false} TakeFront(a: Bytes, rest: Bytes)
    ensures Take(a + rest, |a|) == Got(a, rest)
  {
  }

  lemma {:induction false} SpecsRoundTrip(specs: seq<IpSpec>, rest: Bytes)
    requires forall i | 0 <= i < |specs| :: SpecFits(specs[i])
    ensures ParseSpecs(PackFilter(specs) + rest) == Got(specs, rest)
  {
    if specs == [] {
      SpecRoundTrip(IpSpec(TERMINATOR, 32, [PortRange(0, 65535)]), rest);
    } else {
      var more := PackFilter(specs[1..]);
      Regroup(PackSpec(specs[0]), more, rest);
      assert SpecFits(specs[0]);
      SpecRoundTrip(specs[0], more + rest);
      forall i | 0 <= i < |specs[1..]| ensures specs[1..][i] == specs[i + 1] {}
      SpecsRoundTrip(specs[1..], rest);
      assert [specs[0]] + specs[1..] == specs;
    }
  }

  lemma {:induction false} ProbRoundTrip(m: Machine, p: real, rest: Bytes)
    requires m.Sound() && ProbFits(m, p)
    ensures ParseProb(m, m.pack(p) + rest) == Got(p, rest)
  {
  }

  lemma {:induction false} PointsRoundTrip(m: Machine, points: seq<Point>, rest: Bytes)
    requires m.Sound() && PointsFit(m, points)
    ensures ParsePoints(m, PackPoints(m, points) + rest) == Got(points, rest)
    decreases |points|
  {
    var (first, more) := (points[0], PackPoints(m, points[1..]));
    Regroup(m.pack(first.prob), PackInt(first.delay) + more, rest);
    Regroup(PackInt(first.delay), more, rest);
    ProbRoundTrip(m, first.prob, PackInt(first.delay) + (more + rest));
    IntRoundTrip(first.delay, more + rest);
    if |points| == 1 {
      assert points[1..] == [] && points == [first];
      assert more + rest == rest;
    } else {
      forall i | 0 <= i < |points[1..]| ensures points[1..][i] == points[i + 1] {}
      PointsRoundTrip(m, points[1..], rest);
      assert [first] + points[1..] == points;
    }
  }

  // Every parameter that fits is read back as it was meant, and just its bytes
  // are consumed.
  lemma {:induction false} RoundTrip(m: Machine, last: Last, p: Param, rest: Bytes)
    requires m.Sound() && Fits(m, p)
    ensures Parse(m, last, TypeOf(p), Pack(m, p) + rest) == Got(Meant(last, p), rest)
  {
    match p
    case NameParam(name) => NameRoundTrip(name, rest);
    case LastChainParam => IntRoundTrip(2, rest);
    case StateParam(ref) => StateRoundTrip(last, ref, rest);
    case FilterParam(specs) => FilterSent(m, last, specs, rest);
    case ProbParam(prob) => ProbSent(m, last, prob, rest);
    case PointsParam(points) => PointsSent(m, last, points, rest);
    case _ => NumberRoundTrip(m, last, p, rest);
  }

  lemma {:induction false} FilterSent(m: Machine, last: Last, specs: seq<IpSpec>, rest: Bytes)
    requires specs != [] && forall i | 0 <= i < |specs| :: SpecFits(specs[i])
    ensures Parse(m, last, TIpFilter, PackFilter(specs) + rest) == Got(AFilter(specs), rest)
  {
    var s := PackFilter(specs) + rest;
    assert ParseFilter(s) == Got(specs, rest) by {
      SpecsRoundTrip(specs, rest);
    }
  }

  lemma {:induction false} ProbSent(m: Machine, last: Last, prob: real, rest: Bytes)
    requires m.Sound() && ProbFits(m, prob)
    ensures Parse(m, last, TProb, m.pack(prob) + rest) == Got(AProb(prob), rest)
  {
    ProbRoundTrip(m, prob, rest);
  }

  lemma {:induction false} PointsSent(m: Machine, last: Last, points: seq<Point>, rest: Bytes)
    requires m.Sound() && PointsFit(m, points)
    ensures Parse(m, last, TPoints, PackPoints(m, points) + rest) == Got(SomePoints(points), rest)
  {
    PointsRoundTrip(m, points, rest);
  }

  predicate IsNumber(p: Param) {
    match p
    case IntParam(_) => true
    case BoolParam(_) => true
    case WhichLengthParam(_) => true
    case DelayKindParam(_) => true
    case LambdaParam(_) => true
    case DelayParam(_) => true
    case _ => false
  }

  // The parameters that travel as one int.
  lemma {:induction false} NumberRoundTrip(m: Machine, last: Last, p: Param, rest: Bytes)
    requires Fits(m, p) && IsNumber(p)
    ensures Parse(m, last, TypeOf(p), Pack(m, p) + rest) == Got(Meant(last, p), rest)
  {
    var n := NumberCode(p);
    NumberCoded(m, last, p);
    IntRoundTrip(n, rest);
    assert ParseNumber(TypeOf(p), PackInt(n) + rest) == Got(NumberMeaning(TypeOf(p), n), rest);
  }

  lemma {:induction false} NumberCoded(m: Machine, last: Last, p: Param)
    requires Fits(m, p) && IsNumber(p)
    ensures IntFits(NumberCode(p)) && Pack(m, p) == PackInt(NumberCode(p))
    ensures NumberMeaning(TypeOf(p), NumberCode(p)) == Meant(last, p)
    ensures forall s :: Parse(m, last, TypeOf(p), s) == ParseNumber(TypeOf(p), s)
  {
  }

  function NumberCode(p: Param): int {
    match p
    case IntParam(n) => n
    case BoolParam(on) => if on then 1 else 0
    case WhichLengthParam(which) => LengthCode(which)
    case DelayKindParam(kind) => if kind == Exponential then 0 else 1
    case LambdaParam(rate) => rate
    case DelayParam(delay) => delay
    case _ => 0
  }

  // ------------------------------------------- more bytes never change a reading

  lemma {:induction false} IntStable(s: Bytes, t: Bytes)
    ensures Agrees(ParseInt(s), ParseInt(s + t), t)
  {
    if |s| >= 4 {
      assert (s + t)[..4] == s[..4] && (s + t)[4..] == s[4..] + t;
    }
  }

  lemma {:induction false} NameStable(s: Bytes, t: Bytes)
    ensures Agrees(ParseName(s), ParseName(s + t), t)
  {
    if |s| >= 80 {
      assert (s + t)[..80] == s[..80] && (s + t)[80..] == s[80..] + t;
    }
  }

  lemma {:induction false} ProbStable(m: Machine, s: Bytes, t: Bytes)
    ensures Agrees(ParseProb(m, s), ParseProb(m, s + t), t)
  {
    if |s| >= 8 {
      assert (s + t)[..8] == s[..8] && (s + t)[8..] == s[8..] + t;
    }
  }

  lemma {:induction false} RangeStable(s: Bytes, t: Bytes)
    ensures Agrees(ParseRange(s), ParseRange(s + t), t)
  {
    if |s| >= 4 {
      assert (s + t)[..2] == s[..2] && (s + t)[2..] == s[2..] + t;
      assert (s + t)[2..][..2] == s[2..][..2] && (s + t)[2..][2..] == s[2..][2..] + t;
    }
  }

  lemma {:induction false} StateStable(last: Last, s: Bytes, t: Bytes)
    ensures Agrees(ParseState(last, s), ParseState(last, s + t), t)
  {
    IntStable(s, t);
    if ParseInt(s).Got? {
      IntStable(ParseInt(s).rest, t);
    }
  }

  lemma {:induction false} PortsStable(s: Bytes, t: Bytes)
    ensures Agrees(ParsePorts(s), ParsePorts(s + t), t)
    decreases |s|
  {
    RangeStable(s, t);
    var p := ParseRange(s);
    if p.Got? && p.value.start <= p.value.end {
      PortsStable(p.rest, t);
    }
    PortsShrink(s + t);
    if p.Short? && ParseRange(s + t).Got? {
      PortsShrink(ParseRange(s + t).rest);
    }
  }

  lemma {:induction false} SpecStable(s: Bytes, t: Bytes)
    ensures Agrees(ParseSpec(s), ParseSpec(s + t), t)
  {
    if |s| >= 8 {
      assert (s + t)[..4] == s[..4] && (s + t)[4..] == s[4..] + t;
      IntStable(s[4..], t);
      PortsStable(s[4..][4..], t);
    } else if |s + t| >= 8 {
      PortsShrink((s + t)[4..][4..]);
    }
  }

  lemma {:induction false} SpecShrinks(s: Bytes)
    ensures ParseSpec(s).Got? ==> |ParseSpec(s).rest| < |s|
  {
    if |s| >= 8 {
      PortsShrink(s[4..][4..]);
    }
  }

  lemma {:induction false} SpecsStable(s: Bytes, t: Bytes)
    ensures Agrees(ParseSpecs(s), ParseSpecs(s + t), t)
    decreases |s|
  {
    SpecStable(s, t);
    SpecShrinks(s);
    var p := ParseSpec(s);
    if p.Got? && p.value.ip != TERMINATOR {
      SpecsStable(p.rest, t);
    }
    if p.Short? && ParseSpec(s + t).Got? {
      SpecsShrink(ParseSpec(s + t).rest);
    }
  }

  lemma {:induction false} PointsStable(m: Machine, s: Bytes, t: Bytes)
    ensures Agrees(ParsePoints(m, s), ParsePoints(m, s + t), t)
    decreases |s|
  {
    ProbStable(m, s, t);
    if |s| >= 8 {
      IntStable(s[8..], t);
    }
    var p := ParsePoint(m, s);
    if p.Got? && p.value.prob < 1.0 {
      PointsStable(m, p.rest, t);
    }
    if p.Short? && ParsePoint(m, s + t).Got? {
      PointsShrink(m, ParsePoint(m, s + t).rest);
    }
  }

  // Once a parameter is read, bytes arriving later change neither its value nor
  // its length.
  lemma {:induction false} ParseStable(m: Machine, last: Last, t: ParamType, s: Bytes, more: Bytes)
    ensures Agrees(Parse(m, last, t, s), Parse(m, last, t, s + more), more)
  {
    match t
    case TString => NameStable(s, more);
    case TState => StateStable(last, s, more);
    case TIpFilter => SpecsStable(s, more);
    case TProb => ProbStable(m, s, more);
    case TPoints => PointsStable(m, s, more);
    case _ => IntStable(s, more);
  }

  // Reading a parameter never gives bytes back.
  lemma {:induction false} ParseShrinks(m: Machine, last: Last, t: ParamType, s: Bytes)
    ensures Parse(m, last, t, s).Got? ==> |Parse(m, last, t, s).rest| < |s|
  {
    match t
    case TIpFilter => SpecsShrink(s);
    case TPoints => PointsShrink(m, s);
    case _ =>
  }

  lemma {:induction false} SpecsShrink(s: Bytes)
    ensures ParseSpecs(s).Got? ==> |ParseSpecs(s).rest| < |s|
    decreases |s|
  {
    SpecShrinks(s);
    var p := ParseSpec(s);
    if p.Got? && p.value.ip != TERMINATOR {
      SpecsShrink(p.rest);
    }
  }

  lemma {:induction false} PointsShrink(m: Machine, s: Bytes)
    ensures ParsePoints(m, s).Got? ==> |ParsePoints(m, s).rest| < |s|
    decreases |s|
  {
    var p := ParsePoint(m, s);
    if p.Got? && p.value.prob < 1.0 {
      PointsShrink(m, p.rest);
    }
  }

  // ------------------------------------------------------ the bytes themselves

  // Four bytes, the lowest first; and two.
  lemma {:induction false} PackIntBytes(v: int)
    ensures var u := v % 0x1_0000_0000;
            PackInt(v) == [u % 0x100, u / 0x100 % 0x100, u / 0x1_0000 % 0x100, u / 0x100_0000]
    ensures PackUint16(v) == [v % 0x1_0000 % 0x100, v % 0x1_0000 / 0x100]
  {
    var u := v % 0x1_0000_0000;
    var (u1, u2, u3) := (u / 256, u / 256 / 256, u / 256 / 256 / 256);
    assert LowBytes(1, u3) == [u3 % 256] + LowBytes(0, u3 / 256) == [u3 % 256];
    assert LowBytes(2, u2) == [u2 % 256] + LowBytes(1, u3) == [u2 % 256, u3 % 256];
    assert LowBytes(3, u1) == [u1 % 256] + LowBytes(2, u2) == [u1 % 256, u2 % 256, u3 % 256];
    assert PackInt(v) == [u % 256] + LowBytes(3, u1) == [u % 256, u1 % 256, u2 % 256, u3 % 256];
    var w := v % 0x1_0000;
    assert LowBytes(1, w / 256) == [w / 256 % 256] + LowBytes(0, w / 256 / 256) == [w / 256 % 256];
    assert PackUint16(v) == [w % 256] + LowBytes(1, w / 256) == [w % 256, w / 256 % 256];
  }

  lemma {:induction false} PackSmallInt(v: nat)
    requires v < 256
    ensures PackInt(v) == [v, 0, 0, 0]
  {
    PackIntBytes(v);
  }

  lemma {:induction false} PackNameBytes(name: Bytes)
    ensures |PackName(name)| == 80
    ensures forall i | 0 <= i < 80 :: PackName(name)[i] == if i < |name| then name[i] else 0
  {
  }

  // The selectors and codes on the line.
  lemma {:induction false} PackedCodes(index: int)
    ensures PackState(LastState) == [2, 0, 0, 0] && PackState(StateIndex(index)) == [0, 0, 0, 0] + PackInt(index)
    ensures PackKind(Exponential) == [0, 0, 0, 0] && PackKind(SplitLinear) == [1, 0, 0, 0]
    ensures LengthCode(DontCare) == 0 && LengthCode(Greater) == 1 && LengthCode(Lower) == 2
    ensures LengthCode(Between) == 3 && LengthCode(NotBetween) == 4
  {
    PackSmallInt(0);
    PackSmallInt(1);
    PackSmallInt(2);
  }

  // The ends of port and specification lists.
  lemma {:induction false} PackedEnds()
    ensures PackPorts([]) == [255, 255, 0, 0] && PackFilter([])[..4] == [255, 255, 255, 255]
  {
    PackIntBytes(65535);
    PackIntBytes(0);
    assert PackPorts([]) == PackUint16(65535) + PackUint16(0);
    assert PackFilter([]) == TERMINATOR + (PackInt(32) + PackPorts([PortRange(0, 65535)]));
  }

  // Where the reader makes something else of what it gets: a negative int is 0, a
  // probability outside 0 .. 1 is 0, a delay of 0 is 1000, and codes of no name
  // stand for no limit and no function; unknown selectors end the program.
  lemma {:induction false} ReadOddly(m: Machine, last: Last, v: int, s: Bytes)
    ensures v % 0x1_0000_0000 >= 0x8000_0000 ==> ParseInt(PackInt(v) + s) == Got(0, s)
    ensures |s| >= 8 ==>
              ParseProb(m, s) == Got(if 0.0 <= m.value(s[..8]) <= 1.0 then m.value(s[..8]) else 0.0, s[8..])
    ensures NumberMeaning(TDelay, 0) == ANumber(1000) && (v > 0 ==> NumberMeaning(TDelay, v) == ANumber(v))
    ensures NumberMeaning(TBool, 0) == ANumber(0) && (v > 0 ==> NumberMeaning(TBool, v) == ANumber(1))
    ensures v > 4 ==> NumberMeaning(TWhichLength, v) == AWhichLength(DontCare)
    ensures v > 1 ==> NumberMeaning(TDelayKind, v) == ADelayKind(NoDelay)
    ensures IntFits(v) && v != 2 ==> Parse(m, last, TChain, PackInt(v) + s) == Broken
    ensures IntFits(v) && v != 2 && v != 0 ==> Parse(m, last, TState, PackInt(v) + s) == Broken
  {
    IntRoundTrip(v, s);
    var b := PackInt(v);
    assert Range(4) == 0x1_0000_0000;
    WordOfLowBytes(4, v % 0x1_0000_0000);
    assert (b + s)[..4] == b && (b + s)[4..] == s;
  }
}
