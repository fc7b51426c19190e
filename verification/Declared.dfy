// From the declared filter of a chain to the packets the arbitrator applies the
// chain to.
module Declared {
  import opened Basics
  import opened Orders
  import opened Wire
  import opened Configs
  import opened Loader
  import opened Ports
  import opened Filters

  // What a length declaration says of a packet's length.
  predicate LengthMeant(d: LengthDecl, length: int) {
    match d
    case AnyLength => true
    case LengthIs(DontCare, _, _) => true
    case LengthIs(Greater, min, _) => length >= min
    case LengthIs(Lower, _, max) => length <= max
    case LengthIs(Between, min, max) => min <= length <= max
    case LengthIs(NotBetween, min, max) => !(min <= length <= max)
  }

  // ------------------------------------------------------- lines of a length

  datatype Comparison = Below | Equal | Above | AtMost | AtLeast | Unequal

  // The text of a length line, cut into its numbers and operators.
  datatype RangeText =
    | Rising(inverted: bool, first: nat, second: nat)   // [!] first < l < second
    | Falling(inverted: bool, first: nat, second: nat)  // [!] first > l > second
    | Compared(op: Comparison, bound: nat)              // l op bound

  // What the text says of a length, an inverted range everything but the range.
  predicate TextMeant(t: RangeText, length: int) {
    match t
    case Rising(inverted, first, second) => inverted != (first < length < second)
    case Falling(inverted, first, second) => inverted != (first > length > second)
    case Compared(Below, bound) => length < bound
    case Compared(Equal, bound) => length == bound
    case Compared(Above, bound) => length > bound
    case Compared(AtMost, bound) => length <= bound
    case Compared(AtLeast, bound) => length >= bound
    case Compared(Unequal, bound) => length != bound
  }

  // The length is one of the bounds of a strict comparison.
  predicate AtStrictBound(t: RangeText, length: int) {
    match t
    case Rising(_, first, second) => length == first || length == second
    case Falling(_, first, second) => length == first || length == second
    case Compared(op, bound) => (op == Below || op == Above) && length == bound
  }

  // Why a line is refused.
  datatype LengthError = Reversed | TooLong

  datatype LengthResult = Parsed(decl: LengthDecl) | Refused(error: LengthError)

  // parse_range_spec: strict and non-strict comparisons come out alike. A bound
  // that is not set is 0 here and not sent.
  function ParseRange(t: RangeText): LengthResult {
    match t
    case Rising(inverted, first, second) => Ordered(inverted, first, second)
    case Falling(inverted, first, second) => Ordered(inverted, second, first)
    case Compared(Below, bound) => Parsed(LengthIs(Lower, 0, bound))
    case Compared(Equal, bound) => Parsed(LengthIs(Between, bound, bound))
    case Compared(Above, bound) => Parsed(LengthIs(Greater, bound, 0))
    case Compared(AtMost, bound) => Parsed(LengthIs(Lower, 0, bound))
    case Compared(AtLeast, bound) => Parsed(LengthIs(Greater, bound, 0))
    case Compared(Unequal, bound) => Parsed(LengthIs(NotBetween, bound, bound))
  }

  function Ordered(inverted: bool, min: nat, max: nat): LengthResult {
    if max >= min then Parsed(LengthIs(if inverted then NotBetween else Between, min, max)) else Refused(Reversed)
  }

  // The length line of a chain: no bound over 65535.
  function ParseLength(t: RangeText): LengthResult {
    match ParseRange(t)
    case Refused(error) => Refused(error)
    case Parsed(decl) =>
      if decl.LengthIs? && (decl.min > 0xFFFF || decl.max > 0xFFFF) then Refused(TooLong) else Parsed(decl)
  }

  // The declaration agrees with the text exactly if the length is no bound of a
  // strict comparison; and it is one that can be sent.
  lemma {:induction false} LengthLineMeantIff(t: RangeText, decl: LengthDecl, length: int)
    requires ParseLength(t) == Parsed(decl)
    ensures (LengthMeant(decl, length) <==> TextMeant(t, length)) <==> !AtStrictBound(t, length)
    ensures decl.LengthIs? && decl.which != DontCare && IntFits(decl.min) && IntFits(decl.max)
  {
  }

  // A line is refused exactly if its range runs the wrong way or a bound is over
  // 65535.
  lemma {:induction false} LengthRefusedIff(t: RangeText)
    ensures ParseLength(t) == Refused(Reversed) <==>
              (t.Rising? && t.second < t.first) || (t.Falling? && t.first < t.second)
    ensures ParseLength(t) == Refused(TooLong) <==>
              ParseLength(t) != Refused(Reversed) && exists n: nat :: n > 0xFFFF && n in Bounds(t)
  {
    if ParseLength(t) == Refused(TooLong) {
      var n := if t.Compared? then t.bound else if t.first > 0xFFFF then t.first else t.second;
      assert n > 0xFFFF && n in Bounds(t);
    }
  }

  function Bounds(t: RangeText): seq<nat> {
    if t.Compared? then [t.bound] else [t.first, t.second]
  }

  // "l < 3000" lets a packet of length 3000 through.
  lemma {:induction false} StrictLengthMissed()
    ensures var t := Compared(Below, 3000);
            ParseLength(t).Parsed? && LengthMeant(ParseLength(t).decl, 3000) && !TextMeant(t, 3000)
  {
  }

  // ------------------------------------------------------------ whole chains

  // The lines of a chain other than that of the length, as the parser delivers
  // them.
  ghost predicate OthersPass(d: ChainDecl, p: PacketInfo) {
    && FilterPasses(d.source, p.sourceIp, p.sourcePort) && FilterPasses(d.dest, p.destIp, p.destPort)
    && Passes(d.tos, p.tos) && Passes(d.protocols, p.protocol)
  }

  // The declaration of a chain comes from the text of its length line, if it has
  // one.
  predicate FromText(d: ChainDecl, line: Option<RangeText>) {
    match line
    case None => d.length == AnyLength
    case Some(t) => ParseLength(t) == Parsed(d.length)
  }

  // What the chain's source text says about a packet.
  ghost predicate TextPasses(d: ChainDecl, line: Option<RangeText>, p: PacketInfo) {
    OthersPass(d, p) && (line.Some? ==> TextMeant(line.value, p.length))
  }

  // The chain as loaded applies to just the packets its declaration names.
  lemma {:induction false} LoadedChainApplies(c: Chain, d: ChainDecl, p: PacketInfo)
    requires ChainLoaded(c, d) && ShiftableFilter(d.source) && ShiftableFilter(d.dest) && Proper(p)
    ensures Sized(c.filter) && (ChainPasses(c.filter, p) <==> OthersPass(d, p) && LengthMeant(d.length, p.length))
  {
  }

  // And to just the packets its source text names, except for a packet that suits
  // the other lines and whose length is a bound of a strict comparison.
  lemma {:induction false} LoadedChainAppliesIff(c: Chain, d: ChainDecl, line: Option<RangeText>, p: PacketInfo)
    requires ChainLoaded(c, d) && ShiftableFilter(d.source) && ShiftableFilter(d.dest) && Proper(p)
    requires FromText(d, line)
    ensures Sized(c.filter)
    ensures (ChainPasses(c.filter, p) <==> TextPasses(d, line, p)) <==>
              !(OthersPass(d, p) && line.Some? && AtStrictBound(line.value, p.length))
  {
    LoadedChainApplies(c, d, p);
    if line.Some? {
      LengthLineMeantIff(line.value, d.length, p.length);
    }
  }

  // One item of a source or dest line, its ports encoded by the parser: it lets
  // just the listed ports of its address block through.
  lemma {:induction false} PortsKeepTheirMeaning(spec: IpSpec, items: seq<PortRange>, ip: Bytes, port: int)
    requires |ip| == 4 && Shiftable(spec) && 0 <= port < NUM_PORTS
    requires forall q :: SomeContains(spec.ports, q) <==> PortMeant(items, q)
    ensures SpecPasses(spec, ip, port) <==>
              && (items == [] || SomeContains(items, port))
              && forall k: nat | spec.netMask <= k < 32 :: Digit(spec.ip, k) == Digit(ip, k)
  {
    BlockDigits(spec, ip);
  }

  // An address is in the block exactly if the upper bits of the bytes agree.
  lemma {:induction false} BlockDigits(spec: IpSpec, ip: Bytes)
    requires |ip| == 4 && Shiftable(spec)
    ensures SameBlock(spec, ip) <==> forall k: nat | spec.netMask <= k < 32 :: Digit(spec.ip, k) == Digit(ip, k)
  {
    var (a, b) := (Address(spec.ip), Address(ip));
    AddressBound(spec.ip);
    AddressBound(ip);
    ShiftComparesBits(a, b, spec.netMask);
    forall k: nat | spec.netMask <= k < 32 ensures Bit(a, k) == Digit(spec.ip, k) && Bit(b, k) == Digit(ip, k) {
      AddressBit(spec.ip, k);
      AddressBit(ip, k);
    }
  }

  lemma {:induction false} AddressBound(ip: Bytes)
    requires |ip| == 4
    ensures Address(ip) < Pow2(32)
  {
    assert Pow2(8) == 256;
    assert Pow2(16) == 256 * Pow2(8);
    assert Pow2(24) == 256 * Pow2(16);
    assert Pow2(32) == 256 * Pow2(24);
    NumberBound(ip[0], ip[1], ip[2], ip[3]);
  }

  lemma {:induction false} NumberBound(a: nat, b: nat, c: nat, d: nat)
    requires a < 256 && b < 256 && c < 256 && d < 256
    ensures Number(a, b, c, d) < 0x1_0000_0000
  {
  }
}
