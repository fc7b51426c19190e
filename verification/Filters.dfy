// packet_logic.c: does a packet suit the filter of a chain?
module Filters {
  import opened Basics
  import opened Orders
  import opened Wire
  import opened Configs
  import opened Ports

  // The summary of a packet; the ports are -1 unless it is TCP or UDP.
  datatype PacketInfo = PacketInfo(sourceIp: Bytes, destIp: Bytes, tos: nat, protocol: nat, length: int,
                                   sourcePort: int, destPort: int)

  // The 32-bit number an address stands for.
  function Address(ip: Bytes): nat
    requires |ip| == 4
  {
    Number(ip[0], ip[1], ip[2], ip[3])
  }

  function Number(a: nat, b: nat, c: nat, d: nat): nat {
    ((a * 256 + b) * 256 + c) * 256 + d
  }

  function ShiftRight(n: nat, width: nat): nat {
    if width == 0 then n else ShiftRight(n / 2, width - 1)
  }

  function Bit(n: nat, k: nat): (b: nat)
    ensures b <= 1
  {
    ShiftRight(n, k) % 2
  }

  lemma {:induction false} ShiftTwice(n: nat, k: nat)
    ensures ShiftRight(n, k + 1) == ShiftRight(n, k) / 2
    decreases k
  {
    if k > 0 {
      ShiftTwice(n / 2, k - 1);
    }
  }

  lemma {:induction false} ShiftedAway(n: nat, width: nat)
    requires n < Pow2(width)
    ensures ShiftRight(n, width) == 0
    decreases width
  {
    if width > 0 {
      ShiftedAway(n / 2, width - 1);
    }
  }

  // Numbers agree after the shift exactly if their upper bits agree.
  lemma {:induction false} ShiftComparesBits(a: nat, b: nat, width: nat)
    requires width <= 32 && a < Pow2(32) && b < Pow2(32)
    ensures ShiftRight(a, width) == ShiftRight(b, width) <==> forall k: nat | width <= k < 32 :: Bit(a, k) == Bit(b, k)
    decreases 32 - width
  {
    if width == 32 {
      ShiftedAway(a, 32);
      ShiftedAway(b, 32);
    } else {
      ShiftTwice(a, width);
      ShiftTwice(b, width);
      ShiftComparesBits(a, b, width + 1);
      assert (forall k: nat | width <= k < 32 :: Bit(a, k) == Bit(b, k))
        <==> Bit(a, width) == Bit(b, width) && forall k: nat | width + 1 <= k < 32 :: Bit(a, k) == Bit(b, k);
    }
  }

  // ------------------------------------------------------ bits of an address

  lemma {:induction false} ShiftAdds(n: nat, j: nat, k: nat)
    ensures ShiftRight(n, j + k) == ShiftRight(ShiftRight(n, j), k)
    decreases j
  {
    if j > 0 {
      ShiftAdds(n / 2, j - 1, k);
    }
  }

  // Behind n * m, with m the power of two for j, the low j bits are those of b.
  lemma {:induction false} LowBit(n: nat, m: nat, b: nat, j: nat, k: nat)
    requires m == Pow2(j) && k < j
    ensures Bit(n * m + b, k) == Bit(b, k)
    decreases k
  {
    var half := Pow2(j - 1);
    assert n * m == n * (2 * half) == 2 * (n * half);
    if k == 0 {
      assert (2 * (n * half) + b) % 2 == b % 2;
    } else {
      assert (n * m + b) / 2 == n * half + b / 2;
      LowBit(n, half, b / 2, j - 1, k - 1);
    }
  }

  // Shifting by a byte drops the low one.
  lemma {:induction false} ShiftByte(n: nat, b: nat)
    requires b < 256
    ensures ShiftRight(n * 256 + b, 8) == n
  {
    var m := n * 256 + b;
    ShiftAdds(m, 4, 4);
    ShiftFour(m);
    ShiftFour(m / 16);
  }

  lemma {:induction false} ShiftFour(m: nat)
    ensures ShiftRight(m, 4) == m / 16
  {
    assert ShiftRight(m / 8 / 2, 0) == m / 16;
    assert ShiftRight(m / 4 / 2, 1) == m / 16;
    assert ShiftRight(m / 2 / 2, 2) == m / 16;
  }

  lemma {:induction false} ByteBit(n: nat, b: nat, k: nat)
    requires b < 256
    ensures Bit(n * 256 + b, k) == if k < 8 then Bit(b, k) else Bit(n, k - 8)
  {
    if k < 8 {
      assert Pow2(8) == 256;
      LowBit(n, 256, b, 8, k);
    } else {
      ShiftByte(n, b);
      ShiftAdds(n * 256 + b, 8, k - 8);
    }
  }

  // Bit k of an address, the upper bits being those of the first byte.
  function Digit(ip: Bytes, k: nat): nat
    requires |ip| == 4 && k < 32
  {
    Bit(ip[3 - k / 8], k % 8)
  }

  lemma {:induction false} AddressBit(ip: Bytes, k: nat)
    requires |ip| == 4 && k < 32
    ensures Bit(Address(ip), k) == Digit(ip, k)
  {
    var (a, b, c, d) := (ip[0] as nat, ip[1] as nat, ip[2] as nat, ip[3] as nat);
    ByteBit((a * 256 + b) * 256 + c, d, k);
    if k >= 8 {
      ByteBit(a * 256 + b, c, k - 8);
    }
    if k >= 16 {
      ByteBit(a, b, k - 16);
    }
  }

  // The bits of a byte are its binary digits.
  lemma {:induction false} BitsMakeByte(b: nat)
    requires b < 256
    ensures b == Bit(b, 0) + 2 * Bit(b, 1) + 4 * Bit(b, 2) + 8 * Bit(b, 3)
                 + 16 * Bit(b, 4) + 32 * Bit(b, 5) + 64 * Bit(b, 6) + 128 * Bit(b, 7)
  {
    LowDigits(b, 0);
    LowDigits(b, 4);
    ShiftByte(0, b);
  }

  lemma {:induction false} LowDigits(b: nat, j: nat)
    ensures ShiftRight(b, j) == Bit(b, j) + 2 * Bit(b, j + 1) + 4 * Bit(b, j + 2) + 8 * Bit(b, j + 3)
                                + 16 * ShiftRight(b, j + 4)
  {
    ShiftTwice(b, j);
    ShiftTwice(b, j + 1);
    ShiftTwice(b, j + 2);
    ShiftTwice(b, j + 3);
  }

  // The low netMask bits of the address do not matter.
  predicate SameBlock(spec: IpSpec, ip: Bytes)
    requires |spec.ip| == 4 && |ip| == 4 && spec.netMask >= 0
  {
    ShiftRight(Address(spec.ip), spec.netMask) == ShiftRight(Address(ip), spec.netMask)
  }

  // So a mask of 8, 16 or 24 bits leaves the first three, two or one bytes to match.
  lemma {:induction false} BlockOfBytes(spec: IpSpec, ip: Bytes)
    requires |spec.ip| == 4 && |ip| == 4
    ensures spec.netMask == 8 ==> (SameBlock(spec, ip) <==> spec.ip[..3] == ip[..3])
    ensures spec.netMask == 16 ==> (SameBlock(spec, ip) <==> spec.ip[..2] == ip[..2])
    ensures spec.netMask == 24 ==> (SameBlock(spec, ip) <==> spec.ip[..1] == ip[..1])
  {
    BytesShifted(spec.ip);
    BytesShifted(ip);
    SameNumber(spec.ip, ip, 3);
    SameNumber(spec.ip, ip, 2);
    SameNumber(spec.ip, ip, 1);
  }

  // The number of the first n bytes.
  function Leading(ip: Bytes, n: nat): nat
    requires n <= |ip|
  {
    if n == 0 then 0 else Leading(ip, n - 1) * 256 + ip[n - 1]
  }

  lemma {:induction false} SameNumber(a: Bytes, b: Bytes, n: nat)
    requires n <= |a| && n <= |b|
    ensures Leading(a, n) == Leading(b, n) <==> a[..n] == b[..n]
  {
    if n > 0 {
      SameNumber(a, b, n - 1);
      assert a[..n] == a[..n - 1] + [a[n - 1]] && b[..n] == b[..n - 1] + [b[n - 1]];
      assert a[..n] == b[..n] ==> a[..n - 1] == b[..n][..n - 1] && a[n - 1] == b[..n][n - 1];
    }
  }

  lemma {:induction false} BytesShifted(ip: Bytes)
    requires |ip| == 4
    ensures ShiftRight(Address(ip), 8) == Leading(ip, 3)
    ensures ShiftRight(Address(ip), 16) == Leading(ip, 2)
    ensures ShiftRight(Address(ip), 24) == Leading(ip, 1)
  {
    assert Leading(ip, 1) == ip[0] && Address(ip) == Leading(ip, 3) * 256 + ip[3];
    ShiftByte(Leading(ip, 3), ip[3]);
    ShiftByte(Leading(ip, 2), ip[2]);
    ShiftByte(Leading(ip, 1), ip[1]);
    ShiftAdds(Address(ip), 8, 8);
    ShiftAdds(Address(ip), 16, 8);
  }

  // A shift by 32 is not defined in C.
  predicate Shiftable(spec: IpSpec) {
    |spec.ip| == 4 && 0 <= spec.netMask < 32
  }

  predicate ShiftableFilter(filter: Option<seq<IpSpec>>) {
    filter.Some? ==> forall i | 0 <= i < |filter.value| :: Shiftable(filter.value[i])
  }

  ghost predicate SpecPasses(spec: IpSpec, ip: Bytes, port: int) {
    |ip| == 4 && Shiftable(spec) && SameBlock(spec, ip) && (port == -1 || SomeContains(spec.ports, port))
  }

  // Any of the specifications, or no filter at all.
  ghost predicate FilterPasses(filter: Option<seq<IpSpec>>, ip: Bytes, port: int) {
    filter == None || exists i | 0 <= i < |filter.value| :: SpecPasses(filter.value[i], ip, port)
  }

  // is_in_ip_filter
  method IsInIpFilter(filter: Option<seq<IpSpec>>, ip: Bytes, port: int) returns (r: bool)
    requires |ip| == 4 && ShiftableFilter(filter)
    ensures r <==> FilterPasses(filter, ip, port)
  {
    if filter == None {
      return true;
    }
    var specs := filter.value;
    for n := 0 to |specs|
      invariant forall i | 0 <= i < n :: !SpecPasses(specs[i], ip, port)
    {
      var spec := specs[n];
      assert Shiftable(spec);
      if SameBlock(spec, ip) {
        if port == -1 {
          assert SpecPasses(specs[n], ip, port);
          return true;
        }
        for i := 0 to |spec.ports|
          invariant forall j | 0 <= j < i :: !Contains(spec.ports[j], port)
        {
          if spec.ports[i].start <= port && port <= spec.ports[i].end {
            assert Contains(spec.ports[i], port) && SomeContains(spec.ports, port);
            assert SpecPasses(specs[n], ip, port);
            return true;
          }
        }
      }
    }
    return false;
  }

  predicate LengthPasses(f: Filter, length: int) {
    match f.which
    case DontCare => true
    case Greater => length >= f.minLength
    case Lower => length <= f.maxLength
    case Between => f.minLength <= length <= f.maxLength
    case NotBetween => length < f.minLength || length > f.maxLength
  }

  predicate Sized(f: Filter) {
    |f.protocols| == 32 && |f.tos| == 8 && ShiftableFilter(f.source) && ShiftableFilter(f.dest)
  }

  predicate Proper(p: PacketInfo) {
    |p.sourceIp| == 4 && |p.destIp| == 4 && p.tos < 64 && p.protocol < 256
  }

  ghost predicate ChainPasses(f: Filter, p: PacketInfo)
    requires Sized(f) && Proper(p)
  {
    && FilterPasses(f.source, p.sourceIp, p.sourcePort) && FilterPasses(f.dest, p.destIp, p.destPort)
    && HasBit(f.tos, p.tos) && HasBit(f.protocols, p.protocol) && LengthPasses(f, p.length)
  }

  // is_in_chain_filter
  method IsInChainFilter(f: Filter, p: PacketInfo) returns (r: bool)
    requires Sized(f) && Proper(p)
    ensures r <==> ChainPasses(f, p)
  {
    r := IsInIpFilter(f.source, p.sourceIp, p.sourcePort);
    if !r {
      return;
    }
    r := IsInIpFilter(f.dest, p.destIp, p.destPort);
    if !r {
      return;
    }
    if !HasBit(f.tos, p.tos) {
      return false;
    }
    if !HasBit(f.protocols, p.protocol) {
      return false;
    }
    var long, short := p.length >= f.minLength, p.length <= f.maxLength;
    match f.which
    case DontCare => return true;
    case Greater => return long;
    case Lower => return short;
    case Between => return long && short;
    case NotBetween => return !(long && short);
  }
}
