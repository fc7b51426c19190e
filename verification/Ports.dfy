// Parser.pm, parse_ip_spec: the ports of an IP specification, gathered into a
// bit array and run-length encoded.
module Ports {
  import opened Wire

  const NUM_PORTS := 0x10000

  predicate Contains(r: PortRange, port: int) {
    r.start <= port <= r.end
  }

  predicate SomeContains(ranges: seq<PortRange>, port: int) {
    exists i | 0 <= i < |ranges| :: Contains(ranges[i], port)
  }

  // In order, each non-empty, and none touching the next.
  ghost predicate Separated(ranges: seq<PortRange>) {
    && (forall i | 0 <= i < |ranges| :: ranges[i].start <= ranges[i].end)
    && (forall i, j | 0 <= i < j < |ranges| :: ranges[i].end + 1 < ranges[j].start)
  }

  // The ranges hold just the selected ports below limit.
  ghost predicate Covers(ranges: seq<PortRange>, selected: seq<bool>, limit: int) {
    && (forall i | 0 <= i < |ranges| :: 0 <= ranges[i].start && ranges[i].end < limit)
    && (forall p | 0 <= p < limit && p < |selected| :: selected[p] <==> SomeContains(ranges, p))
  }

  // Every port named alone or in a range is marked.
  method MarkPorts(items: seq<PortRange>) returns (selected: array<bool>)
    requires forall i | 0 <= i < |items| :: RangeFits(items[i])
    ensures fresh(selected) && selected.Length == NUM_PORTS
    ensures forall p | 0 <= p < NUM_PORTS :: selected[p] <==> SomeContains(items, p)
  {
    selected := new bool[NUM_PORTS](_ => false);
    for i := 0 to |items|
      invariant forall p | 0 <= p < NUM_PORTS :: selected[p] <==> SomeContains(items[..i], p)
    {
      for p := items[i].start to items[i].end + 1
        invariant forall q | 0 <= q < NUM_PORTS ::
                    selected[q] <==> SomeContains(items[..i], q) || items[i].start <= q < p
      {
        selected[p] := true;
      }
      ContainsMore(items[..i], items[i]);
      assert items[..i + 1] == items[..i] + [items[i]];
    }
    assert items[..|items|] == items;
  }

  lemma {:induction false} ContainsMore(ranges: seq<PortRange>, r: PortRange)
    ensures forall p :: SomeContains(ranges + [r], p) <==> SomeContains(ranges, p) || Contains(r, p)
  {
    forall p ensures SomeContains(ranges + [r], p) <==> SomeContains(ranges, p) || Contains(r, p) {
      if SomeContains(ranges, p) {
        var i :| 0 <= i < |ranges| && Contains(ranges[i], p);
        assert Contains((ranges + [r])[i], p);
      }
      if Contains(r, p) {
        assert Contains((ranges + [r])[|ranges|], p);
      }
    }
  }

  // One run more: the ports from start to port - 1, all selected, after a gap.
  lemma {:induction false} RunAdded(ranges: seq<PortRange>, selected: seq<bool>, gap: int, start: int, port: int)
    requires Separated(ranges) && Covers(ranges, selected, gap) && 0 <= gap <= start < port <= |selected|
    requires forall p | gap <= p < start :: !selected[p]
    requires forall p | start <= p < port :: selected[p]
    requires forall i | 0 <= i < |ranges| :: ranges[i].end + 1 < start
    ensures Separated(ranges + [PortRange(start, port - 1)])
            && Covers(ranges + [PortRange(start, port - 1)], selected, port)
  {
    var r := PortRange(start, port - 1);
    ContainsMore(ranges, r);
  }

  lemma {:induction false} GapAdded(ranges: seq<PortRange>, selected: seq<bool>, gap: int, port: int)
    requires Covers(ranges, selected, gap) && 0 <= gap <= port <= |selected|
    requires forall p | gap <= p < port :: !selected[p]
    ensures Covers(ranges, selected, port)
  {
  }

  // The run-length encoding loop; all ports if none is selected.
  method EncodePorts(selected: array<bool>) returns (ranges: seq<PortRange>)
    requires selected.Length == NUM_PORTS
    ensures Separated(ranges)
    ensures (exists p :: 0 <= p < NUM_PORTS && selected[p]) ==> Covers(ranges, selected[..], NUM_PORTS)
    ensures (forall p | 0 <= p < NUM_PORTS :: !selected[p]) ==> ranges == [PortRange(0, NUM_PORTS - 1)]
  {
    ranges := [];
    var port := 0;
    ghost var bits := selected[..];
    while port < NUM_PORTS
      invariant 0 <= port <= NUM_PORTS && Separated(ranges) && Covers(ranges, bits, port)
      invariant port > 0 && port < NUM_PORTS ==> !bits[port]
      invariant ranges == [] ==> forall p | 0 <= p < port :: !bits[p]
    {
      ghost var gap := port;
      while port < NUM_PORTS && !selected[port]
        invariant gap <= port <= NUM_PORTS && forall p | gap <= p < port :: !bits[p]
      {
        port := port + 1;
      }
      GapAdded(ranges, bits, gap, port);
      if port == NUM_PORTS {
        break;
      }
      var startPort := port;
      while port < NUM_PORTS && selected[port]
        invariant startPort <= port <= NUM_PORTS && forall p | startPort <= p < port :: bits[p]
      {
        port := port + 1;
      }
      RunAdded(ranges, bits, startPort, startPort, port);
      ranges := ranges + [PortRange(startPort, port - 1)];
    }
    if ranges == [] {
      ranges := [PortRange(0, NUM_PORTS - 1)];
    } else {
      assert Contains(ranges[0], ranges[0].start) && SomeContains(ranges, ranges[0].start);
    }
  }

  // What a specification's ports mean: the listed ones, or all if none is.
  ghost predicate PortMeant(items: seq<PortRange>, port: int) {
    0 <= port < NUM_PORTS && (items == [] || SomeContains(items, port))
  }

  // The ports of one IP specification. The ranges mean what the list means, and
  // the line can carry them.
  method ParsePortList(items: seq<PortRange>) returns (ranges: seq<PortRange>)
    requires forall i | 0 <= i < |items| :: RangeFits(items[i])
    ensures Separated(ranges) && forall i | 0 <= i < |ranges| :: RangeFits(ranges[i])
    ensures forall port :: SomeContains(ranges, port) <==> PortMeant(items, port)
  {
    var selected := MarkPorts(items);
    if items != [] {
      assert Contains(items[0], items[0].start) && SomeContains(items, items[0].start);
      assert selected[items[0].start];
    }
    ranges := EncodePorts(selected);
    if items == [] {
      assert forall port | Contains(ranges[0], port) :: SomeContains(ranges, port);
    }
    forall i | 0 <= i < |ranges| ensures RangeFits(ranges[i]) {}
  }

  lemma {:induction false} FirstContained(a: seq<PortRange>)
    requires Separated(a) && a != []
    ensures SomeContains(a, a[0].start)
  {
  }

  // No other list of separated ranges holds just these ports.
  lemma {:induction false} EncodingUnique(a: seq<PortRange>, b: seq<PortRange>)
    requires Separated(a) && Separated(b) && forall port :: SomeContains(a, port) <==> SomeContains(b, port)
    ensures a == b
    decreases |a|
  {
    if a == [] || b == [] {
      if a != [] {
        FirstContained(a);
      }
      if b != [] {
        FirstContained(b);
      }
    } else {
      FirstAgree(a, b);
      FirstAgree(b, a);
      TailsAgree(a, b);
      EncodingUnique(a[1..], b[1..]);
      assert a == [a[0]] + a[1..] && b == [b[0]] + b[1..];
    }
  }

  lemma {:induction false} TailsAgree(a: seq<PortRange>, b: seq<PortRange>)
    requires Separated(a) && Separated(b) && a != [] && b != [] && a[0] == b[0]
    requires forall port :: SomeContains(a, port) <==> SomeContains(b, port)
    ensures Separated(a[1..]) && Separated(b[1..])
    ensures forall port :: SomeContains(a[1..], port) <==> SomeContains(b[1..], port)
  {
    forall port ensures SomeContains(a[1..], port) <==> SomeContains(b[1..], port) {
      TailContains(a, port);
      TailContains(b, port);
    }
    assert forall i | 0 <= i < |a[1..]| :: a[1..][i] == a[i + 1];
    assert forall i | 0 <= i < |b[1..]| :: b[1..][i] == b[i + 1];
  }

  // a's first range starts no later and ends no earlier than b's.
  lemma {:induction false} FirstAgree(a: seq<PortRange>, b: seq<PortRange>)
    requires Separated(a) && Separated(b) && a != [] && b != []
    requires forall port :: SomeContains(a, port) <==> SomeContains(b, port)
    ensures a[0].start <= b[0].start && (a[0].start == b[0].start ==> a[0].end >= b[0].end)
  {
    FirstContained(b);
    var k :| 0 <= k < |a| && Contains(a[k], b[0].start);
    assert a[0].start <= a[k].start;
    if a[0].start == b[0].start && a[0].end < b[0].end {
      assert Contains(b[0], a[0].end + 1) && SomeContains(b, a[0].end + 1);
      forall i | 0 <= i < |a| ensures !Contains(a[i], a[0].end + 1) {
        assert i > 0 ==> a[0].end + 1 < a[i].start;
      }
    }
  }

  lemma {:induction false} TailContains(a: seq<PortRange>, port: int)
    requires Separated(a) && a != []
    ensures SomeContains(a[1..], port) <==> SomeContains(a, port) && port > a[0].end
  {
  }
}
