// iface.c, iface_handlers.c: the arbitrator's end of the configuration line. The
// reader advances the queue's pointer, the handlers edit the configuration.
module Ifaces {
  import opened Orders
  import opened Wire
  import opened TextQueues
  import opened Configs
  import opened Protocol
  import opened Schedules
  import opened Bsearch

  // What a reader answers, given what the bytes say: status and value, and what
  // is pending afterwards.
  ghost predicate Answers<T>(p: Parsed<T>, status: ReadStatus, value: T, pending: Bytes, closed: bool) {
    match p
    case Got(v, rest) => status == ReadOk && value == v && pending == rest
    case Short => status == if closed then ConnTerm else NotFully
    case Broken => status == Exited
  }

  // What a handler answers: the return code and the out parameters go into the
  // reply.
  ghost predicate Handled(o: Outcome, status: ReadStatus, s: Session, code: int, outs: seq<int>, pending: Bytes,
                          closed: bool) {
    match o
    case Completed(s', rest) => status == ReadOk && Reply(s, code, outs) == s' && pending == rest
    case Waiting => status == if closed then ConnTerm else NotFully
    case Unknown(_) => false
    case Crashed => status == Exited
  }

  lemma {:induction false} ThenThen<T>(acc: seq<T>, x: T, p: Parsed<seq<T>>)
    ensures Then(acc, Then([x], p)) == Then(acc + [x], p)
  {
    if p.Got? {
      assert acc + ([x] + p.value) == (acc + [x]) + p.value;
    }
  }

  lemma {:induction false} ThenNothing<T>(p: Parsed<seq<T>>)
    ensures Then([], p) == p
  {
    if p.Got? {
      assert [] + p.value == p.value;
    }
  }

  lemma {:induction false} AndThenThen(acc: seq<int>, x: int, p: Parsed<Option<seq<int>>>)
    ensures AndThen(acc, AndThen([x], p)) == AndThen(acc + [x], p)
  {
    if p.Got? && p.value.Some? {
      assert acc + ([x] + p.value.value) == (acc + [x]) + p.value.value;
    }
  }

  lemma {:induction false} AndThenNothing(p: Parsed<Option<seq<int>>>)
    ensures AndThen([], p) == p
  {
    if p.Got? && p.value.Some? {
      assert [] + p.value.value == p.value.value;
    }
  }

  class Iface {
    const m: Machine
    const queue: TextQueueIn
    var data: Data
    var last: Last
    var running: bool
    var sent: Bytes
    var alive: bool

    ghost predicate Valid()
      reads this, queue
    {
      queue.Valid()
    }

    function Connection(): Session
      reads this
    {
      Session(data, last, running, sent)
    }

    // The state of the line as a value.
    ghost function CurrentLine(): Line
      requires Valid()
      reads this, queue, queue.buffer
    {
      Line(queue.Kept(), queue.ptrOffset, Connection(), alive)
    }

    // init_connection: starts from a copy of the configuration in use, with the
    // last chain and state of the connection before.
    constructor (m: Machine, data: Data, last: Last)
      ensures Valid() && fresh(queue) && fresh(queue.buffer) && this.m == m && !queue.isConnClosed
      ensures CurrentLine() == Start(Session(data, last, true, []))
    {
      this.m := m;
      queue := new TextQueueIn();
      this.data, this.last, running, sent, alive := data, last, true, [], true;
    }

    method ReadInt() returns (status: ReadStatus, value: nat)
      requires Valid()
      modifies queue`ptrOffset
      ensures Valid() && queue.Kept() == old(queue.Kept())
      ensures Answers(ParseInt(old(queue.Pending())), status, value, queue.Pending(), queue.isConnClosed)
    {
      var buffer;
      status, buffer := queue.ReadBytes(4);
      value := if status == ReadOk then IntOf(buffer) else 0;
    }

    method ReadUint16() returns (status: ReadStatus, value: nat)
      requires Valid()
      modifies queue`ptrOffset
      ensures Valid() && queue.Kept() == old(queue.Kept())
      ensures Answers(ParseUint16(old(queue.Pending())), status, value, queue.Pending(), queue.isConnClosed)
    {
      var buffer;
      status, buffer := queue.ReadBytes(2);
      value := if status == ReadOk then Word(buffer) else 0;
    }

    method ReadName() returns (status: ReadStatus, name: Bytes)
      requires Valid()
      modifies queue`ptrOffset
      ensures Valid() && queue.Kept() == old(queue.Kept())
      ensures Answers(ParseName(old(queue.Pending())), status, name, queue.Pending(), queue.isConnClosed)
    {
      status, name := queue.ReadBytes(80);
      if status == ReadOk {
        name := CString(name[79 := 0]);
      }
    }

    method ReadProb() returns (status: ReadStatus, prob: real)
      requires Valid()
      modifies queue`ptrOffset
      ensures Valid() && queue.Kept() == old(queue.Kept())
      ensures Answers(ParseProb(m, old(queue.Pending())), status, prob, queue.Pending(), queue.isConnClosed)
    {
      var d;
      status, d := queue.ReadBytes(8);
      prob := 0.0;
      if status == ReadOk {
        prob := m.value(d);
        if prob < 0.0 || prob > 1.0 {
          prob := 0.0;
        }
      }
    }

    method ReadChain() returns (status: ReadStatus, chain: int)
      requires Valid()
      modifies queue`ptrOffset
      ensures Valid() && queue.Kept() == old(queue.Kept())
      ensures Answers(ParseChain(last, old(queue.Pending())), status, chain, queue.Pending(), queue.isConnClosed)
    {
      var which;
      status, which := ReadInt();
      chain := last.chain;
      if status == ReadOk && which != 2 {
        status := Exited;
      }
    }

    method ReadState() returns (status: ReadStatus, state: int)
      requires Valid()
      modifies queue`ptrOffset
      ensures Valid() && queue.Kept() == old(queue.Kept())
      ensures Answers(ParseState(last, old(queue.Pending())), status, state, queue.Pending(), queue.isConnClosed)
    {
      var which;
      status, which := ReadInt();
      state := last.state;
      if status == ReadOk {
        if which == 0 {
          status, state := ReadInt();
        } else if which != 2 {
          status := Exited;
        }
      }
    }

    // Port ranges up to one that ends before it starts.
    method ReadPorts() returns (status: ReadStatus, ports: seq<PortRange>)
      requires Valid()
      modifies queue`ptrOffset
      ensures Valid() && queue.Kept() == old(queue.Kept())
      ensures Answers(ParsePorts(old(queue.Pending())), status, ports, queue.Pending(), queue.isConnClosed)
    {
      ghost var input := queue.Pending();
      ports := [];
      ThenNothing(ParsePorts(input));
      while true
        invariant Valid() && queue.Kept() == old(queue.Kept())
        invariant Then(ports, ParsePorts(queue.Pending())) == ParsePorts(input)
        decreases |queue.Pending()|
      {
        var start, end;
        status, start := ReadUint16();
        if status != ReadOk {
          return;
        }
        status, end := ReadUint16();
        if status != ReadOk {
          return;
        }
        if start > end {
          assert ports + [] == ports;
          return;
        }
        ThenThen(ports, PortRange(start, end), ParsePorts(queue.Pending()));
        ports := ports + [PortRange(start, end)];
      }
    }

    // One round of the filter loop.
    method ReadSpec() returns (status: ReadStatus, spec: IpSpec)
      requires Valid()
      modifies queue`ptrOffset
      ensures Valid() && queue.Kept() == old(queue.Kept())
      ensures Answers(ParseSpec(old(queue.Pending())), status, spec, queue.Pending(), queue.isConnClosed)
    {
      var ip, netMask, ports;
      spec := IpSpec([], 0, []);
      status, ip := queue.ReadBytes(4);
      if status != ReadOk {
        return;
      }
      status, netMask := ReadInt();
      if status != ReadOk {
        return;
      }
      status, ports := ReadPorts();
      spec := IpSpec(ip, netMask, ports);
    }

    // The list of specs up to the terminator.
    method ReadFilter() returns (status: ReadStatus, specs: seq<IpSpec>)
      requires Valid()
      modifies queue`ptrOffset
      ensures Valid() && queue.Kept() == old(queue.Kept())
      ensures Answers(ParseFilter(old(queue.Pending())), status, specs, queue.Pending(), queue.isConnClosed)
    {
      ghost var input := queue.Pending();
      var ip := [0, 0, 0, 0];
      specs, status := [], ReadOk;
      ThenNothing(ParseSpecs(input));
      while ip != TERMINATOR
        invariant Valid() && queue.Kept() == old(queue.Kept())
        invariant ip != TERMINATOR ==> Then(specs, ParseSpecs(queue.Pending())) == ParseSpecs(input)
        invariant ip == TERMINATOR ==> Got(specs, queue.Pending()) == ParseSpecs(input)
        invariant status == ReadOk
        decreases |queue.Pending()|, ip != TERMINATOR
      {
        var spec;
        SpecShrinks(queue.Pending());
        status, spec := ReadSpec();
        if status != ReadOk {
          return;
        }
        ip := spec.ip;
        if ip != TERMINATOR {
          ThenThen(specs, spec, ParseSpecs(queue.Pending()));
          specs := specs + [spec];
        } else {
          assert specs + [] == specs;
        }
      }
      if specs == [] {
        status := Exited;
      }
    }

    // The points up to the first of probability 1.
    method ReadPoints() returns (status: ReadStatus, points: seq<Point>)
      requires Valid()
      modifies queue`ptrOffset
      ensures Valid() && queue.Kept() == old(queue.Kept())
      ensures Answers(ParsePoints(m, old(queue.Pending())), status, points, queue.Pending(), queue.isConnClosed)
    {
      ghost var input := queue.Pending();
      points := [];
      var prob := 0.0;
      status := ReadOk;
      ThenNothing(ParsePoints(m, input));
      while prob < 1.0
        invariant Valid() && queue.Kept() == old(queue.Kept()) && status == ReadOk
        invariant prob < 1.0 ==> Then(points, ParsePoints(m, queue.Pending())) == ParsePoints(m, input)
        invariant !(prob < 1.0) ==> Got(points, queue.Pending()) == ParsePoints(m, input)
        decreases |queue.Pending()|
      {
        var delay;
        status, prob := ReadProb();
        if status != ReadOk {
          return;
        }
        status, delay := ReadInt();
        if status != ReadOk {
          return;
        }
        ThenThen(points, Point(prob, delay), ParsePoints(m, queue.Pending()));
        points := points + [Point(prob, delay)];
      }
    }

    // read_param_type for the types that travel as one int
    method ReadNumber(t: ParamType) returns (status: ReadStatus, value: Value)
      requires Valid()
      modifies queue`ptrOffset
      ensures Valid() && queue.Kept() == old(queue.Kept())
      ensures Answers(ParseNumber(t, old(queue.Pending())), status, value, queue.Pending(), queue.isConnClosed)
    {
      var n;
      status, n := ReadInt();
      value := NumberMeaning(t, n);
    }

    // read_param_type
    method ReadParam(t: ParamType) returns (status: ReadStatus, value: Value)
      requires Valid()
      modifies queue`ptrOffset
      ensures Valid() && queue.Kept() == old(queue.Kept())
      ensures Answers(Parse(m, last, t, old(queue.Pending())), status, value, queue.Pending(), queue.isConnClosed)
    {
      match t
      case TString =>
        var name;
        status, name := ReadName();
        value := AString(name);
      case TChain =>
        var n;
        status, n := ReadChain();
        value := ANumber(n);
      case TState =>
        var n;
        status, n := ReadState();
        value := ANumber(n);
      case TIpFilter =>
        var specs;
        status, specs := ReadFilter();
        value := AFilter(specs);
      case TProb =>
        var prob;
        status, prob := ReadProb();
        value := AProb(prob);
      case TPoints =>
        var points;
        status, points := ReadPoints();
        value := SomePoints(points);
      case _ =>
        status, value := ReadNumber(t);
    }

    // The parameters of a transaction, one at a time.
    method ReadParams(types: seq<ParamType>) returns (status: ReadStatus, values: seq<Value>)
      requires Valid()
      modifies queue`ptrOffset
      ensures Valid() && queue.Kept() == old(queue.Kept())
      ensures Answers(ParseAll(m, last, types, old(queue.Pending())), status, values, queue.Pending(),
              queue.isConnClosed)
    {
      ghost var input := queue.Pending();
      values, status := [], ReadOk;
      ThenNothing(ParseAll(m, last, types, input));
      assert types[0..] == types;
      for a := 0 to |types|
        invariant Valid() && queue.Kept() == old(queue.Kept()) && status == ReadOk
        invariant Then(values, ParseAll(m, last, types[a..], queue.Pending())) == ParseAll(m, last, types, input)
      {
        var value;
        assert types[a..][0] == types[a] && types[a..][1..] == types[a + 1..];
        status, value := ReadParam(types[a]);
        if status != ReadOk {
          return;
        }
        ThenThen(values, value, ParseAll(m, last, types[a + 1..], queue.Pending()));
        values := values + [value];
      }
      assert values + [] == values;
    }

    // ---------------------------------------------------------- set_move_probs

    // State references, each below limit; gives up at one that is not.
    method ReadStates(limit: nat, n: nat) returns (status: ReadStatus, states: Option<seq<int>>)
      requires Valid()
      modifies queue`ptrOffset
      ensures Valid() && queue.Kept() == old(queue.Kept())
      ensures Answers(ParseStates(last, limit, n, old(queue.Pending())), status, states, queue.Pending(),
              queue.isConnClosed)
      ensures states.Some? && status == ReadOk ==> |states.value| == n
    {
      ghost var input := queue.Pending();
      var refs: seq<int> := [];
      status, states := ReadOk, None;
      AndThenNothing(ParseStates(last, limit, n, input));
      for i := 0 to n
        invariant Valid() && queue.Kept() == old(queue.Kept()) && |refs| == i && states == None
        invariant AndThen(refs, ParseStates(last, limit, n - i, queue.Pending())) == ParseStates(last, limit, n, input)
      {
        var state;
        status, state := ReadState();
        if status != ReadOk || state >= limit {
          return;
        }
        AndThenThen(refs, state, ParseStates(last, limit, n - i - 1, queue.Pending()));
        refs := refs + [state];
      }
      assert refs + [] == refs;
      status, states := ReadOk, Some(refs);
    }

    method ReadRow(n: nat) returns (status: ReadStatus, row: seq<real>)
      requires Valid()
      modifies queue`ptrOffset
      ensures Valid() && queue.Kept() == old(queue.Kept())
      ensures Answers(ParseRow(m, n, old(queue.Pending())), status, row, queue.Pending(), queue.isConnClosed)
      ensures status == ReadOk ==> |row| == n
    {
      ghost var input := queue.Pending();
      row, status := [], ReadOk;
      ThenNothing(ParseRow(m, n, input));
      for d := 0 to n
        invariant Valid() && queue.Kept() == old(queue.Kept()) && |row| == d && status == ReadOk
        invariant Then(row, ParseRow(m, n - d, queue.Pending())) == ParseRow(m, n, input)
      {
        var prob;
        status, prob := ReadProb();
        if status != ReadOk {
          return;
        }
        ThenThen(row, prob, ParseRow(m, n - d - 1, queue.Pending()));
        row := row + [prob];
      }
      assert row + [] == row;
    }

    method ReadTable(n: nat, width: nat) returns (status: ReadStatus, rows: seq<seq<real>>)
      requires Valid()
      modifies queue`ptrOffset
      ensures Valid() && queue.Kept() == old(queue.Kept())
      ensures Answers(ParseTable(m, n, width, old(queue.Pending())), status, rows, queue.Pending(), queue.isConnClosed)
      ensures status == ReadOk ==> |rows| == n && forall s | 0 <= s < n :: |rows[s]| == width
    {
      ghost var input := queue.Pending();
      rows, status := [], ReadOk;
      ThenNothing(ParseTable(m, n, width, input));
      for s := 0 to n
        invariant Valid() && queue.Kept() == old(queue.Kept()) && |rows| == s && status == ReadOk
        invariant forall k | 0 <= k < s :: |rows[k]| == width
        invariant Then(rows, ParseTable(m, n - s, width, queue.Pending())) == ParseTable(m, n, width, input)
      {
        var row;
        status, row := ReadRow(width);
        if status != ReadOk {
          return;
        }
        ThenThen(rows, row, ParseTable(m, n - s - 1, width, queue.Pending()));
        rows := rows + [row];
      }
      assert rows + [] == rows;
    }

    // The inner loop of the assignment.
    method WriteOneRow(row: seq<real>, dests: seq<int>, probs: seq<real>) returns (r: seq<real>)
      requires |dests| == |probs| && InRange(dests, |row|)
      ensures r == WriteRow(row, dests, probs)
    {
      r := row;
      assert dests[0..] == dests && probs[0..] == probs;
      for d := 0 to |dests|
        invariant |r| == |row| && WriteRow(r, dests[d..], probs[d..]) == WriteRow(row, dests, probs)
      {
        assert dests[d..][0] == dests[d] && dests[d..][1..] == dests[d + 1..] && probs[d..][1..] == probs[d + 1..];
        r := r[dests[d] := probs[d]];
      }
    }

    method WriteAllRows(states: seq<State>, sources: seq<int>, dests: seq<int>, rows: seq<seq<real>>)
      returns (r: seq<State>)
      requires Square(states) && InRange(sources, |states|) && InRange(dests, |states|) && Table(rows, sources, dests)
      ensures r == WriteRows(states, sources, dests, rows)
    {
      r := states;
      assert sources[0..] == sources && rows[0..] == rows;
      for s := 0 to |sources|
        invariant |r| == |states| && Square(r)
        invariant WriteRows(r, sources[s..], dests, rows[s..]) == WriteRows(states, sources, dests, rows)
      {
        assert sources[s..][0] == sources[s] && sources[s..][1..] == sources[s + 1..];
        assert rows[s..][0] == rows[s] && rows[s..][1..] == rows[s + 1..];
        RowLength(r[sources[s]].moveTos, dests, rows[s]);
        var row := WriteOneRow(r[sources[s]].moveTos, dests, rows[s]);
        r := r[sources[s] := r[sources[s]].(moveTos := row)];
      }
    }

    // Reads the three lists and writes the probabilities. A reference of -1 would
    // be written through outside the arrays; the model ends there.
    method SetMoveProbs(c: nat, numSources: nat, numDests: nat) returns (status: ReadStatus, code: int)
      requires Valid() && c < |data|
      modifies queue`ptrOffset, this`data
      ensures Valid() && queue.Kept() == old(queue.Kept())
      ensures Handled(HandleMoveProbs(m, old(Connection()), c, numSources, numDests, old(queue.Pending())),
                      status, Connection(), code, [], queue.Pending(), queue.isConnClosed)
      ensures status != ReadOk ==> data == old(data)
    {
      var states := data[c].states;
      code := OK;
      var sources, dests, rows;
      status, sources := ReadStates(|states|, numSources);
      if status != ReadOk {
        return;
      }
      if sources == None {
        code := INDEX_OUT_OF_RANGE;
        return;
      }
      status, dests := ReadStates(|states|, numDests);
      if status != ReadOk {
        return;
      }
      if dests == None {
        code := INDEX_OUT_OF_RANGE;
        return;
      }
      status, rows := ReadTable(numSources, numDests);
      if status != ReadOk {
        return;
      }
      status := StoreProbs(c, sources.value, dests.value, rows);
    }

    method StoreProbs(c: nat, sources: seq<int>, dests: seq<int>, rows: seq<seq<real>>) returns (status: ReadStatus)
      requires c < |data| && Table(rows, sources, dests)
      modifies this`data
      ensures match WriteProbs(old(data)[c].states, sources, dests, rows)
              case Some(states) => status == ReadOk && data == old(data)[c := old(data)[c].(states := states)]
              case None => status == Exited && data == old(data)
    {
      var states := data[c].states;
      if sources == [] || dests == [] {
        return ReadOk;
      }
      if !(Square(states) && InRange(sources, |states|) && InRange(dests, |states|)) {
        return Exited;
      }
      states := WriteAllRows(states, sources, dests, rows);
      data := data[c := data[c].(states := states)];
      status := ReadOk;
    }

    // --------------------------------------------------------------- new_state

    method NewState(c: nat, name: Bytes) returns (index: nat)
      requires c < |data|
      modifies this`data, this`last
      ensures data == old(data)[c := AddState(old(data)[c], name)]
      ensures index == |old(data)[c].states| && last == old(last).(state := index)
    {
      var chain := data[c];
      var states := chain.states;
      index := |states|;
      for a := 0 to index
        invariant |states| == index
        invariant forall i | 0 <= i < index :: states[i] == if i < a then Widened(chain.states[i]) else chain.states[i]
      {
        states := states[a := Widened(states[a])];
      }
      var row := [];
      for a := 0 to index
        invariant row == seq(a, _ => 0.0)
      {
        row := row + [0.0];
      }
      states := states + [StateAlloc(name, row + [1.0])];
      last := last.(state := index);
      data := data[c := chain.(states := states)];
      assert states == AddState(chain, name).states;
    }

    method NewChain(name: Bytes) returns (index: nat)
      modifies this`data, this`last
      ensures index == |old(data)| && data == old(data) + [ChainAlloc(name)] && last == Last(index, -1)
    {
      index := |data|;
      data := data + [ChainAlloc(name)];
      last := Last(index, -1);
    }

    // ---------------------------------------------------------------- handlers

    // The handlers that look up a chain first.
    method ChainHandler(h: Handler, v: seq<Value>) returns (status: ReadStatus, code: int, outs: seq<int>)
      requires Valid() && |v| >= 2
      modifies queue`ptrOffset, this`data, this`last
      ensures Valid() && queue.Kept() == old(queue.Kept())
      ensures Handled(HandleChain(m, old(Connection()), h, v, old(queue.Pending())),
                      status, Connection(), code, outs, queue.Pending(), queue.isConnClosed)
      ensures status != ReadOk ==> data == old(data) && last == old(last)
    {
      var c := NumberIn(v[0]);
      status, code, outs := ReadOk, OK, [];
      if c >= |data| {
        code, outs := INDEX_OUT_OF_RANGE, if h.HNewState? then [m.stale] else [];
      } else if c < 0 {
        status := Exited;
      } else if h.HNewState? {
        var index := NewState(c, NameIn(v[1]));
        outs := [index];
      } else if h.HSetMoveProbs? {
        if |v| < 3 {
          status := Exited;
        } else {
          status, code := SetMoveProbs(c, NatIn(v[1]), NatIn(v[2]));
        }
      } else if OnState(h) {
        status, code := StateHandler(h, c, v);
      } else {
        data := data[c := data[c].(filter := EditFilter(h, data[c].filter, v))];
      }
    }

    method StateHandler(h: Handler, c: nat, v: seq<Value>) returns (status: ReadStatus, code: int)
      requires Valid() && |v| >= 2 && c < |data|
      modifies this`data
      ensures Handled(HandleState(old(Connection()), h, c, v, queue.Pending()),
                      status, Connection(), code, [], queue.Pending(), queue.isConnClosed)
      ensures status != ReadOk ==> data == old(data)
    {
      var i := NumberIn(v[1]);
      status, code := ReadOk, OK;
      if i >= |data[c].states| {
        code := INDEX_OUT_OF_RANGE;
      } else if i < 0 {
        status := Exited;
      } else {
        match EditState(h, data[c].states[i], v)
        case Some(st) => data := WithState(data, c, i, st);
        case None => code := POINTS_ON_OTHER_TYPE;
      }
    }

    // The handlers that look up no chain.
    method OwnHandler(h: Handler, v: seq<Value>) returns (status: ReadStatus, outs: seq<int>)
      requires Valid() && (h.HClearAll? || h.HEndConnection? || h.HNewChain?)
      modifies this`data, this`last, this`running
      ensures Handled(Handle(m, old(Connection()), h, v, queue.Pending()),
                      status, Connection(), OK, outs, queue.Pending(), queue.isConnClosed)
      ensures status != ReadOk ==> data == old(data) && last == old(last) && running == old(running)
    {
      status, outs := ReadOk, [];
      if h.HClearAll? {
        data := [];
      } else if h.HEndConnection? {
        running := false;
      } else if |v| < 1 {
        status := Exited;
      } else {
        var index := NewChain(NameIn(v[0]));
        outs := [index];
      }
    }

    method RunHandler(h: Handler, v: seq<Value>) returns (status: ReadStatus, code: int, outs: seq<int>)
      requires Valid()
      modifies queue`ptrOffset, this`data, this`last, this`running
      ensures Valid() && queue.Kept() == old(queue.Kept())
      ensures Handled(Handle(m, old(Connection()), h, v, old(queue.Pending())),
                      status, Connection(), code, outs, queue.Pending(), queue.isConnClosed)
      ensures status != ReadOk ==> data == old(data) && last == old(last) && running == old(running)
    {
      code, outs := OK, [];
      if h.HClearAll? || h.HEndConnection? || h.HNewChain? {
        status, outs := OwnHandler(h, v);
      } else if |v| < 2 {
        status := Exited;
      } else {
        status, code, outs := ChainHandler(h, v);
      }
    }

    // write_retvalue and write_param_type
    method WriteReply(code: int, outs: seq<int>)
      modifies this`sent
      ensures Connection() == Reply(old(Connection()), code, outs)
    {
      var reply := PackInt(code);
      assert outs[0..] == outs;
      for a := 0 to |outs|
        invariant reply + PackInts(outs[a..]) == PackInt(code) + PackInts(outs)
      {
        assert outs[a..][1..] == outs[a + 1..];
        reply := reply + PackInt(outs[a]);
      }
      assert reply + [] == reply;
      sent := sent + reply;
    }

    // ------------------------------------------------------------- transactions

    // The operation of an opcode, by binary search in the table.
    method LookUp(opcode: int) returns (op: Option<Operation>)
      ensures op == FindOperation(opcode, OPERATIONS)
    {
      TableSorted();
      var found, place := SFOBsearch(opcode, OPERATIONS, CompareOpcodes);
      if !found {
        NotFound(opcode, OPERATIONS) by {
          forall j | 0 <= j < |OPERATIONS| ensures OPERATIONS[j].opcode != opcode {
            assert CompareOpcodes(opcode, OPERATIONS[j]) != 0;
          }
        }
        return None;
      }
      FoundAt(OPERATIONS, place);
      op := Some(OPERATIONS[place]);
    }

    // Everything up to the handler's return code.
    method Attempt() returns (status: ReadStatus, known: bool, code: int, outs: seq<int>)
      requires Valid()
      modifies queue`ptrOffset, this`data, this`last, this`running
      ensures Valid() && queue.Kept() == old(queue.Kept())
      ensures known ==> Handled(Transaction(m, old(Connection()), old(queue.Pending())),
                                status, Connection(), code, outs, queue.Pending(), queue.isConnClosed)
      ensures !known ==> Transaction(m, old(Connection()), old(queue.Pending())) == Unknown(queue.Pending())
      ensures !known || status != ReadOk ==> Connection() == old(Connection())
    {
      known, code, outs := true, OK, [];
      var opcode;
      status, opcode := ReadInt();
      if status != ReadOk {
        return;
      }
      var op := LookUp(opcode);
      if op == None {
        known := false;
        return;
      }
      var values;
      status, values := ReadParams(op.value.params);
      if status != ReadOk {
        return;
      }
      status, code, outs := RunHandler(op.value.handler, values);
    }

    // ip_noise_arbitrator_iface_transact. A complete transaction is committed and
    // answered, an incomplete one leaves everything as it was.
    method Transact()
      requires Valid() && alive && running
      modifies this`data, this`last, this`running, this`sent, this`alive
      modifies queue`ptrOffset, queue`length, queue.buffer
      ensures Valid()
      ensures !queue.isConnClosed ==> CurrentLine() == Transacted(m, old(CurrentLine()))
      ensures queue.isConnClosed ==>
                match Transaction(m, old(Connection()), old(queue.Pending()))
                case Waiting =>
                  Connection() == old(Connection()).(running := false) && alive && queue.Kept() == old(queue.Kept())
                case _ => CurrentLine() == Transacted(m, old(CurrentLine()))
    {
      ghost var l := CurrentLine();
      assert l.Pending() == queue.Pending();
      var status, known, code, outs := Attempt();
      Conclude(status, known, code, outs, l);
    }

    // What the routine does after the handler; l is the line before the call.
    method Conclude(status: ReadStatus, known: bool, code: int, outs: seq<int>, ghost l: Line)
      requires Valid() && alive && l.alive && l.Valid() && l.session.running && queue.Kept() == l.kept
      requires known ==> Handled(Transaction(m, l.session, l.Pending()),
                                 status, Connection(), code, outs, queue.Pending(), queue.isConnClosed)
      requires !known ==> Transaction(m, l.session, l.Pending()) == Unknown(queue.Pending())
      requires !known || status != ReadOk ==> Connection() == l.session
      modifies this`running, this`sent, this`alive
      modifies queue`ptrOffset, queue`length, queue.buffer
      ensures Valid()
      ensures !queue.isConnClosed ==> CurrentLine() == Transacted(m, l)
      ensures queue.isConnClosed ==>
                match Transaction(m, l.session, l.Pending())
                case Waiting => Connection() == l.session.(running := false) && alive && queue.Kept() == l.kept
                case _ => CurrentLine() == Transacted(m, l)
    {
      assert |queue.Pending()| == |queue.Kept()| - queue.ptrOffset;
      if !known {
        WriteReply(UNKNOWN_OPCODE, []);
      } else if status == Exited {
        queue.Rollback(); // of no consequence: the program is gone
        alive := false;
      } else if status == ConnTerm {
        running := false;
      } else if status == NotFully {
        queue.Rollback();
      } else {
        queue.Commit();
        WriteReply(code, outs);
      }
    }

    // A write to the device: the bytes are queued and one transaction is tried.
    method DeviceWrite(bytes: Bytes)
      requires Valid() && alive && running && !queue.isConnClosed
      modifies this`data, this`last, this`running, this`sent, this`alive
      modifies queue`buffer, queue`maxSize, queue`length, queue`ptrOffset, queue.buffer
      ensures Valid()
      ensures CurrentLine() == Run(m, old(CurrentLine()), [Arrive(bytes), Event.Transact])
    {
      ghost var l := CurrentLine();
      queue.PutBytes(bytes);
      ghost var l1 := CurrentLine();
      assert l1 == Happened(m, l, Arrive(bytes));
      Transact();
      TwoEvents(m, l, Arrive(bytes), Event.Transact);
    }
  }

  lemma {:induction false} TwoEvents(m: Machine, l: Line, e1: Event, e2: Event)
    requires l.Valid()
    ensures Run(m, l, [e1, e2]) == Happened(m, Happened(m, l, e1), e2)
  {
    assert [e1, e2][1..] == [e2] && [e2][1..] == [];
    var l1 := Happened(m, l, e1);
    assert Run(m, l1, [e2]) == Run(m, Happened(m, l1, e2), []);
  }
}
