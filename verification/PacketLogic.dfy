// packet_logic.c: the verdict on a packet, put together from the chains' verdicts.
module PacketLogics {
  import opened Orders
  import opened Wire
  import opened Times
  import opened Configs
  import opened Filters
  import opened Delays

  datatype Action = Accept | Drop | Delay

  // delayLen matters for a delay only.
  datatype Verdict = Verdict(action: Action, delayLen: int, processed: bool)

  // A chain that leaves a packet unprocessed accepts it.
  predicate FromChain(v: Verdict) {
    (!v.processed ==> v.action == Accept) && (v.action == Delay ==> v.delayLen >= 0)
  }

  // One round of decide's loop.
  function Accumulated(g: Verdict, v: Verdict): Verdict {
    match v.action
    case Drop => g.(action := Drop, processed := true)
    case Delay =>
      (match g.action
       case Drop => g
       case Delay => g.(delayLen := g.delayLen + v.delayLen)
       case Accept => v.(processed := true))
    case Accept => if v.processed then g.(processed := true) else g
  }

  // The verdict after the chains vs.
  function Overall(vs: seq<Verdict>): Verdict {
    if vs == [] then Verdict(Accept, 0, false) else Accumulated(Overall(vs[..|vs| - 1]), vs[|vs| - 1])
  }

  function TotalDelay(vs: seq<Verdict>): int {
    if vs == [] then 0
    else TotalDelay(vs[..|vs| - 1]) + (if vs[|vs| - 1].action == Delay then vs[|vs| - 1].delayLen else 0)
  }

  ghost predicate SomeSays(vs: seq<Verdict>, a: Action) {
    exists i | 0 <= i < |vs| :: vs[i].action == a
  }

  ghost predicate Processed(vs: seq<Verdict>) {
    exists i | 0 <= i < |vs| :: vs[i].processed
  }

  // The rule: one drop drops, delays add up, and a packet is processed if some
  // chain processes it.
  ghost predicate Rule(vs: seq<Verdict>, g: Verdict) {
    && (g.action == Drop <==> SomeSays(vs, Drop))
    && (g.action == Delay <==> !SomeSays(vs, Drop) && SomeSays(vs, Delay))
    && (g.action == Delay ==> g.delayLen == TotalDelay(vs))
    && (g.processed <==> Processed(vs))
  }

  lemma {:induction false} SomeMore(vs: seq<Verdict>, v: Verdict, a: Action)
    ensures SomeSays(vs + [v], a) <==> SomeSays(vs, a) || v.action == a
    ensures Processed(vs + [v]) <==> Processed(vs) || v.processed
  {
    var ws := vs + [v];
    assert ws[|vs|] == v;
    assert forall i | 0 <= i < |vs| :: ws[i] == vs[i];
  }

  lemma {:induction false} NoDelayNoTotal(vs: seq<Verdict>)
    requires !SomeSays(vs, Delay)
    ensures TotalDelay(vs) == 0
    decreases |vs|
  {
    if vs != [] {
      assert forall i | 0 <= i < |vs| - 1 :: vs[..|vs| - 1][i] == vs[i];
      NoDelayNoTotal(vs[..|vs| - 1]);
    }
  }

  // The accumulation follows the rule.
  lemma {:induction false} OverallFollowsRule(vs: seq<Verdict>)
    requires forall i | 0 <= i < |vs| :: FromChain(vs[i])
    ensures Rule(vs, Overall(vs))
    decreases |vs|
  {
    if vs != [] {
      var n := |vs| - 1;
      OverallFollowsRule(vs[..n]);
      assert vs[..n] + [vs[n]] == vs;
      SomeMore(vs[..n], vs[n], Drop);
      SomeMore(vs[..n], vs[n], Delay);
      assert FromChain(vs[n]);
      if !SomeSays(vs[..n], Delay) {
        NoDelayNoTotal(vs[..n]);
      }
    }
  }

  // ------------------------------------------------------ the order of chains

  lemma {:induction false} TotalWithout(vs: seq<Verdict>, k: nat)
    requires k < |vs|
    ensures TotalDelay(vs) == TotalDelay(vs[..k] + vs[k + 1..]) + (if vs[k].action == Delay then vs[k].delayLen else 0)
    decreases |vs|
  {
    var n := |vs| - 1;
    var ws := vs[..k] + vs[k + 1..];
    if k == n {
      assert ws == vs[..n];
    } else {
      TotalWithout(vs[..n], k);
      assert ws[..|ws| - 1] == vs[..n][..k] + vs[..n][k + 1..];
      assert ws[|ws| - 1] == vs[n];
    }
  }

  lemma {:induction false} TotalOfPermutation(vs: seq<Verdict>, ws: seq<Verdict>)
    requires multiset(vs) == multiset(ws)
    ensures TotalDelay(vs) == TotalDelay(ws)
    decreases |vs|
  {
    if vs == [] {
      assert |ws| == |multiset(ws)| == 0;
    } else {
      var n := |vs| - 1;
      assert vs[n] in multiset(ws);
      var k :| 0 <= k < |ws| && ws[k] == vs[n];
      var rest := ws[..k] + ws[k + 1..];
      BagWithout(ws, k);
      BagWithout(vs, n);
      assert vs[..n] + vs[n + 1..] == vs[..n];
      TotalOfPermutation(vs[..n], rest);
      TotalWithout(ws, k);
    }
  }

  lemma {:induction false} BagWithout(vs: seq<Verdict>, k: nat)
    requires k < |vs|
    ensures multiset(vs[..k] + vs[k + 1..]) == multiset(vs) - multiset{vs[k]}
  {
    assert vs == vs[..k] + [vs[k]] + vs[k + 1..];
  }

  lemma {:induction false} TotalNotNegative(vs: seq<Verdict>)
    requires forall i | 0 <= i < |vs| :: FromChain(vs[i])
    ensures TotalDelay(vs) >= 0
    decreases |vs|
  {
    if vs != [] {
      assert FromChain(vs[|vs| - 1]);
      TotalNotNegative(vs[..|vs| - 1]);
    }
  }

  // The verdict does not depend on the order of the chains.
  lemma {:induction false} OrderDoesNotMatter(vs: seq<Verdict>, ws: seq<Verdict>)
    requires multiset(vs) == multiset(ws) && forall i | 0 <= i < |vs| :: FromChain(vs[i])
    ensures Overall(vs).action == Overall(ws).action && Overall(vs).processed == Overall(ws).processed
    ensures Overall(vs).action == Delay ==> Overall(vs).delayLen == Overall(ws).delayLen
  {
    forall i | 0 <= i < |ws| ensures FromChain(ws[i]) {
      assert ws[i] in multiset(vs);
    }
    OverallFollowsRule(vs);
    OverallFollowsRule(ws);
    SameMembers(vs, ws);
    SameMembers(ws, vs);
    TotalOfPermutation(vs, ws);
  }

  lemma {:induction false} SameMembers(vs: seq<Verdict>, ws: seq<Verdict>)
    requires multiset(vs) == multiset(ws)
    ensures forall a :: SomeSays(vs, a) ==> SomeSays(ws, a)
    ensures Processed(vs) ==> Processed(ws)
  {
    forall i | 0 <= i < |vs| ensures exists j :: 0 <= j < |ws| && ws[j] == vs[i] {
      assert vs[i] in multiset(ws);
    }
    assert forall i | 0 <= i < |vs| :: vs[i] in ws;
  }

  // ------------------------------------------------------------------ decide

  // What a decision draws: which action, where on the curve, whether stable, the
  // exponential delay (the logarithm is taken elsewhere), what lies in memory
  // before the points of a curve, and the time.
  datatype Draws = Draws(which: real, place: real, stable: real, exponential: nat, stray: nat, now: Timeval)

  // The delay function is set up, and the draw is one of the generator's.
  ghost predicate Drawable(f: DelayFunction, draws: Draws) {
    f.LinearFunction? ==> Curve(f.points) && 0.0 <= draws.place < 1.0
  }

  // The delay a state's function draws.
  ghost predicate DrawnDelay(f: DelayFunction, draws: Draws, delay: nat) {
    match f
    case NoFunction => delay == 0
    case ExpFunction(_) => delay == draws.exponential
    case LinearFunction(points) =>
      || CurveDelay(points, draws.place, Some(delay))
      || (CurveDelay(points, draws.place, None) && delay == draws.stray)
  }

  // The declarative verdict of a chain's state on a packet that suits the chain.
  ghost predicate StateVerdict(st: State, draws: Draws, v: Verdict) {
    && v.processed
    && (v.action == Drop <==> draws.which < st.dropProb)
    && (v.action == Delay <==> st.dropProb <= draws.which <= st.dropProb + st.delayProb)
    && (v.action == Delay ==> v.delayLen >= 0)
  }

  // How long, and what is remembered: in the stable case as the stable clock
  // says, else just the drawn delay from now.
  ghost predicate DelayVerdict(st: State, draws: Draws, last: Timeval, drawn: nat, v: Verdict, last': Timeval) {
    && Kept(last) && Kept(draws.now) && v.delayLen >= 0 && DrawnDelay(st.delay, draws, drawn)
    && v.delayLen == (if draws.stable < st.stableDelayProb && last.sec != 0 then StableDelay(last, draws.now, drawn)
                      else drawn)
    && last' == After(draws.now, v.delayLen)
  }

  // A delay moves the chain's last release time, nothing else does.
  ghost predicate Remembered(st: State, draws: Draws, last: Timeval, v: Verdict, last': Timeval) {
    if v.action == Delay then exists drawn: nat :: DelayVerdict(st, draws, last, drawn, v, last') else last' == last
  }

  // One decision of a chain: the state it was in, what was drawn, the verdict.
  datatype Decision = Decision(st: State, draws: Draws, v: Verdict)

  // The decision delays by the stable clock, by at least a millisecond.
  ghost predicate Stable(d: Decision) {
    && d.draws.now.sec >= 1 && d.draws.stable < d.st.stableDelayProb
    && forall drawn: nat | DrawnDelay(d.st.delay, d.draws, drawn) :: drawn >= 1
  }

  // The release times a chain remembers along a run of decisions.
  ghost predicate Remembers(lasts: seq<Timeval>, run: seq<Decision>) {
    && |lasts| == |run| + 1
    && forall i | 0 <= i < |run| :: Remembered(run[i].st, run[i].draws, lasts[i], run[i].v, lasts[i + 1])
  }

  lemma {:induction false} StableNeverGoesBack(d: Decision, last: Timeval, last': Timeval)
    requires Remembered(d.st, d.draws, last, d.v, last') && (d.v.action == Delay ==> Stable(d))
    ensures Micros(last) <= Micros(last')
  {
    if d.v.action == Delay {
      var drawn: nat :| DelayVerdict(d.st, d.draws, last, drawn, d.v, last');
      RestartedClock(last, d.draws.now, drawn);
    }
  }

  // Along any run of a chain's decisions that delays by the stable clock only the
  // release times never go back, whatever the clock does, from the first release
  // on: packets keep their order.
  lemma {:induction false} ReleasesNeverGoBack(lasts: seq<Timeval>, run: seq<Decision>, j: nat, k: nat)
    requires Remembers(lasts, run) && j <= k <= |run|
    requires forall i | 0 <= i < |run| && run[i].v.action == Delay :: Stable(run[i])
    ensures Micros(lasts[j]) <= Micros(lasts[k])
    decreases k
  {
    if j < k {
      ReleasesNeverGoBack(lasts, run, j, k - 1);
      StableNeverGoesBack(run[k - 1], lasts[k - 1], lasts[k]);
    }
  }

  // A chain's verdict on a packet: its filter and its state's function decide. was
  // and kept are its last release times before and after.
  ghost predicate Spoke(c: Chain, state: nat, packet: PacketInfo, draws: Draws, v: Verdict, was: Timeval, kept: Timeval)
    requires Sized(c.filter) && Proper(packet)
  {
    && state < |c.states| && FromChain(v)
    && (v.processed <==> ChainPasses(c.filter, packet))
    && (v.processed ==> StateVerdict(c.states[state], draws, v))
    && Remembered(c.states[state], draws, was, v, kept)
  }

  class PacketLogic {
    var data: Data
    var current: seq<nat>
    var lastRelease: seq<Timeval>

    ghost predicate Valid()
      reads this
    {
      && |current| == |data| == |lastRelease|
      && (forall c | 0 <= c < |data| :: current[c] < |data[c].states| && Sized(data[c].filter))
      && (forall c | 0 <= c < |lastRelease| :: Kept(lastRelease[c]))
    }

    // The state a chain is in.
    function CurrentState(c: nat): State
      requires Valid() && c < |data|
      reads this
    {
      data[c].states[current[c]]
    }

    // The delay the chain's state draws.
    method DrawDelay(f: DelayFunction, draws: Draws) returns (delay: nat)
      requires Drawable(f, draws)
      ensures DrawnDelay(f, draws, delay)
    {
      match f
      case NoFunction => delay := 0;
      case ExpFunction(_) => delay := draws.exponential;
      case LinearFunction(points) =>
        var found := SplitLinearDelay(points, draws.place);
        CurveDelayBounds(points, draws.place, found);
        delay := if found.Some? then found.value else draws.stray;
    }

    // chain_decide
    method ChainDecide(c: nat, packet: PacketInfo, ignoreFilter: bool, draws: Draws) returns (v: Verdict)
      requires Valid() && c < |data| && Proper(packet) && Kept(draws.now) && Drawable(CurrentState(c).delay, draws)
      modifies this`lastRelease
      ensures Valid() && FromChain(v) && lastRelease == old(lastRelease)[c := lastRelease[c]]
      ensures !v.processed <==> !ignoreFilter && !ChainPasses(data[c].filter, packet)
      ensures v.processed ==> StateVerdict(CurrentState(c), draws, v)
      ensures Remembered(CurrentState(c), draws, old(lastRelease[c]), v, lastRelease[c])
    {
      if !ignoreFilter {
        var passes := IsInChainFilter(data[c].filter, packet);
        if !passes {
          return Verdict(Accept, 0, false);
        }
      }
      var st := data[c].states[current[c]];
      if draws.which < st.dropProb {
        return Verdict(Drop, 0, true);
      }
      if draws.which <= st.dropProb + st.delayProb {
        var drawn := DrawDelay(st.delay, draws);
        var last := LastRelease(lastRelease[c], draws.now);
        var delay := drawn;
        if draws.stable < st.stableDelayProb {
          delay := StableDelay(last, draws.now, drawn);
        }
        v := Verdict(Delay, delay, true);
        FirstDelay(lastRelease[c], draws.now, drawn);
        assert DelayVerdict(st, draws, lastRelease[c], drawn, v, After(draws.now, delay));
        lastRelease := lastRelease[c := After(draws.now, delay)];
        return;
      }
      v := Verdict(Accept, 0, true);
    }

    // The first chains after chain 0 spoke as vs says.
    ghost predicate Spoken(packet: PacketInfo, draws: seq<Draws>, vs: seq<Verdict>, was: seq<Timeval>)
      requires Valid() && Proper(packet) && |draws| == |data| == |was|
      reads this
    {
      && (vs == [] || |vs| < |data|)
      && forall i | 0 <= i < |vs| ::
           Spoke(data[i + 1], current[i + 1], packet, draws[i + 1], vs[i], was[i + 1], lastRelease[i + 1])
    }

    // One chain more; vs are the verdicts of those before it.
    method AskNext(packet: PacketInfo, draws: seq<Draws>, c: nat, ghost vs: seq<Verdict>, ghost was: seq<Timeval>)
      returns (v: Verdict)
      requires Valid() && c == |vs| + 1 && Proper(packet) && |draws| == |data| == |was|
      requires Spoken(packet, draws, vs, was)
      requires c < |data| && lastRelease[c] == was[c]
      requires Kept(draws[c].now) && Drawable(CurrentState(c).delay, draws[c])
      modifies this`lastRelease
      ensures Valid() && Spoken(packet, draws, vs + [v], was)
      ensures lastRelease == old(lastRelease)[c := lastRelease[c]]
    {
      v := ChainDecide(c, packet, false, draws[c]);
      assert (vs + [v])[..c - 1] == vs;
    }

    // The verdicts of the chains other than the first, accumulated.
    method OtherChains(packet: PacketInfo, draws: seq<Draws>) returns (g: Verdict, ghost vs: seq<Verdict>)
      requires Valid() && Proper(packet) && |draws| == |data|
      requires forall c | 0 <= c < |data| :: Kept(draws[c].now) && Drawable(CurrentState(c).delay, draws[c])
      modifies this`lastRelease
      ensures Valid() && g == Overall(vs) && |vs| == (if data == [] then 0 else |data| - 1)
      ensures Spoken(packet, draws, vs, old(lastRelease))
      ensures data != [] ==> lastRelease[0] == old(lastRelease[0])
    {
      g := Verdict(Accept, 0, false);
      vs := [];
      var c := 1;
      while c < |data|
        invariant Valid() && g == Overall(vs) && |vs| == c - 1 && (data == [] || c <= |data|)
        invariant Spoken(packet, draws, vs, old(lastRelease))
        invariant forall j | 0 <= j < |data| && (j == 0 || j >= c) :: lastRelease[j] == old(lastRelease[j])
      {
        var v := AskNext(packet, draws, c, vs, old(lastRelease));
        assert (vs + [v])[..c - 1] == vs;
        g := Accumulated(g, v);
        vs := vs + [v];
        c := c + 1;
      }
    }

    // decide: every chain but the first has its say; the first is asked only
    // if none of them processed the packet.
    method Decide(packet: PacketInfo, draws: seq<Draws>)
      returns (verdict: Verdict, ghost first: Verdict, ghost vs: seq<Verdict>)
      requires Valid() && Proper(packet) && |draws| == |data|
      requires forall c | 0 <= c < |data| :: Kept(draws[c].now) && Drawable(CurrentState(c).delay, draws[c])
      modifies this`lastRelease
      ensures Valid() && |vs| == (if data == [] then 0 else |data| - 1)
      ensures Spoken(packet, draws, vs, old(lastRelease))
      ensures data == [] ==> verdict.action == Accept
      ensures data != [] && !Processed(vs) ==>
                && StateVerdict(CurrentState(0), draws[0], first)
                && Remembered(CurrentState(0), draws[0], old(lastRelease[0]), first, lastRelease[0])
      ensures data != [] ==> Decided(vs, first, verdict)
      ensures data != [] && Processed(vs) ==> lastRelease[0] == old(lastRelease[0])
    {
      verdict, vs := OtherChains(packet, draws);
      first := verdict;
      VerdictsProper(packet, draws, vs, old(lastRelease));
      OverallFollowsRule(vs);
      TotalNotNegative(vs);
      if !SomeSays(vs, Delay) {
        NoDelayNoTotal(vs);
      }
      if !verdict.processed {
        if |data| > 0 {
          verdict := ChainDecide(0, packet, true, draws[0]);
          first := verdict;
        }
      }
      if verdict.action == Delay && verdict.delayLen == 0 {
        verdict := verdict.(action := Accept);
      }
    }

    lemma {:induction false} VerdictsProper(packet: PacketInfo, draws: seq<Draws>, vs: seq<Verdict>, was: seq<Timeval>)
      requires Valid() && Proper(packet) && |draws| == |data| == |was|
      requires Spoken(packet, draws, vs, was)
      ensures forall i | 0 <= i < |vs| :: FromChain(vs[i])
    {
    }
  }

  // The verdict as the chains' verdicts vs make it, or as the first chain's does
  // if none of them processed the packet.
  ghost predicate Decided(vs: seq<Verdict>, first: Verdict, verdict: Verdict) {
    if Processed(vs)
    then
      && (verdict.action == Drop <==> SomeSays(vs, Drop))
      && (verdict.action == Delay <==> !SomeSays(vs, Drop) && TotalDelay(vs) > 0)
      && (verdict.action == Delay ==> verdict.delayLen == TotalDelay(vs))
    else
      && (verdict.action == Drop <==> first.action == Drop)
      && (verdict.action == Delay <==> first.action == Delay && first.delayLen > 0)
      && (verdict.action == Delay ==> verdict.delayLen == first.delayLen)
  }
}
