// From the declared move_to of a state to the draws of the switcher.
module Markov {
  import opened Wire
  import opened Configs
  import opened Loader
  import opened MoveTos
  import opened Rows

  // The row as loaded sums to what the parser's probabilities for it add up to.
  lemma {:induction false} LoadedRowSum(h: map<Bytes, real>, names: seq<Bytes>, row: seq<real>)
    requires |row| == |names| && forall j | 0 <= j < |row| :: row[j] == if names[j] in h then h[names[j]] else 0.0
    ensures Cumulative(row, |row|) == RowSum(h, names)
    decreases |row|
  {
    if row != [] {
      assert forall j | 0 <= j < |row[1..]| :: row[1..][j] == row[j + 1] && names[1..][j] == names[j + 1];
      LoadedRowSum(h, names[1..], row[1..]);
      CumulativeFromFront(row, |row|);
    }
  }

  lemma {:induction false} CumulativeFromFront(row: seq<real>, n: nat)
    requires 0 < n <= |row|
    ensures Cumulative(row, n) == row[0] + Cumulative(row[1..], n - 1)
    decreases n
  {
    if n > 1 {
      CumulativeFromFront(row, n - 1);
    }
  }

  function NamesOf(d: ChainDecl): seq<Bytes> {
    seq(|d.states|, j requires 0 <= j < |d.states| => d.states[j].name)
  }

  // A hash of probabilities holds no negative one.
  lemma {:induction false} HashNotNegative(es: seq<Entry>, name: Bytes)
    requires Probable(es) && name in HashOf(es)
    ensures HashOf(es)[name] >= 0.0
    decreases |es|
  {
    var n := |es| - 1;
    if name != es[n].name {
      HashNotNegative(es[..n], name);
    }
  }

  lemma {:induction false} CompletionProbable(es: seq<Entry>, lines: seq<Entry>, self: Bytes)
    requires Probable(lines) && Total(lines) <= 1.0 && CompletionOf(es, lines, self)
    ensures Probable(es)
  {
    forall i | 0 <= i < |es| ensures es[i].prob >= 0.0 {
      assert i < |lines| ==> lines[i].prob >= 0.0;
    }
  }

  // From the source to the draw: in a chain as loaded, a state whose move_to
  // names are spelled as declared is left for exactly one state, whatever the
  // draw, and never for one of probability 0; and it is the state switch_chain
  // picks.
  lemma {:induction false} LoadedChainMoves(c: Chain, d: ChainDecl, i: nat, lines: seq<Entry>, es: seq<Entry>,
                                            draw: real) returns (next: nat)
    requires ChainLoaded(c, d) && i < |d.states| && AllDifferent(NamesOf(d))
    requires Probable(lines)
    requires CompletionOf(es, lines, d.states[i].name) && Total(lines) <= 1.0
    requires d.states[i].moveTo == HashOf(es) && NamesDeclared(es, NamesOf(d))
    requires 0.0 <= draw < 1.0
    ensures next < |d.states| && InInterval(c.states[i].moveTos, next, draw) && MoveProb(d, i, next) > 0.0
    ensures forall current: nat, next': nat | Drawn(c.states[i].moveTos, current, draw, next') :: next' == next
  {
    var (row, names) := (c.states[i].moveTos, NamesOf(d));
    LoadedRow(c, d, i, lines, es);
    RowIsDistributionIff(es, lines, d.states[i].name, names);
    LoadedRowSum(HashOf(es), names, row);
    next := SomeInterval(row, |row|, draw);
    forall j: nat | InInterval(row, j, draw) ensures j == next && row[j] > 0.0 {
      OneInterval(row, j, next, draw);
    }
  }

  // The row of a state as loaded.
  lemma {:induction false} LoadedRow(c: Chain, d: ChainDecl, i: nat, lines: seq<Entry>, es: seq<Entry>)
    requires ChainLoaded(c, d) && i < |d.states| && d.states[i].moveTo == HashOf(es)
    requires Probable(lines) && Total(lines) <= 1.0 && CompletionOf(es, lines, d.states[i].name)
    ensures var row := c.states[i].moveTos;
            |row| == |d.states| && NonNegative(row) && forall j | 0 <= j < |row| :: row[j] == MoveProb(d, i, j)
  {
    var row := c.states[i].moveTos;
    forall j | 0 <= j < |row| ensures row[j] == MoveProb(d, i, j) >= 0.0 {
      CompletionProbable(es, lines, d.states[i].name);
      if d.states[j].name in HashOf(es) {
        HashNotNegative(es, d.states[j].name);
      }
    }
  }
}
