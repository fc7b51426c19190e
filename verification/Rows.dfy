// switcher.c, switch_chain: a state draws its successor from its row of
// probabilities.
module Rows {

  // The upper end of the i-th state's interval is Cumulative(row, i + 1).
  function Cumulative(row: seq<real>, n: nat): real
    requires n <= |row|
  {
    if n == 0 then 0.0 else Cumulative(row, n - 1) + row[n - 1]
  }

  predicate NonNegative(row: seq<real>) {
    forall i | 0 <= i < |row| :: row[i] >= 0.0
  }

  ghost predicate InInterval(row: seq<real>, i: nat, draw: real) {
    i < |row| && Cumulative(row, i) <= draw < Cumulative(row, i + 1)
  }

  lemma {:induction false} CumulativeGrows(row: seq<real>, i: nat, j: nat)
    requires NonNegative(row) && i <= j <= |row|
    ensures Cumulative(row, i) <= Cumulative(row, j)
    decreases j
  {
    if i < j {
      CumulativeGrows(row, i, j - 1);
    }
  }

  // The intervals do not overlap, and no state of probability 0 has any.
  lemma {:induction false} OneInterval(row: seq<real>, i: nat, j: nat, draw: real)
    requires NonNegative(row) && InInterval(row, i, draw) && InInterval(row, j, draw)
    ensures i == j && row[i] > 0.0
  {
    if i < j {
      CumulativeGrows(row, i + 1, j);
    } else if j < i {
      CumulativeGrows(row, j + 1, i);
    }
  }

  // What a draw does: the state whose interval holds it, or the same state if
  // the row does not reach up to it.
  ghost predicate Drawn(row: seq<real>, current: nat, draw: real, next: nat) {
    if draw < Cumulative(row, |row|) then InInterval(row, next, draw) else next == current
  }

  lemma {:induction false} SomeInterval(row: seq<real>, n: nat, draw: real) returns (i: nat)
    requires n <= |row| && 0.0 <= draw < Cumulative(row, n)
    ensures InInterval(row, i, draw)
  {
    if draw >= Cumulative(row, n - 1) {
      i := n - 1;
    } else {
      i := SomeInterval(row, n - 1, draw);
    }
  }

  // switch_chain
  method SwitchChain(row: seq<real>, current: nat, draw: real) returns (next: nat)
    requires NonNegative(row) && draw >= 0.0
    ensures Drawn(row, current, draw, next)
  {
    var comProb := 0.0;
    next := current;
    for i := 0 to |row|
      invariant comProb == Cumulative(row, i) <= draw
    {
      comProb := comProb + row[i];
      if draw < comProb {
        CumulativeGrows(row, i + 1, |row|);
        next := i;
        return;
      }
    }
  }
}
