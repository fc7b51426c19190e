// Parser.pm, parse_move_to: the move probabilities of a state, completed to a
// distribution, and what becomes of them in the arbitrator's matrix.
module MoveTos {
  import opened Basics
  import opened Wire
  import opened Loader

  datatype Entry = Entry(name: Bytes, prob: real)

  datatype MoveToResult = Moves(entries: seq<Entry>) | SumExceedsOne(line: nat) | DuplicateState(line: nat)

  function Lc(name: Bytes): Bytes {
    seq(|name|, i requires 0 <= i < |name| => LowerByte(name[i]))
  }

  // Two names are the same to the parser if they differ in case only.
  lemma {:induction false} LcMeaning(a: Bytes, b: Bytes)
    ensures Lc(a) == Lc(b) <==> |a| == |b| && forall i | 0 <= i < |a| :: SameLetter(a[i], b[i])
  {
    if |a| == |b| {
      assert Lc(a) == Lc(b) <==> forall i | 0 <= i < |a| :: Lc(a)[i] == Lc(b)[i];
      assert forall i | 0 <= i < |a| :: (Lc(a)[i] == Lc(b)[i] <==> SameLetter(a[i], b[i]));
    } else {
      assert |Lc(a)| != |Lc(b)|;
    }
  }

  function Total(es: seq<Entry>): real {
    if es == [] then 0.0 else Total(es[..|es| - 1]) + es[|es| - 1].prob
  }

  // No negative probability.
  predicate Probable(es: seq<Entry>) {
    forall i | 0 <= i < |es| :: es[i].prob >= 0.0
  }

  // No two names differ in case only.
  ghost predicate DistinctNames(es: seq<Entry>) {
    forall i, j | 0 <= i < j < |es| :: Lc(es[i].name) != Lc(es[j].name)
  }

  // Line k is the first to push the sum over 1 or to name a state again.
  ghost predicate FailsAt(lines: seq<Entry>, k: nat) {
    k < |lines| && (Total(lines[..k + 1]) > 1.0 || exists i | 0 <= i < k :: Lc(lines[i].name) == Lc(lines[k].name))
  }

  // The position of a name, whatever its case; |es| if there is none.
  function IndexOf(es: seq<Entry>, lc: Bytes): (k: nat)
    ensures k <= |es|
    ensures k < |es| ==> Lc(es[k].name) == lc
    ensures forall i | 0 <= i < k :: Lc(es[i].name) != lc
  {
    if es == [] then 0 else if Lc(es[0].name) == lc then 0 else 1 + IndexOf(es[1..], lc)
  }

  // What completing the lines for a state means: the missing probability goes to
  // the state itself, everything else is as written.
  ghost predicate CompletionOf(es: seq<Entry>, lines: seq<Entry>, self: Bytes) {
    && DistinctNames(es) && Total(es) == 1.0
    && |lines| <= |es| <= |lines| + 1
    && (forall i | 0 <= i < |lines| :: es[i].name == lines[i].name)
    && (forall i | 0 <= i < |lines| ::
          es[i].prob == lines[i].prob + (if Lc(lines[i].name) == Lc(self) then 1.0 - Total(lines) else 0.0))
    && (|es| > |lines| ==> es[|lines|] == Entry(self, 1.0 - Total(lines)) && Total(lines) < 1.0)
  }

  lemma {:induction false} TotalOfUpdate(es: seq<Entry>, k: nat, e: Entry)
    requires k < |es|
    ensures Total(es[k := e]) == Total(es) - es[k].prob + e.prob
    decreases |es|
  {
    var n := |es| - 1;
    if k < n {
      TotalOfUpdate(es[..n], k, e);
      assert es[k := e][..n] == es[..n][k := e];
    } else {
      assert es[k := e][..n] == es[..n];
    }
  }

  lemma {:induction false} TotalOfAppend(es: seq<Entry>, e: Entry)
    ensures Total(es + [e]) == Total(es) + e.prob
  {
  }

  // None of the first n lines fails.
  ghost predicate NoneFails(lines: seq<Entry>, n: nat) {
    forall i | 0 <= i < n :: !FailsAt(lines, i)
  }

  lemma {:induction false} TotalOfPrefix(lines: seq<Entry>, k: nat)
    requires k < |lines|
    ensures Total(lines[..k + 1]) == Total(lines[..k]) + lines[k].prob
  {
    assert lines[..k + 1] == lines[..k] + [lines[k]];
    TotalOfAppend(lines[..k], lines[k]);
  }

  // A line that neither exceeds the sum nor repeats a name is fine.
  lemma {:induction false} NewName(lines: seq<Entry>, k: nat)
    requires k < |lines| && DistinctNames(lines[..k]) && NoneFails(lines, k)
    requires Total(lines[..k + 1]) <= 1.0 && forall i | 0 <= i < k :: Lc(lines[..k][i].name) != Lc(lines[k].name)
    ensures DistinctNames(lines[..k + 1]) && NoneFails(lines, k + 1)
  {
    assert forall i | 0 <= i < k :: lines[..k][i] == lines[i];
    assert forall i | 0 <= i < k + 1 :: lines[..k + 1][i] == lines[i];
    assert !FailsAt(lines, k);
  }

  // parse_move_to on lines already split into probability and name.
  method ParseMoveTo(lines: seq<Entry>, self: Bytes) returns (r: MoveToResult)
    requires Probable(lines)
    ensures r.Moves? ==> CompletionOf(r.entries, lines, self) && DistinctNames(lines) && Total(lines) <= 1.0
    ensures !r.Moves? ==> FailsAt(lines, r.line) && NoneFails(lines, r.line)
    ensures !r.Moves? ==> (r.SumExceedsOne? <==> Total(lines[..r.line + 1]) > 1.0)
  {
    var moveTos: seq<Entry> := [];
    var sum := 0.0;
    for k := 0 to |lines|
      invariant moveTos == lines[..k] && sum == Total(lines[..k]) <= 1.0 && DistinctNames(lines[..k])
      invariant NoneFails(lines, k)
    {
      TotalOfPrefix(lines, k);
      sum := sum + lines[k].prob;
      if sum > 1.0 {
        return SumExceedsOne(k);
      }
      var found := IndexOf(moveTos, Lc(lines[k].name));
      if found < k {
        assert Lc(lines[found].name) == Lc(lines[k].name);
        return DuplicateState(k);
      }
      NewName(lines, k);
      moveTos := moveTos + [lines[k]];
    }
    assert moveTos == lines;
    moveTos := Complete(moveTos, sum, self);
    r := Moves(moveTos);
  }

  // What is missing to 1 goes to the state itself.
  method Complete(lines: seq<Entry>, sum: real, self: Bytes) returns (moveTos: seq<Entry>)
    requires sum == Total(lines) <= 1.0 && DistinctNames(lines)
    ensures CompletionOf(moveTos, lines, self)
  {
    moveTos := lines;
    if sum < 1.0 {
      var own := IndexOf(moveTos, Lc(self));
      if own < |moveTos| {
        var e := moveTos[own].(prob := moveTos[own].prob + (1.0 - sum));
        TotalOfUpdate(moveTos, own, e);
        moveTos := moveTos[own := e];
      } else {
        TotalOfAppend(moveTos, Entry(self, 1.0 - sum));
        moveTos := moveTos + [Entry(self, 1.0 - sum)];
      }
    }
  }

  // ------------------------------------------------------------ in the matrix

  // The hash the parser returns: exact names to probabilities.
  function HashOf(es: seq<Entry>): map<Bytes, real> {
    if es == [] then map[] else HashOf(es[..|es| - 1])[es[|es| - 1].name := es[|es| - 1].prob]
  }

  // The probabilities a row of the matrix gets for these names, added up.
  function RowSum(h: map<Bytes, real>, names: seq<Bytes>): real {
    if names == [] then 0.0
    else RowSum(h, names[1..]) + (if names[0] in h then h[names[0]] else 0.0)
  }

  // What goes to names that are no state's.
  function Lost(es: seq<Entry>, names: seq<Bytes>): real {
    if es == [] then 0.0
    else Lost(es[..|es| - 1], names) + (if es[|es| - 1].name in names then 0.0 else es[|es| - 1].prob)
  }

  predicate AllDifferent(names: seq<Bytes>) {
    forall i, j | 0 <= i < j < |names| :: names[i] != names[j]
  }

  lemma {:induction false} HashKeys(es: seq<Entry>, name: Bytes)
    ensures name in HashOf(es) <==> exists i | 0 <= i < |es| :: es[i].name == name
    decreases |es|
  {
    if es != [] {
      var n := |es| - 1;
      HashKeys(es[..n], name);
      assert forall i | 0 <= i < n :: es[..n][i] == es[i];
    }
  }

  lemma {:induction false} RowSumAdds(h: map<Bytes, real>, name: Bytes, p: real, names: seq<Bytes>)
    requires AllDifferent(names) && name !in h
    ensures RowSum(h[name := p], names) == RowSum(h, names) + (if name in names then p else 0.0)
    decreases |names|
  {
    if names != [] {
      assert forall i | 0 <= i < |names[1..]| :: names[1..][i] == names[i + 1];
      RowSumAdds(h, name, p, names[1..]);
      assert names == [names[0]] + names[1..];
    }
  }

  lemma {:induction false} RowSumEmpty(names: seq<Bytes>)
    ensures RowSum(map[], names) == 0.0
  {
    if names != [] {
      RowSumEmpty(names[1..]);
    }
  }

  // The row of a state gets everything but what is lost.
  lemma {:induction false} RowSumAndLost(es: seq<Entry>, names: seq<Bytes>)
    requires AllDifferent(names) && DistinctNames(es)
    ensures RowSum(HashOf(es), names) + Lost(es, names) == Total(es)
    decreases |es|
  {
    if es == [] {
      RowSumEmpty(names);
    } else {
      var n := |es| - 1;
      RowSumAndLost(es[..n], names);
      HashKeys(es[..n], es[n].name);
      RowSumAdds(HashOf(es[..n]), es[n].name, es[n].prob, names);
    }
  }

  ghost predicate NamesDeclared(es: seq<Entry>, names: seq<Bytes>) {
    forall i | 0 <= i < |es| && es[i].prob > 0.0 :: es[i].name in names
  }

  lemma {:induction false} NothingLost(es: seq<Entry>, names: seq<Bytes>)
    requires Probable(es)
    ensures Lost(es, names) >= 0.0 && (Lost(es, names) == 0.0 <==> NamesDeclared(es, names))
    decreases |es|
  {
    if es != [] {
      var n := |es| - 1;
      NothingLost(es[..n], names);
      assert forall i | 0 <= i < n :: es[..n][i] == es[i];
    }
  }

  // A completed row is a distribution in the arbitrator exactly if every state
  // that may be moved to is spelled as where it is declared.
  lemma {:induction false} RowIsDistributionIff(es: seq<Entry>, lines: seq<Entry>, self: Bytes, names: seq<Bytes>)
    requires AllDifferent(names) && CompletionOf(es, lines, self) && Total(lines) <= 1.0
    requires Probable(lines)
    ensures RowSum(HashOf(es), names) == 1.0 <==> NamesDeclared(es, names)
  {
    RowSumAndLost(es, names);
    NothingLost(es, names);
  }

  // A move_to in other letters loses its probability: { 1 = b } with a state B.
  lemma {:induction false} CaseMatters()
    ensures RowSum(HashOf([Entry([98], 1.0)]), [[65], [66]]) == 0.0
    ensures Lc([98]) == Lc([66])
  {
    var h := HashOf([Entry([98], 1.0)]);
    assert h == map[[98] := 1.0];
    assert RowSum(h, [[65], [66]][1..][1..]) == 0.0;
    assert [98] != [66] && [98] != [65] by {
      assert [98][0] == 98 && [66][0] == 66 && [65][0] == 65;
    }
  }
}
