// str2int_dict.c: names bound to indices in a red-black tree, compared without
// regard to case.
module NameDict {
  import opened Basics
  import opened Orders
  import opened RbTrees
  import opened RbOrder
  import opened RedBlack

  // A C string of an ip_noise_id_t buffer: no terminator among its characters.
  type Name = s: string | |s| <= 80 && '\0' !in s

  datatype Elem = Elem(name: Name, index: int)

  type DictNode = RbNode<Elem>

  function Lower(c: char): int {
    LowerCode(c as int)
  }

  // The character at position i as strncasecmp sees it: 0 past the end.
  function LowerAt(s: string, i: nat): int {
    if i < |s| then Lower(s[i]) else 0
  }

  // strncasecmp on two buffers from position i on, with n characters left.
  function CompareFrom(a: Name, b: Name, i: nat, n: nat): int
    decreases n
  {
    if n == 0 then 0
    else if LowerAt(a, i) != LowerAt(b, i) then LowerAt(a, i) - LowerAt(b, i)
    else if LowerAt(a, i) == 0 then 0
    else CompareFrom(a, b, i + 1, n - 1)
  }

  function CompareElems(e1: Elem, e2: Elem): int {
    CompareFrom(e1.name, e2.name, 0, 80)
  }

  // Equal up to case.
  predicate SameName(a: string, b: string) {
    |a| == |b| && forall i | 0 <= i < |a| :: SameLetter(a[i] as int, b[i] as int)
  }

  lemma {:induction false} CompareAntisymmetric(a: Name, b: Name, i: nat, n: nat)
    ensures CompareFrom(a, b, i, n) == -CompareFrom(b, a, i, n)
    decreases n
  {
    if n > 0 {
      CompareAntisymmetric(a, b, i + 1, n - 1);
    }
  }

  lemma {:induction false} CompareTransitive(a: Name, b: Name, c: Name, i: nat, n: nat)
    requires CompareFrom(a, b, i, n) <= 0 && CompareFrom(b, c, i, n) <= 0
    ensures CompareFrom(a, c, i, n) <= 0
    decreases n
  {
    if n > 0 && LowerAt(a, i) == LowerAt(b, i) == LowerAt(c, i) && LowerAt(a, i) != 0 {
      CompareTransitive(a, b, c, i + 1, n - 1);
    }
  }

  lemma {:induction false} CompareEqualIff(a: Name, b: Name, i: nat, n: nat)
    requires i + n == 80
    ensures CompareFrom(a, b, i, n) == 0 <==> forall j | i <= j < 80 :: LowerAt(a, j) == LowerAt(b, j)
    decreases n
  {
    if n > 0 && LowerAt(a, i) == LowerAt(b, i) {
      if LowerAt(a, i) == 0 {
        assert i >= |a| && i >= |b|;
      } else {
        CompareEqualIff(a, b, i + 1, n - 1);
      }
    }
  }

  // The comparison calls two names equal exactly when they differ in case only.
  lemma {:induction false} CompareEqualMeansSameName(e1: Elem, e2: Elem)
    ensures CompareElems(e1, e2) == 0 <==> SameName(e1.name, e2.name)
  {
    var (a, b) := (e1.name, e2.name);
    CompareEqualIff(a, b, 0, 80);
    assert |a| < |b| ==> LowerAt(a, |a|) != LowerAt(b, |a|);
    assert |b| < |a| ==> LowerAt(a, |b|) != LowerAt(b, |b|);
    if CompareElems(e1, e2) == 0 {
      forall i | 0 <= i < |a| && i < |b| ensures SameLetter(a[i] as int, b[i] as int) {
        assert LowerAt(a, i) == LowerAt(b, i);
      }
    }
  }

  lemma {:induction false} CompareIsTotalPreorder()
    ensures TotalPreorder(CompareElems)
  {
    forall a, b ensures CompareElems(a, b) < 0 <==> CompareElems(b, a) > 0 {
      CompareAntisymmetric(a.name, b.name, 0, 80);
    }
    forall a, b, c | CompareElems(a, b) <= 0 && CompareElems(b, c) <= 0 ensures CompareElems(a, c) <= 0 {
      CompareTransitive(a.name, b.name, c.name, 0, 80);
    }
  }

  // strncpy into the buffer.
  function Clip(name: string): (r: Name)
    requires '\0' !in name
    ensures r <= name && |r| == if |name| < 80 then |name| else 80
  {
    if |name| <= 80 then name else name[..80]
  }

  // What a dictionary with these elements answers for a name.
  ghost function Meaning(s: seq<Elem>, name: Name): Option<int> {
    match Lookup(CompareElems, s, Elem(name, 0))
    case None => None
    case Some(e) => Some(e.index)
  }

  // A sorted element sequence binds each of its names, whatever the case.
  lemma {:induction false} MeaningIff(s: seq<Elem>, name: Name, index: int)
    requires Sorted(CompareElems, s)
    ensures Meaning(s, name) == Some(index) <==> exists e :: e in s && SameName(name, e.name) && e.index == index
  {
    CompareIsTotalPreorder();
    LookupIff(CompareElems, s, Elem(name, 0));
    forall e: Elem ensures CompareElems(Elem(name, 0), e) == 0 <==> SameName(name, e.name) {
      CompareEqualMeansSameName(Elem(name, 0), e);
    }
  }

  class Dict {
    const tree: RbTree<Elem>

    ghost predicate Valid()
      reads this, tree, tree.nil, tree.mem.Keys
    {
      tree.Valid() && tree.cmp == CompareElems
    }

    ghost function Elems(): seq<Elem>
      reads tree
    {
      tree.Contents()
    }

    // ip_noise_str2int_dict_alloc
    constructor (nil: DictNode)
      requires nil.colour == Black
      ensures Valid() && Elems() == [] && fresh(tree) && tree.nil == nil && tree.mem == map[]
    {
      CompareIsTotalPreorder();
      tree := new RbTree<Elem>(CompareElems, nil);
    }

    // -1 for a name that is not bound.
    method Get(name: string) returns (index: int)
      requires Valid() && '\0' !in name
      ensures index == match Meaning(Elems(), Clip(name)) case None => -1 case Some(i) => i
    {
      var found := tree.Find(Elem(Clip(name), 0));
      index := match found case None => -1 case Some(e) => e.index;
    }

    method Add(name: string, index: int)
      requires Valid() && '\0' !in name
      modifies tree, tree.mem.Keys
      ensures Valid() && fresh(tree.mem.Keys - old(tree.mem.Keys))
      ensures Elems() == Inserted(CompareElems, old(Elems()), Elem(Clip(name), index))
    {
      var _ := tree.Search(Elem(Clip(name), index));
    }

    method Remove(name: string)
      requires Valid() && '\0' !in name
      modifies tree, tree.mem.Keys, tree.nil
      ensures Valid() && tree.mem.Keys <= old(tree.mem.Keys)
      ensures Elems() == Deleted(CompareElems, old(Elems()), Elem(Clip(name), 0))
    {
      var _ := tree.Delete(Elem(Clip(name), 0));
    }

    // Deletes the least element until none is left.
    method Reset()
      requires Valid()
      modifies tree, tree.mem.Keys, tree.nil
      ensures Valid() && Elems() == []
    {
      var least := tree.Extreme(true);
      while least != None
        invariant Valid() && tree.mem.Keys <= old(tree.mem.Keys)
        invariant least == Nth(Elems(), 0)
        decreases |Elems()|
      {
        RankOfHit(CompareElems, Elems(), 0, least.value);
        var _ := tree.Delete(least.value);
        least := tree.Extreme(true);
      }
    }

    // A copy with the same elements, built from the three-fold reports of rbwalk.
    method Duplicate() returns (copy: Dict)
      requires Valid()
      ensures fresh(copy) && fresh(copy.tree) && copy.Valid()
      ensures copy.Elems() == Elems()
    {
      copy := new Dict(tree.nil);
      var visits := tree.Walk(tree.root, 0, Top, tree.tree);
      copy.AddReported(visits);
      CopyIsFaithful(tree.tree, visits);
    }

    // The callback of the walk, on the i-th report.
    method AddVisit(visits: seq<Visit<Elem>>, i: nat)
      requires Valid() && i < |visits| && Elems() == AddAll(visits[..i])
      modifies tree, tree.mem.Keys
      ensures Valid() && fresh(tree.mem.Keys - old(tree.mem.Keys)) && Elems() == AddAll(visits[..i + 1])
    {
      AddAllNext(visits, i);
      Add(visits[i].key.name, visits[i].key.index);
    }

    // The callback, on all of them.
    method AddReported(visits: seq<Visit<Elem>>)
      requires Valid() && Elems() == []
      modifies tree, tree.mem.Keys
      ensures Valid() && fresh(tree.mem.Keys - old(tree.mem.Keys)) && Elems() == AddAll(visits)
    {
      for i := 0 to |visits|
        invariant Valid() && fresh(tree.mem.Keys - old(tree.mem.Keys)) && Elems() == AddAll(visits[..i])
      {
        AddVisit(visits, i);
      }
      assert visits[..|visits|] == visits;
    }
  }

  // Adding the reported elements one after another to an empty dictionary.
  ghost function AddAll(visits: seq<Visit<Elem>>): seq<Elem> {
    if visits == [] then []
    else Inserted(CompareElems, AddAll(visits[..|visits| - 1]), visits[|visits| - 1].key)
  }

  lemma {:induction false} AddAllNext(visits: seq<Visit<Elem>>, i: nat)
    requires i < |visits|
    ensures AddAll(visits[..i + 1]) == Inserted(CompareElems, AddAll(visits[..i]), visits[i].key)
  {
    assert visits[..i + 1][..i] == visits[..i];
  }

  ghost function Reported(visits: seq<Visit<Elem>>): set<Elem> {
    set v | v in visits :: v.key
  }

  lemma {:induction false} AddAllElems(visits: seq<Visit<Elem>>, s: seq<Elem>)
    requires Sorted(CompareElems, s)
    requires forall e | e in Reported(visits) :: e in s
    ensures Sorted(CompareElems, AddAll(visits))
    ensures forall e :: e in AddAll(visits) <==> e in Reported(visits)
  {
    CompareIsTotalPreorder();
    if visits != [] {
      var (rest, v) := (visits[..|visits| - 1], visits[|visits| - 1]);
      ReportedLast(rest, v);
      assert visits == rest + [v];
      AddAllElems(rest, s);
      InsertedSorted(CompareElems, AddAll(rest), v.key);
      if Hit(CompareElems, AddAll(rest), v.key) {
        HitIsSame(AddAll(rest), s, v.key);
      }
    }
  }

  lemma {:induction false} ReportedLast(rest: seq<Visit<Elem>>, v: Visit<Elem>)
    ensures Reported(rest + [v]) == Reported(rest) + {v.key}
  {
  }

  // Among elements of one sorted sequence, equal means identical.
  lemma {:induction false} HitIsSame(u: seq<Elem>, s: seq<Elem>, e: Elem)
    requires TotalPreorder(CompareElems) && Sorted(CompareElems, s)
    requires e in s && (forall k | k in u :: k in s) && Hit(CompareElems, u, e)
    ensures e in u
  {
    var k := u[Rank(CompareElems, u, e)];
    LookupIff(CompareElems, s, e);
    assert k in s && CompareElems(e, e) == 0;
  }

  // However often each element is reported, the copy equals the original.
  lemma {:induction false} CopyIsFaithful<N>(t: Tree<N, Elem>, visits: seq<Visit<Elem>>)
    requires Sorted(CompareElems, Keys(t)) && visits == Visits(t, 0)
    ensures AddAll(visits) == Keys(t)
  {
    CompareIsTotalPreorder();
    WalkReportsOnlyKeys(t, 0);
    WalkReportsKeys(t, 0);
    AddAllElems(visits, Keys(t));
    InOrderOnlyFrom(visits);
    forall e ensures e in Reported(visits) <==> e in Keys(t) {}
    SortedUnique(CompareElems, AddAll(visits), Keys(t));
  }

  lemma {:induction false} InOrderOnlyFrom<K>(visits: seq<Visit<K>>)
    ensures forall k | k in InOrderOnly(visits) :: exists v :: v in visits && v.key == k
  {
    if visits != [] {
      InOrderOnlyFrom(visits[1..]);
      assert visits[0] in visits;
    }
  }

  // add never overwrites: a name bound before keeps its index, whatever the
  // case of the added name; only an unbound name gets the new index.
  lemma {:induction false} AddNeverOverwrites(s: seq<Elem>, name: Name, index: int, n: Name)
    requires Sorted(CompareElems, s)
    ensures Sorted(CompareElems, Inserted(CompareElems, s, Elem(name, index)))
    ensures Meaning(Inserted(CompareElems, s, Elem(name, index)), n)
         == if Meaning(s, n) == None && SameName(n, name) then Some(index) else Meaning(s, n)
  {
    CompareIsTotalPreorder();
    InsertedSorted(CompareElems, s, Elem(name, index));
    LookupInserted(CompareElems, s, Elem(name, index), Elem(n, 0));
    CompareEqualMeansSameName(Elem(n, 0), Elem(name, index));
  }

  lemma {:induction false} RemoveUnbindsOnly(s: seq<Elem>, name: Name, n: Name)
    requires Sorted(CompareElems, s)
    ensures Sorted(CompareElems, Deleted(CompareElems, s, Elem(name, 0)))
    ensures Meaning(Deleted(CompareElems, s, Elem(name, 0)), n) == if SameName(n, name) then None else Meaning(s, n)
  {
    CompareIsTotalPreorder();
    DeletedSorted(CompareElems, s, Elem(name, 0));
    LookupDeleted(CompareElems, s, Elem(name, 0), Elem(n, 0));
    CompareEqualMeansSameName(Elem(n, 0), Elem(name, 0));
  }
}
