// Search in sorted key sequences: what the descents of redblack.c must find.
module RbOrder {
  import opened Orders
  import opened RbTrees

  ghost predicate Sorted<K>(cmp: (K, K) -> int, s: seq<K>) {
    forall i, j | 0 <= i < j < |s| :: cmp(s[i], s[j]) < 0
  }

  // All keys of s come before key; all come after it.
  ghost predicate AllBelow<K>(cmp: (K, K) -> int, s: seq<K>, key: K) {
    forall i | 0 <= i < |s| :: cmp(key, s[i]) > 0
  }

  ghost predicate AllAbove<K>(cmp: (K, K) -> int, s: seq<K>, key: K) {
    forall i | 0 <= i < |s| :: cmp(key, s[i]) < 0
  }

  // How many keys of s come before key.
  ghost function Rank<K>(cmp: (K, K) -> int, s: seq<K>, key: K): (r: nat)
    ensures r <= |s|
  {
    if s == [] then 0
    else (if cmp(key, s[0]) > 0 then 1 else 0) + Rank(cmp, s[1..], key)
  }

  ghost predicate Hit<K>(cmp: (K, K) -> int, s: seq<K>, key: K) {
    var r := Rank(cmp, s, key);
    r < |s| && cmp(key, s[r]) == 0
  }

  // The equal key in s, the sequence with key added, and with it removed.
  ghost function Lookup<K>(cmp: (K, K) -> int, s: seq<K>, key: K): Option<K> {
    if Hit(cmp, s, key) then Some(s[Rank(cmp, s, key)]) else None
  }

  ghost function Inserted<K>(cmp: (K, K) -> int, s: seq<K>, key: K): seq<K> {
    var r := Rank(cmp, s, key);
    if Hit(cmp, s, key) then s else s[..r] + [key] + s[r..]
  }

  ghost function Deleted<K>(cmp: (K, K) -> int, s: seq<K>, key: K): seq<K> {
    var r := Rank(cmp, s, key);
    if Hit(cmp, s, key) then s[..r] + s[r + 1..] else s
  }

  ghost function Nth<K>(s: seq<K>, i: int): Option<K> {
    if 0 <= i < |s| then Some(s[i]) else None
  }

  // The modes of rblookup.
  datatype Mode = Equal | GtEq | LtEq | Less | Great | Next | Prev | First | Last

  // The answer a mode asks for, by position in the sorted key sequence.
  ghost function Prescribed<K>(cmp: (K, K) -> int, s: seq<K>, mode: Mode, key: K): Option<K> {
    var r, hit := Rank(cmp, s, key), Hit(cmp, s, key);
    match mode
    case Equal => if hit then Nth(s, r) else None
    case GtEq => Nth(s, r)
    case LtEq => Nth(s, if hit then r else r - 1)
    case Less => Nth(s, r - 1)
    case Great => Nth(s, if hit then r + 1 else r)
    case Next => if hit then Nth(s, r + 1) else None
    case Prev => if hit then Nth(s, r - 1) else None
    case First => Nth(s, 0)
    case Last => Nth(s, |s| - 1)
  }

  // Beside a hit each mode asks for the equal key or a neighbour of it.
  lemma {:induction false} PrescribedAtHit<K>(cmp: (K, K) -> int, s: seq<K>, mode: Mode, key: K)
    requires Hit(cmp, s, key) && mode != First && mode != Last
    ensures var r := Rank(cmp, s, key);
            Prescribed(cmp, s, mode, key)
            == Nth(s, if mode == Next || mode == Great then r + 1
                      else if mode == Prev || mode == Less then r - 1 else r)
  {
  }

  // What the ordered modes mean: the nearest key on the wanted side of key.
  ghost predicate Wanted<K>(cmp: (K, K) -> int, mode: Mode, key: K, k: K) {
    match mode
    case GtEq => cmp(key, k) <= 0
    case Great => cmp(key, k) < 0
    case LtEq => cmp(key, k) >= 0
    case Less => cmp(key, k) > 0
    case _ => false
  }

  lemma {:induction false} PrescribedIsNearest<K(!new)>(cmp: (K, K) -> int, s: seq<K>, mode: Mode, key: K)
    requires TotalPreorder(cmp) && Sorted(cmp, s)
    requires mode == GtEq || mode == Great || mode == LtEq || mode == Less
    ensures Nearest(cmp, s, mode, key, Prescribed(cmp, s, mode, key))
  {
    if mode == GtEq || mode == Great {
      NearestUpward(cmp, s, mode, key);
    } else {
      NearestDownward(cmp, s, mode, key);
    }
  }

  lemma {:induction false} NearestUpward<K(!new)>(cmp: (K, K) -> int, s: seq<K>, mode: Mode, key: K)
    requires TotalPreorder(cmp) && Sorted(cmp, s) && (mode == GtEq || mode == Great)
    ensures Nearest(cmp, s, mode, key, Prescribed(cmp, s, mode, key))
  {
    RankSplits(cmp, s, key);
    var r := Rank(cmp, s, key);
    UpwardFrom(cmp, s, mode, key, if mode == Great && Hit(cmp, s, key) then r + 1 else r);
  }

  lemma {:induction false} NearestDownward<K(!new)>(cmp: (K, K) -> int, s: seq<K>, mode: Mode, key: K)
    requires TotalPreorder(cmp) && Sorted(cmp, s) && (mode == LtEq || mode == Less)
    ensures Nearest(cmp, s, mode, key, Prescribed(cmp, s, mode, key))
  {
    RankSplits(cmp, s, key);
    WantedDownward(cmp, s, mode, key);
    DownwardFrom(cmp, s, mode, key, LastWanted(cmp, s, mode, key));
  }

  // The position of the last key that is not behind key, or before it.
  ghost function LastWanted<K>(cmp: (K, K) -> int, s: seq<K>, mode: Mode, key: K): int {
    if mode == LtEq && Hit(cmp, s, key) then Rank(cmp, s, key) else Rank(cmp, s, key) - 1
  }

  lemma {:induction false} WantedDownward<K>(cmp: (K, K) -> int, s: seq<K>, mode: Mode, key: K)
    requires mode == LtEq || mode == Less
    requires forall j | 0 <= j < Rank(cmp, s, key) :: cmp(key, s[j]) > 0
    requires forall j | Rank(cmp, s, key) <= j < |s| :: cmp(key, s[j]) <= 0
    requires forall j | Rank(cmp, s, key) < j < |s| :: cmp(key, s[j]) < 0
    ensures -1 <= LastWanted(cmp, s, mode, key) < |s|
    ensures forall j | 0 <= j < |s| :: Wanted(cmp, mode, key, s[j]) <==> j <= LastWanted(cmp, s, mode, key)
  {
  }

  // The other modes: the ends of the keys;
  lemma {:induction false} EndsPrescribed<K(!new)>(cmp: (K, K) -> int, s: seq<K>, key: K)
    requires Sorted(cmp, s)
    ensures match Prescribed(cmp, s, First, key)
            case None => s == []
            case Some(k) => k in s && forall j | 0 <= j < |s| :: s[j] == k || cmp(k, s[j]) < 0
    ensures match Prescribed(cmp, s, Last, key)
            case None => s == []
            case Some(k) => k in s && forall j | 0 <= j < |s| :: s[j] == k || cmp(s[j], k) < 0
  {
  }

  // for a key that is there itself and its neighbours, for any other none.
  lemma {:induction false} NeighboursPrescribed<K(!new)>(cmp: (K, K) -> int, s: seq<K>, key: K)
    requires TotalPreorder(cmp) && Sorted(cmp, s)
    ensures Prescribed(cmp, s, Equal, key) == Lookup(cmp, s, key)
    ensures if Lookup(cmp, s, key) == None then Prescribed(cmp, s, Next, key) == None
            else Nearest(cmp, s, Great, key, Prescribed(cmp, s, Next, key))
    ensures if Lookup(cmp, s, key) == None then Prescribed(cmp, s, Prev, key) == None
            else Nearest(cmp, s, Less, key, Prescribed(cmp, s, Prev, key))
  {
    PrescribedIsNearest(cmp, s, Great, key);
    PrescribedIsNearest(cmp, s, Less, key);
  }

  // r is the wanted key nearest to key, or there is no wanted key.
  ghost predicate Nearest<K>(cmp: (K, K) -> int, s: seq<K>, mode: Mode, key: K, r: Option<K>) {
    match r
    case None => forall j | 0 <= j < |s| :: !Wanted(cmp, mode, key, s[j])
    case Some(k) =>
      && k in s && Wanted(cmp, mode, key, k)
      && forall j | 0 <= j < |s| && Wanted(cmp, mode, key, s[j]) ::
           if mode == GtEq || mode == Great then cmp(k, s[j]) <= 0 else cmp(k, s[j]) >= 0
  }

  lemma {:induction false} UpwardFrom<K(!new)>(cmp: (K, K) -> int, s: seq<K>, mode: Mode, key: K, i: nat)
    requires TotalPreorder(cmp) && Sorted(cmp, s) && i <= |s| && (mode == GtEq || mode == Great)
    requires forall j | 0 <= j < |s| :: Wanted(cmp, mode, key, s[j]) <==> i <= j
    ensures Nearest(cmp, s, mode, key, Nth(s, i))
  {
  }

  lemma {:induction false} DownwardFrom<K(!new)>(cmp: (K, K) -> int, s: seq<K>, mode: Mode, key: K, i: int)
    requires TotalPreorder(cmp) && Sorted(cmp, s) && -1 <= i < |s| && (mode == LtEq || mode == Less)
    requires forall j | 0 <= j < |s| :: Wanted(cmp, mode, key, s[j]) <==> j <= i
    ensures Nearest(cmp, s, mode, key, Nth(s, i))
  {
  }

  // The rank separates the keys before key from the others, of which only the
  // one at the rank can be equal.
  lemma {:induction false} RankSplits<K(!new)>(cmp: (K, K) -> int, s: seq<K>, key: K)
    requires TotalPreorder(cmp) && Sorted(cmp, s)
    ensures forall j | 0 <= j < Rank(cmp, s, key) :: cmp(key, s[j]) > 0
    ensures forall j | Rank(cmp, s, key) <= j < |s| :: cmp(key, s[j]) <= 0
    ensures forall j | Rank(cmp, s, key) < j < |s| :: cmp(key, s[j]) < 0
  {
    if s != [] {
      if cmp(key, s[0]) > 0 {
        RankSplits(cmp, s[1..], key);
      } else {
        forall j | 0 < j < |s| ensures cmp(key, s[j]) < 0 {
          if cmp(key, s[0]) < 0 {
            LessTrans(cmp, key, s[0], s[j]);
          } else {
            EqualLessTrans(cmp, key, s[0], s[j]);
          }
        }
        RankIs(cmp, s, key, 0);
      }
    }
  }

  lemma {:induction false} RankIs<K>(cmp: (K, K) -> int, s: seq<K>, key: K, i: nat)
    requires i <= |s|
    requires forall j | 0 <= j < i :: cmp(key, s[j]) > 0
    requires forall j | i <= j < |s| :: cmp(key, s[j]) <= 0
    ensures Rank(cmp, s, key) == i
  {
    if i > 0 {
      RankIs(cmp, s[1..], key, i - 1);
    } else if s != [] {
      RankIs(cmp, s[1..], key, 0);
    }
  }

  lemma {:induction false} InsertedInGap<K(!new)>(cmp: (K, K) -> int, l: seq<K>, r: seq<K>, key: K)
    requires AllBelow(cmp, l, key) && AllAbove(cmp, r, key)
    ensures !Hit(cmp, l + r, key) && Rank(cmp, l + r, key) == |l|
    ensures Inserted(cmp, l + r, key) == l + [key] + r
  {
    RankIs(cmp, l + r, key, |l|);
  }

  lemma {:induction false} RankOfHit<K(!new)>(cmp: (K, K) -> int, s: seq<K>, i: nat, key: K)
    requires TotalPreorder(cmp) && Sorted(cmp, s)
    requires i < |s| && cmp(key, s[i]) == 0
    ensures Rank(cmp, s, key) == i && Hit(cmp, s, key)
  {
    forall j | 0 <= j < |s|
      ensures j < i ==> cmp(key, s[j]) > 0
      ensures j > i ==> cmp(key, s[j]) < 0
    {
      if j < i {
        LessEqualTrans(cmp, s[j], s[i], key);
      } else if j > i {
        EqualLessTrans(cmp, key, s[i], s[j]);
      }
    }
    RankIs(cmp, s, key, i);
  }

  lemma {:induction false} DeletedAt<K(!new)>(cmp: (K, K) -> int, l: seq<K>, k: K, r: seq<K>, key: K)
    requires TotalPreorder(cmp) && Sorted(cmp, l + [k] + r) && cmp(key, k) == 0
    ensures Hit(cmp, l + [k] + r, key) && Rank(cmp, l + [k] + r, key) == |l|
    ensures Lookup(cmp, l + [k] + r, key) == Some(k)
    ensures Deleted(cmp, l + [k] + r, key) == l + r
  {
    var s := l + [k] + r;
    assert s[|l|] == k && s[..|l|] == l && s[|l| + 1..] == r;
    RankOfHit(cmp, s, |l|, key);
  }

  // Everything before the hole stays below key when the descent goes on.
  lemma {:induction false} DescendLeft<K(!new)>(cmp: (K, K) -> int, s: seq<K>, i: nat, key: K)
    requires TotalPreorder(cmp) && Sorted(cmp, s) && i < |s| && cmp(key, s[i]) < 0
    ensures AllAbove(cmp, s[i..], key)
  {
  }

  lemma {:induction false} DescendRight<K(!new)>(cmp: (K, K) -> int, s: seq<K>, i: nat, key: K)
    requires TotalPreorder(cmp) && Sorted(cmp, s) && i < |s| && cmp(key, s[i]) > 0
    ensures AllBelow(cmp, s[..i + 1], key)
  {
  }

  lemma {:induction false} SortedInsert<K(!new)>(cmp: (K, K) -> int, l: seq<K>, key: K, r: seq<K>)
    requires TotalPreorder(cmp) && Sorted(cmp, l + r) && AllBelow(cmp, l, key) && AllAbove(cmp, r, key)
    ensures Sorted(cmp, l + [key] + r)
  {
    var s, s' := l + r, l + [key] + r;
    forall i, j | 0 <= i < j < |s'| ensures cmp(s'[i], s'[j]) < 0 {
      if i != |l| && j != |l| {
        var i', j' := if i < |l| then i else i - 1, if j < |l| then j else j - 1;
        assert s'[i] == s[i'] && s'[j] == s[j'];
      }
    }
  }

  lemma {:induction false} SortedDelete<K>(cmp: (K, K) -> int, l: seq<K>, k: K, r: seq<K>)
    requires Sorted(cmp, l + [k] + r)
    ensures Sorted(cmp, l + r)
  {
    var s := l + [k] + r;
    forall i, j | 0 <= i < j < |l + r| ensures cmp((l + r)[i], (l + r)[j]) < 0 {
      var i', j' := if i < |l| then i else i + 1, if j < |l| then j else j + 1;
      assert (l + r)[i] == s[i'] && (l + r)[j] == s[j'];
    }
  }

  // Where a comparison at the focus leaves the key to be found.
  lemma {:induction false} Narrow<N, K(!new)>(cmp: (K, K) -> int, c: Ctx<N, K>, t: Tree<N, K>, key: K)
    requires TotalPreorder(cmp) && Sorted(cmp, Keys(Plug(c, t))) && t.Node?
    ensures cmp(key, t.key) < 0 ==> AllAbove(cmp, After(InLeft(t.n, t.key, t.colour, t.right, c)), key)
    ensures cmp(key, t.key) > 0 ==> AllBelow(cmp, Before(InRight(t.n, t.key, t.colour, t.left, c)), key)
  {
    KeysAround(c, t);
    NarrowSeq(cmp, Before(c) + Keys(t.left), t.key, Keys(t.right) + After(c), key);
    assert [t.key] + (Keys(t.right) + After(c)) == [t.key] + Keys(t.right) + After(c);
  }

  lemma {:induction false} NarrowSeq<K(!new)>(cmp: (K, K) -> int, a: seq<K>, k: K, b: seq<K>, key: K)
    requires TotalPreorder(cmp) && Sorted(cmp, a + [k] + b)
    ensures cmp(key, k) < 0 ==> AllAbove(cmp, [k] + b, key)
    ensures cmp(key, k) > 0 ==> AllBelow(cmp, a + [k], key)
  {
    var s := a + [k] + b;
    if cmp(key, k) < 0 {
      DescendLeft(cmp, s, |a|, key);
      assert s[|a|..] == [k] + b;
    } else if cmp(key, k) > 0 {
      DescendRight(cmp, s, |a|, key);
      assert s[..|a| + 1] == a + [k];
    }
  }

  // The key sequences after an insertion and a deletion at the focus are sorted.
  lemma {:induction false} SortedAtGap<N, K(!new)>(cmp: (K, K) -> int, c: Ctx<N, K>, key: K)
    requires TotalPreorder(cmp) && Sorted(cmp, Keys(Plug(c, Leaf)))
    requires AllBelow(cmp, Before(c), key) && AllAbove(cmp, After(c), key)
    ensures Sorted(cmp, Before(c) + [key] + After(c))
    ensures !c.Top? ==> (c.InLeft? <==> cmp(key, c.key) < 0)
  {
    KeysAround(c, Leaf);
    SortedInsert(cmp, Before(c), key, After(c));
    if c.InLeft? {
      assert After(c)[0] == c.key;
    } else if c.InRight? {
      assert Before(c)[|Before(c)| - 1] == c.key;
    }
  }

  lemma {:induction false} SortedWithout<N, K>(cmp: (K, K) -> int, c: Ctx<N, K>, t: Tree<N, K>)
    requires t.Node? && Sorted(cmp, Keys(Plug(c, t)))
    ensures Sorted(cmp, Before(c) + Keys(t.left) + (Keys(t.right) + After(c)))
  {
    KeysAround(c, t);
    SortedDelete(cmp, Before(c) + Keys(t.left), t.key, Keys(t.right) + After(c));
  }

  // Lookup finds the one equal key of a sorted sequence.
  lemma {:induction false} LookupIff<K(!new)>(cmp: (K, K) -> int, s: seq<K>, key: K)
    requires TotalPreorder(cmp) && Sorted(cmp, s)
    ensures forall k :: Lookup(cmp, s, key) == Some(k) <==> k in s && cmp(key, k) == 0
  {
    forall i | 0 <= i < |s| && cmp(key, s[i]) == 0
      ensures Lookup(cmp, s, key) == Some(s[i])
    {
      RankOfHit(cmp, s, i, key);
    }
  }

  lemma {:induction false} InsertedSorted<K(!new)>(cmp: (K, K) -> int, s: seq<K>, key: K)
    requires TotalPreorder(cmp) && Sorted(cmp, s)
    ensures Sorted(cmp, Inserted(cmp, s, key))
    ensures forall k :: k in Inserted(cmp, s, key) <==> k in s || (k == key && !Hit(cmp, s, key))
  {
    var r := Rank(cmp, s, key);
    if !Hit(cmp, s, key) {
      RankSplits(cmp, s, key);
      assert s[..r] + s[r..] == s;
      SortedInsert(cmp, s[..r], key, s[r..]);
      assert key in [key];
    }
  }

  // Searching after rbsearch(k): a key equal to k is found if it was there
  // before, else it is k itself; other keys are found as before.
  lemma {:induction false} LookupInserted<K(!new)>(cmp: (K, K) -> int, s: seq<K>, k: K, key: K)
    requires TotalPreorder(cmp) && Sorted(cmp, s)
    ensures Lookup(cmp, Inserted(cmp, s, k), key)
         == if Lookup(cmp, s, key) == None && cmp(key, k) == 0 then Some(k) else Lookup(cmp, s, key)
  {
    InsertedSorted(cmp, s, k);
    LookupIff(cmp, s, key);
    LookupIff(cmp, s, k);
    LookupIff(cmp, Inserted(cmp, s, k), key);
    if Hit(cmp, s, k) && cmp(key, k) == 0 {
      var x := s[Rank(cmp, s, k)];
      assert x in s && cmp(key, x) == 0 by { EqualTrans(cmp, key, k, x); }
    }
  }

  lemma {:induction false} DeletedSorted<K(!new)>(cmp: (K, K) -> int, s: seq<K>, key: K)
    requires TotalPreorder(cmp) && Sorted(cmp, s)
    ensures Sorted(cmp, Deleted(cmp, s, key))
    ensures forall k :: k in Deleted(cmp, s, key) <==> k in s && cmp(key, k) != 0
  {
    var r := Rank(cmp, s, key);
    RankSplits(cmp, s, key);
    if Hit(cmp, s, key) {
      assert s == s[..r] + [s[r]] + s[r + 1..];
      SortedDelete(cmp, s[..r], s[r], s[r + 1..]);
      RemovedOne(s, r);
      forall k ensures k in s[..r] || k in s[r + 1..] <==> k in s && cmp(key, k) != 0 {
        assert k in s[..r] ==> cmp(key, k) > 0;
        assert k in s[r + 1..] ==> cmp(key, k) < 0;
      }
    }
  }

  lemma {:induction false} RemovedOne<K>(s: seq<K>, r: nat)
    requires r < |s|
    ensures forall k :: k in s <==> k in s[..r] || k == s[r] || k in s[r + 1..]
  {
  }

  lemma {:induction false} LookupDeleted<K(!new)>(cmp: (K, K) -> int, s: seq<K>, k: K, key: K)
    requires TotalPreorder(cmp) && Sorted(cmp, s)
    ensures Lookup(cmp, Deleted(cmp, s, k), key)
         == if cmp(key, k) == 0 then None else Lookup(cmp, s, key)
  {
    DeletedSorted(cmp, s, k);
    LookupIff(cmp, s, key);
    LookupIff(cmp, Deleted(cmp, s, k), key);
    match Lookup(cmp, s, key)
    case None =>
    case Some(x) =>
      if cmp(key, k) == 0 {
        EqualTrans(cmp, x, key, k);
      } else if cmp(k, x) == 0 {
        EqualTrans(cmp, k, x, key);
      }
  }

  // A sorted sequence is determined by its elements.
  lemma {:induction false} SortedUnique<K(!new)>(cmp: (K, K) -> int, s: seq<K>, u: seq<K>)
    requires TotalPreorder(cmp) && Sorted(cmp, s) && Sorted(cmp, u)
    requires forall k :: k in s <==> k in u
    ensures s == u
  {
    assert (s != [] ==> s[0] in u) && (u != [] ==> u[0] in s);
    if s != [] {
      FirstIsLeast(cmp, s, u);
      NotAgain(cmp, s);
      NotAgain(cmp, u);
      SameRest(s, u);
      SortedUnique(cmp, s[1..], u[1..]);
    }
  }

  lemma {:induction false} SameRest<K(!new)>(s: seq<K>, u: seq<K>)
    requires s != [] && u != [] && s[0] == u[0] && s[0] !in s[1..] && u[0] !in u[1..]
    requires forall k :: k in s <==> k in u
    ensures forall k :: k in s[1..] <==> k in u[1..]
  {
    assert s == [s[0]] + s[1..] && u == [u[0]] + u[1..];
    forall k ensures k in s[1..] <==> k in u[1..] {
      assert k in s <==> k == s[0] || k in s[1..];
      assert k in u <==> k == u[0] || k in u[1..];
    }
  }

  lemma {:induction false} FirstIsLeast<K(!new)>(cmp: (K, K) -> int, s: seq<K>, u: seq<K>)
    requires TotalPreorder(cmp) && Sorted(cmp, s) && Sorted(cmp, u) && s != [] && u != []
    requires forall k :: k in s <==> k in u
    ensures s[0] == u[0]
  {
    assert u[0] in s && s[0] in u;
    FirstBelow(cmp, s, u[0]);
    FirstBelow(cmp, u, s[0]);
  }

  lemma {:induction false} FirstBelow<K>(cmp: (K, K) -> int, s: seq<K>, k: K)
    requires Sorted(cmp, s) && k in s
    ensures k == s[0] || cmp(s[0], k) < 0
  {
    var i :| 0 <= i < |s| && s[i] == k;
    if i > 0 {
      assert cmp(s[0], s[i]) < 0;
    }
  }

  lemma {:induction false} NotAgain<K(!new)>(cmp: (K, K) -> int, s: seq<K>)
    requires TotalPreorder(cmp) && Sorted(cmp, s) && s != []
    ensures s[0] !in s[1..]
  {
  }
}
