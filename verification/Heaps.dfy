// The order argument of pqueue.c on sequences: position 0 is unused, the
// parent of position j is j / 2, and one position is a hole being moved.
module Heaps {
  import opened Orders

  // The order of the queue: the least element first, or the greatest if
  // ascending is set. Worse(p, c): p may not stay above c.
  predicate Worse<T>(cmp: (T, T) -> int, ascending: bool, p: T, c: T) {
    if ascending then cmp(p, c) < 0 else cmp(p, c) > 0
  }

  lemma {:induction false} WorseTrans<T(!new)>(cmp: (T, T) -> int, ascending: bool, a: T, b: T, c: T)
    requires TotalPreorder(cmp) && !Worse(cmp, ascending, a, b) && !Worse(cmp, ascending, b, c)
    ensures !Worse(cmp, ascending, a, c)
  {
  }

  lemma {:induction false} WorseAsym<T(!new)>(cmp: (T, T) -> int, ascending: bool, a: T, b: T)
    requires TotalPreorder(cmp) && Worse(cmp, ascending, a, b)
    ensures !Worse(cmp, ascending, b, a)
  {
  }

  ghost predicate Edge<T>(cmp: (T, T) -> int, ascending: bool, h: seq<T>, j: int) {
    2 <= j < |h| ==> !Worse(cmp, ascending, h[j / 2], h[j])
  }

  ghost predicate IsHeap<T>(cmp: (T, T) -> int, ascending: bool, h: seq<T>) {
    |h| >= 1 && forall j :: Edge(cmp, ascending, h, j)
  }

  // Only the edge into position i may be wrong, and i's children respect its parent.
  ghost predicate HeapButUp<T>(cmp: (T, T) -> int, ascending: bool, h: seq<T>, i: int) {
    && 1 <= i < |h|
    && (forall j :: j != i ==> Edge(cmp, ascending, h, j))
    && (forall j | 2 <= j < |h| && j / 2 == i && i >= 2 :: !Worse(cmp, ascending, h[i / 2], h[j]))
  }

  // Only the edges out of position i may be wrong, and i's children respect its parent.
  ghost predicate HeapButDown<T>(cmp: (T, T) -> int, ascending: bool, h: seq<T>, i: int) {
    && 1 <= i < |h|
    && (forall j :: j / 2 != i ==> Edge(cmp, ascending, h, j))
    && (forall j | 2 <= j < |h| && j / 2 == i && i >= 2 :: !Worse(cmp, ascending, h[i / 2], h[j]))
  }

  // The element in the hole changes places with the one at position p.
  function Swapped<T>(h: seq<T>, i: int, p: int): seq<T>
    requires 0 <= i < |h| && 0 <= p < |h|
  {
    h[i := h[p]][p := h[i]]
  }

  lemma {:induction false} SwappedBag<T>(h: seq<T>, i: int, p: int)
    requires 1 <= i < |h| && 1 <= p < |h|
    ensures multiset(Swapped(h, i, p)[1..]) == multiset(h[1..])
  {
  }

  lemma {:induction false} BubbleUp<T(!new)>(cmp: (T, T) -> int, ascending: bool, h: seq<T>, i: int)
    requires TotalPreorder(cmp) && HeapButUp(cmp, ascending, h, i) && i >= 2 && Worse(cmp, ascending, h[i / 2], h[i])
    ensures HeapButUp(cmp, ascending, Swapped(h, i, i / 2), i / 2)
  {
    var p := i / 2;
    var h' := Swapped(h, i, p);
    WorseAsym(cmp, ascending, h[p], h[i]);
    forall j | j != p ensures Edge(cmp, ascending, h', j) {
      assert Edge(cmp, ascending, h, j) || j == i;
      if 2 <= j < |h| && j / 2 == p && j != i {
        WorseTrans(cmp, ascending, h[i], h[p], h[j]);
      }
    }
    forall j | 2 <= j < |h'| && j / 2 == p && p >= 2 ensures !Worse(cmp, ascending, h'[p / 2], h'[j]) {
      assert Edge(cmp, ascending, h, p);
      if j != i {
        assert Edge(cmp, ascending, h, j);
        WorseTrans(cmp, ascending, h[p / 2], h[p], h[j]);
      }
    }
  }

  lemma {:induction false} UpDone<T>(cmp: (T, T) -> int, ascending: bool, h: seq<T>, i: int)
    requires HeapButUp(cmp, ascending, h, i) && (i == 1 || !Worse(cmp, ascending, h[i / 2], h[i]))
    ensures IsHeap(cmp, ascending, h)
  {
  }

  // The child a sinking element is compared with.
  ghost predicate BestChild<T>(cmp: (T, T) -> int, ascending: bool, h: seq<T>, i: int, c: int) {
    && 1 <= i && 2 <= c < |h| && c / 2 == i
    && forall j | 2 <= j < |h| && j / 2 == i :: !Worse(cmp, ascending, h[c], h[j])
  }

  lemma {:induction false} SinkDown<T(!new)>(cmp: (T, T) -> int, ascending: bool, h: seq<T>, i: int, c: int)
    requires TotalPreorder(cmp) && HeapButDown(cmp, ascending, h, i) && BestChild(cmp, ascending, h, i, c)
    requires Worse(cmp, ascending, h[i], h[c])
    ensures HeapButDown(cmp, ascending, Swapped(h, i, c), c)
  {
    var h' := Swapped(h, i, c);
    WorseAsym(cmp, ascending, h[i], h[c]);
    forall j | j / 2 != c ensures Edge(cmp, ascending, h', j) {
      assert j / 2 != i ==> Edge(cmp, ascending, h, j);
    }
    forall j | 2 <= j < |h'| && j / 2 == c && c >= 2 ensures !Worse(cmp, ascending, h'[c / 2], h'[j]) {
      assert Edge(cmp, ascending, h, j);
    }
  }

  lemma {:induction false} DownDone<T(!new)>(cmp: (T, T) -> int, ascending: bool, h: seq<T>, i: int)
    requires TotalPreorder(cmp) && HeapButDown(cmp, ascending, h, i)
    requires 2 * i >= |h| || exists c :: BestChild(cmp, ascending, h, i, c) && !Worse(cmp, ascending, h[i], h[c])
    ensures IsHeap(cmp, ascending, h)
  {
  }

  // The element at position 1 comes before all others.
  lemma {:induction false} RootFirst<T(!new)>(cmp: (T, T) -> int, ascending: bool, h: seq<T>, j: int)
    requires TotalPreorder(cmp) && IsHeap(cmp, ascending, h) && 1 <= j < |h|
    ensures !Worse(cmp, ascending, h[1], h[j])
    decreases j
  {
    if j > 1 {
      RootFirst(cmp, ascending, h, j / 2);
      assert Edge(cmp, ascending, h, j);
      WorseTrans(cmp, ascending, h[1], h[j / 2], h[j]);
    } else {
      assert cmp(h[1], h[1]) == 0;
    }
  }

  // The first element of a queue holding the elements m: a least one, or a greatest
  // one if ascending is set.
  ghost predicate IsFirst<T>(cmp: (T, T) -> int, ascending: bool, m: multiset<T>, x: T) {
    x in m && forall y | y in m :: if ascending then cmp(x, y) >= 0 else cmp(x, y) <= 0
  }

  lemma {:induction false} RootIsFirst<T(!new)>(cmp: (T, T) -> int, ascending: bool, h: seq<T>)
    requires TotalPreorder(cmp) && IsHeap(cmp, ascending, h) && |h| >= 2
    ensures IsFirst(cmp, ascending, multiset(h[1..]), h[1])
  {
    forall y | y in multiset(h[1..]) ensures !Worse(cmp, ascending, h[1], y) {
      assert y in h[1..];
      var j :| 0 <= j < |h[1..]| && h[1..][j] == y;
      RootFirst(cmp, ascending, h, j + 1);
    }
    assert h[1] == h[1..][0];
  }
}
