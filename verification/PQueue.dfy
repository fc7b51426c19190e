// pqueue.c: a binary heap in a growing array, positions counted from 1.
module PQueues {
  import opened Orders
  import opened Heaps

  class PQueue<T(0, !new)> {
    const cmp: (T, T) -> int
    const isAscendingHeap: bool
    var elements: array<T>
    var maxSize: nat
    var currentSize: nat

    ghost predicate Valid()
      reads this, elements
    {
      && TotalPreorder(cmp)
      && elements.Length == maxSize + 1 && currentSize <= maxSize
      && IsHeap(cmp, isAscendingHeap, elements[..currentSize + 1])
    }

    ghost function Contents(): multiset<T>
      requires currentSize + 1 <= elements.Length
      reads this, elements
    {
      multiset(elements[1..currentSize + 1])
    }

    // PQueueInitialise
    constructor (maxElements: nat, isAscending: bool, cmp: (T, T) -> int)
      requires TotalPreorder(cmp)
      ensures Valid() && Contents() == multiset{} && fresh(elements) && maxSize == maxElements
      ensures this.cmp == cmp && isAscendingHeap == isAscending
    {
      this.cmp := cmp;
      isAscendingHeap := isAscending;
      maxSize := maxElements;
      currentSize := 0;
      elements := new T[maxElements + 1];
    }

    // Widens the array by 256 elements if it is full, and only then.
    method MakeRoom()
      requires elements.Length == maxSize + 1 && currentSize <= maxSize
      modifies this`elements, this`maxSize
      ensures elements.Length == maxSize + 1 && currentSize < maxSize
      ensures maxSize == if currentSize == old(maxSize) then old(maxSize) + 256 else old(maxSize)
      ensures elements == old(elements) || fresh(elements)
      ensures elements[..currentSize + 1] == old(elements[..currentSize + 1])
    {
      if currentSize == maxSize {
        var a, newSize := elements, maxSize + 256;
        var wider := new T[newSize + 1];
        for i := 0 to a.Length
          modifies wider
          invariant wider[..i] == a[..i]
        {
          wider[i] := a[i];
        }
        elements := wider;
        maxSize := newSize;
      }
    }

    // PQueuePush
    method Push(item: T)
      requires Valid()
      modifies this, elements
      ensures Valid() && Contents() == old(Contents()) + multiset{item}
      ensures elements == old(elements) || fresh(elements)
    {
      ghost var s := elements[..currentSize + 1];
      assert Contents() == multiset(s[1..]) by {
        assert s[1..] == elements[1..currentSize + 1];
      }
      MakeRoom();
      PutLast(item, s);
    }

    // The part of PQueuePush after room is made.
    method PutLast(item: T, ghost s: seq<T>)
      requires TotalPreorder(cmp) && elements.Length == maxSize + 1 && currentSize < maxSize
      requires s == elements[..currentSize + 1] && IsHeap(cmp, isAscendingHeap, s)
      modifies this`currentSize, elements
      ensures Valid() && Contents() == multiset(s[1..]) + multiset{item}
    {
      Appended(cmp, isAscendingHeap, s, item);
      AppendedBag(s, item);
      currentSize := currentSize + 1;
      ghost var h := PercolateUp(elements, currentSize, item, s + [item]);
      Filled(h);
    }

    // Moves the hole up from the last position n to where item belongs.
    method PercolateUp(a: array<T>, n: nat, item: T, ghost h0: seq<T>) returns (ghost h: seq<T>)
      requires TotalPreorder(cmp) && 1 <= n < a.Length
      requires h0 == a[..n] + [item] && HeapButUp(cmp, isAscendingHeap, h0, n)
      modifies a
      ensures a[..n + 1] == h && |h| == n + 1 && IsHeap(cmp, isAscendingHeap, h)
      ensures multiset(h[1..]) == multiset(h0[1..])
    {
      var i := n;
      h := h0;
      while i != 1 && Worse(cmp, isAscendingHeap, a[i / 2], item)
        invariant 1 <= i < |h| && |h| == n + 1
        invariant h == a[..n + 1][i := item]
        invariant HeapButUp(cmp, isAscendingHeap, h, i)
        invariant multiset(h[1..]) == multiset(h0[1..])
      {
        ghost var s := a[..n + 1];
        BubbleUp(cmp, isAscendingHeap, h, i);
        SwappedBag(h, i, i / 2);
        a[i] := a[i / 2];
        HoleMoves(s, i, i / 2, item);
        assert a[..n + 1] == s[i := s[i / 2]];
        h := Swapped(h, i, i / 2);
        i := i / 2;
      }
      UpDone(cmp, isAscendingHeap, h, i);
      a[i] := item;
    }

    // The array holds the heap h up to the current size.
    lemma {:induction false} Filled(h: seq<T>)
      requires TotalPreorder(cmp) && elements.Length == maxSize + 1 && currentSize <= maxSize
      requires |h| == currentSize + 1 && elements[..currentSize + 1] == h && IsHeap(cmp, isAscendingHeap, h)
      ensures Valid() && Contents() == multiset(h[1..])
    {
    }

    // PQueuePeekMinimum
    method Peek() returns (r: Option<T>)
      requires Valid()
      ensures r == None <==> Contents() == multiset{}
      ensures r.Some? ==> IsFirst(cmp, isAscendingHeap, Contents(), r.value)
    {
      if currentSize == 0 {
        return None;
      }
      RootIsFirst(cmp, isAscendingHeap, elements[..currentSize + 1]);
      assert elements[..currentSize + 1][1..] == elements[1..currentSize + 1];
      r := Some(elements[1]);
      assert elements[1] in Contents();
    }

    // PQueuePop: the last element sinks into the hole left by the first.
    method Pop() returns (r: Option<T>)
      requires Valid()
      modifies this`currentSize, elements
      ensures Valid()
      ensures r == None <==> old(Contents()) == multiset{}
      ensures r == None ==> Contents() == old(Contents()) && currentSize == old(currentSize) == 0
      ensures r.Some? ==>
                && currentSize == old(currentSize) - 1
                && IsFirst(cmp, isAscendingHeap, old(Contents()), r.value)
                && old(Contents()) == Contents() + multiset{r.value}
    {
      if currentSize == 0 {
        return None;
      }
      ghost var s := elements[..currentSize + 1];
      RootIsFirst(cmp, isAscendingHeap, s);
      PoppedBag(s);
      r := Some(elements[1]);
      ghost var bag := Contents();
      assert bag == multiset(s[1..]) by {
        assert s[1..] == elements[1..currentSize + 1];
      }
      assert s[2..] == elements[2..currentSize + 1];
      SinkLast();
      assert Contents() + multiset{r.value} == bag;
    }

    // The part of PQueuePop after the first element is remembered.
    method SinkLast()
      requires Valid() && currentSize >= 1
      modifies this`currentSize, elements
      ensures Valid() && Contents() == multiset(old(elements[2..currentSize + 1]))
      ensures currentSize == old(currentSize) - 1
    {
      ghost var s := elements[..currentSize + 1];
      assert s[2..] == elements[2..currentSize + 1];
      var last := elements[currentSize];
      currentSize := currentSize - 1;
      if currentSize == 0 {
        elements[1] := last;
        assert s[1..1] == s[2..] == [];
        Filled(s[..1]);
      } else {
        ghost var front := elements[..currentSize + 1];
        assert s == front + [last];
        Refill(last, front);
      }
    }

    method Refill(last: T, ghost front: seq<T>)
      requires TotalPreorder(cmp) && elements.Length == maxSize + 1 && 1 <= currentSize < maxSize
      requires front == elements[..currentSize + 1] && IsHeap(cmp, isAscendingHeap, front + [last])
      modifies elements
      ensures Valid() && Contents() == multiset((front + [last])[2..])
    {
      LastLifted(cmp, isAscendingHeap, front, last);
      ghost var h := PercolateDown(elements, currentSize, last, front[1 := last]);
      Filled(h);
    }

    // Popping until the queue is empty gives every element once, in order.
    method Drain() returns (out: seq<T>)
      requires Valid()
      modifies this`currentSize, elements
      ensures Valid() && Contents() == multiset{}
      ensures multiset(out) == old(Contents())
      ensures InOrder(cmp, isAscendingHeap, out)
    {
      out := [];
      while currentSize != 0
        invariant Valid()
        invariant multiset(out) + Contents() == old(Contents())
        invariant InOrder(cmp, isAscendingHeap, out)
        invariant NoneBefore(cmp, isAscendingHeap, Contents(), out)
        decreases currentSize
      {
        ghost var before := Contents();
        var r := Pop();
        AddNext(cmp, isAscendingHeap, before, Contents(), out, r.value);
        out := out + [r.value];
      }
    }

    // The child of position i that comes first.
    method PickChild(a: array<T>, n: nat, i: nat, ghost h: seq<T>) returns (child: nat)
      requires TotalPreorder(cmp) && 1 <= i && 2 * i <= n < a.Length
      requires |h| == n + 1 && forall j | 0 <= j <= n && j != i :: h[j] == a[j]
      ensures i < child <= n && child / 2 == i && BestChild(cmp, isAscendingHeap, h, i, child)
    {
      child := 2 * i;
      if child != n && Worse(cmp, !isAscendingHeap, a[child + 1], a[child]) {
        child := child + 1;
      }
      BestOfTwo(cmp, isAscendingHeap, h, i, child);
    }

    // Moves the hole down from position 1 to where item belongs.
    method PercolateDown(a: array<T>, n: nat, item: T, ghost h0: seq<T>) returns (ghost h: seq<T>)
      requires TotalPreorder(cmp) && 1 <= n < a.Length
      requires h0 == a[..n + 1][1 := item] && HeapButDown(cmp, isAscendingHeap, h0, 1)
      modifies a
      ensures a[..n + 1] == h && |h| == n + 1 && IsHeap(cmp, isAscendingHeap, h)
      ensures multiset(h[1..]) == multiset(h0[1..])
    {
      var i := 1;
      h := h0;
      while 2 * i <= n
        invariant 1 <= i < |h| && |h| == n + 1
        invariant h == a[..n + 1][i := item]
        invariant HeapButDown(cmp, isAscendingHeap, h, i)
        invariant multiset(h[1..]) == multiset(h0[1..])
        decreases n - i
      {
        ghost var s := a[..n + 1];
        var child := PickChild(a, n, i, h);
        if !Worse(cmp, isAscendingHeap, item, a[child]) {
          break;
        }
        SinkDown(cmp, isAscendingHeap, h, i, child);
        SwappedBag(h, i, child);
        a[i] := a[child];
        HoleMoves(s, i, child, item);
        assert a[..n + 1] == s[i := s[child]];
        h := Swapped(h, i, child);
        i := child;
      }
      DownDone(cmp, isAscendingHeap, h, i);
      a[i] := item;
    }

    method IsEmpty() returns (empty: bool)
      requires Valid()
      ensures empty <==> Contents() == multiset{}
    {
      assert currentSize > 0 ==> elements[1] in Contents();
      empty := currentSize == 0;
    }
  }

  lemma {:induction false} AppendedBag<T>(s: seq<T>, item: T)
    requires |s| >= 1
    ensures multiset((s + [item])[1..]) == multiset(s[1..]) + multiset{item}
  {
    assert (s + [item])[1..] == s[1..] + [item];
  }

  // Copying the element at p into the hole i moves the hole to p.
  lemma {:induction false} HoleMoves<T>(s: seq<T>, i: int, p: int, item: T)
    requires 0 <= i < |s| && 0 <= p < |s| && i != p
    ensures Swapped(s[i := item], i, p) == s[i := s[p]][p := item]
  {
  }

  lemma {:induction false} Appended<T>(cmp: (T, T) -> int, ascending: bool, h: seq<T>, item: T)
    requires IsHeap(cmp, ascending, h)
    ensures HeapButUp(cmp, ascending, h + [item], |h|)
  {
    var h' := h + [item];
    forall j | j != |h| ensures Edge(cmp, ascending, h', j) {
      assert Edge(cmp, ascending, h, j);
    }
  }

  ghost predicate InOrder<T>(cmp: (T, T) -> int, ascending: bool, s: seq<T>) {
    forall i, j | 0 <= i < j < |s| :: if ascending then cmp(s[i], s[j]) >= 0 else cmp(s[i], s[j]) <= 0
  }

  // No element still queued comes before one already out.
  ghost predicate NoneBefore<T>(cmp: (T, T) -> int, ascending: bool, queued: multiset<T>, out: seq<T>) {
    forall i, y | 0 <= i < |out| && y in queued :: !Worse(cmp, ascending, out[i], y)
  }

  lemma {:induction false} AddNext<T>(cmp: (T, T) -> int, ascending: bool, before: multiset<T>, after: multiset<T>,
                                      out: seq<T>, x: T)
    requires before == after + multiset{x} && IsFirst(cmp, ascending, before, x)
    requires InOrder(cmp, ascending, out) && NoneBefore(cmp, ascending, before, out)
    ensures InOrder(cmp, ascending, out + [x]) && NoneBefore(cmp, ascending, after, out + [x])
    ensures multiset(out + [x]) + after == multiset(out) + before
  {
    assert forall y | y in after :: y in before;
  }

  lemma {:induction false} PoppedBag<T>(s: seq<T>)
    requires |s| >= 2
    ensures multiset(s[1..]) == multiset{s[1]} + multiset(s[2..])
  {
    assert s[1..] == [s[1]] + s[2..];
  }

  // The last element of a heap put in position 1, in place of the first.
  lemma {:induction false} LastLifted<T>(cmp: (T, T) -> int, ascending: bool, front: seq<T>, last: T)
    requires |front| >= 2 && IsHeap(cmp, ascending, front + [last])
    ensures HeapButDown(cmp, ascending, front[1 := last], 1)
    ensures multiset(front[1 := last][1..]) == multiset((front + [last])[2..])
  {
    var (h, s) := (front[1 := last], front + [last]);
    forall j | j / 2 != 1 ensures Edge(cmp, ascending, h, j) {
      assert Edge(cmp, ascending, s, j);
    }
    assert h[1..] == [last] + front[2..];
    assert s[2..] == front[2..] + [last];
  }

  lemma {:induction false} BestOfTwo<T(!new)>(cmp: (T, T) -> int, ascending: bool, h: seq<T>, i: int, c: int)
    requires TotalPreorder(cmp) && 1 <= i && 2 * i < |h| && (c == 2 * i || c == 2 * i + 1 < |h|)
    requires 2 * i + 1 < |h| ==> (c == 2 * i + 1 <==> Worse(cmp, ascending, h[2 * i], h[2 * i + 1]))
    ensures BestChild(cmp, ascending, h, i, c)
  {
  }
}
