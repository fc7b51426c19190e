// How a focused tree lies in memory: one cell per node, children by pointer,
// every up pointer naming the parent, and the sentinel at both ends.
module RbLayout {
  import opened RbTrees

  datatype Cell<N, K> = Cell(left: N, right: N, up: N, colour: Colour, key: K)

  type Memory<N, K> = map<N, Cell<N, K>>

  ghost function Nodes<N, K>(t: Tree<N, K>): set<N> {
    if t.Leaf? then {} else Nodes(t.left) + {t.n} + Nodes(t.right)
  }

  ghost function CtxNodes<N, K>(c: Ctx<N, K>): set<N>
    decreases c
  {
    if c.Top? then {} else {c.n} + Nodes(c.sib) + CtxNodes(c.up)
  }

  // No node occurs twice.
  ghost predicate Distinct<N, K>(t: Tree<N, K>) {
    t.Node? ==>
      && t.n !in Nodes(t.left) && t.n !in Nodes(t.right)
      && Nodes(t.left) !! Nodes(t.right)
      && Distinct(t.left) && Distinct(t.right)
  }

  ghost predicate CtxDistinct<N, K>(c: Ctx<N, K>)
    decreases c
  {
    !c.Top? ==>
      && c.n !in Nodes(c.sib) && c.n !in CtxNodes(c.up)
      && Nodes(c.sib) !! CtxNodes(c.up)
      && Distinct(c.sib) && CtxDistinct(c.up)
  }

  function Ptr<N, K>(t: Tree<N, K>, nil: N): N {
    if t.Leaf? then nil else t.n
  }

  function ParentOf<N, K>(c: Ctx<N, K>, nil: N): N {
    if c.Top? then nil else c.n
  }

  ghost predicate Holds<N, K>(m: Memory<N, K>, t: Tree<N, K>, up: N, nil: N) {
    t.Node? ==>
      && t.n in m
      && m[t.n] == Cell(Ptr(t.left, nil), Ptr(t.right, nil), up, t.colour, t.key)
      && Holds(m, t.left, t.n, nil) && Holds(m, t.right, t.n, nil)
  }

  // x is the pointer in the hole.
  ghost predicate HoldsCtx<N, K>(m: Memory<N, K>, c: Ctx<N, K>, x: N, nil: N)
    decreases c
  {
    !c.Top? ==>
      && c.n in m
      && m[c.n] == Cell(if c.InLeft? then x else Ptr(c.sib, nil), if c.InLeft? then Ptr(c.sib, nil) else x,
                        ParentOf(c.up, nil), c.colour, c.key)
      && Holds(m, c.sib, c.n, nil) && HoldsCtx(m, c.up, c.n, nil)
  }

  function RootOf<N, K>(c: Ctx<N, K>, x: N): N
    decreases c
  {
    if c.Top? then x else RootOf(c.up, c.n)
  }

  // The tree Plug(c, t) is in memory m below root, with the focus at t.
  ghost predicate At<N, K>(m: Memory<N, K>, root: N, c: Ctx<N, K>, t: Tree<N, K>, nil: N) {
    match (Ptr(t, nil), ParentOf(c, nil))
    case (x, up) =>
      && nil !in Nodes(t) && nil !in CtxNodes(c)
      && Nodes(t) !! CtxNodes(c)
      && Distinct(t) && CtxDistinct(c)
      && Holds(m, t, up, nil) && HoldsCtx(m, c, x, nil)
      && root == RootOf(c, x)
  }

  lemma {:induction false} HoldsFrame<N, K>(m: Memory<N, K>, m': Memory<N, K>, t: Tree<N, K>, up: N, nil: N)
    requires Holds(m, t, up, nil)
    requires forall n | n in Nodes(t) :: n in m' && (n in m ==> m'[n] == m[n])
    ensures Holds(m', t, up, nil)
  {
    if t.Node? {
      HoldsFrame(m, m', t.left, t.n, nil);
      HoldsFrame(m, m', t.right, t.n, nil);
    }
  }

  lemma {:induction false} HoldsCtxFrame<N, K>(m: Memory<N, K>, m': Memory<N, K>, c: Ctx<N, K>, x: N, nil: N)
    requires HoldsCtx(m, c, x, nil)
    requires forall n | n in CtxNodes(c) :: n in m' && (n in m ==> m'[n] == m[n])
    ensures HoldsCtx(m', c, x, nil)
    decreases c
  {
    if !c.Top? {
      HoldsFrame(m, m', c.sib, c.n, nil);
      HoldsCtxFrame(m, m', c.up, c.n, nil);
    }
  }

  // m' differs from m in the listed nodes only.
  ghost predicate SameElsewhere<N, K>(m: Memory<N, K>, m': Memory<N, K>, changed: set<N>) {
    forall n | n in m && n !in changed :: n in m' && m'[n] == m[n]
  }

  // The hole of c gets pointer y instead of x, everything else of c unchanged.
  ghost predicate Relinked<N, K>(m: Memory<N, K>, m': Memory<N, K>, c: Ctx<N, K>, y: N) {
    match c
    case Top => true
    case InLeft(n, _, _, _, _) => n in m && n in m' && m'[n] == m[n].(left := y)
    case InRight(n, _, _, _, _) => n in m && n in m' && m'[n] == m[n].(right := y)
  }

  // The nodes a change at the focus may touch in the context.
  ghost function Hook<N, K>(c: Ctx<N, K>): set<N> {
    if c.Top? then {} else {c.n}
  }

  lemma {:induction false} RelinkedHolds<N, K>(m: Memory<N, K>, m': Memory<N, K>, c: Ctx<N, K>, x: N, y: N, nil: N,
                                               changed: set<N>)
    requires HoldsCtx(m, c, x, nil) && CtxDistinct(c)
    requires Relinked(m, m', c, y)
    requires SameElsewhere(m, m', changed + Hook(c)) && changed !! CtxNodes(c)
    ensures HoldsCtx(m', c, y, nil)
  {
    if !c.Top? {
      HoldsNodes(m, c.sib, c.n, nil);
      HoldsCtxNodes(m, c.up, c.n, nil);
      HoldsFrame(m, m', c.sib, c.n, nil);
      HoldsCtxFrame(m, m', c.up, c.n, nil);
    }
  }

  lemma {:induction false} HoldsNodes<N, K>(m: Memory<N, K>, t: Tree<N, K>, up: N, nil: N)
    requires Holds(m, t, up, nil)
    ensures Nodes(t) <= m.Keys
  {
    if t.Node? {
      HoldsNodes(m, t.left, t.n, nil);
      HoldsNodes(m, t.right, t.n, nil);
    }
  }

  lemma {:induction false} HoldsCtxNodes<N, K>(m: Memory<N, K>, c: Ctx<N, K>, x: N, nil: N)
    requires HoldsCtx(m, c, x, nil)
    ensures CtxNodes(c) <= m.Keys
    decreases c
  {
    if !c.Top? {
      HoldsNodes(m, c.sib, c.n, nil);
      HoldsCtxNodes(m, c.up, c.n, nil);
    }
  }

  // Giving t's root another parent.
  lemma {:induction false} ReparentHolds<N, K>(m: Memory<N, K>, m': Memory<N, K>, t: Tree<N, K>, up: N, up': N,
                                               nil: N, changed: set<N>)
    requires Holds(m, t, up, nil) && Distinct(t)
    requires t.Node? ==> t.n in m' && m'[t.n] == m[t.n].(up := up')
    requires SameElsewhere(m, m', changed + {Ptr(t, nil)}) && changed !! Nodes(t) && nil !in Nodes(t)
    ensures Holds(m', t, up', nil)
  {
    if t.Node? {
      HoldsNodes(m, t.left, t.n, nil);
      HoldsNodes(m, t.right, t.n, nil);
      HoldsFrame(m, m', t.left, t.n, nil);
      HoldsFrame(m, m', t.right, t.n, nil);
    }
  }

  lemma {:induction false} SubtreeFrame<N, K>(m: Memory<N, K>, m': Memory<N, K>, t: Tree<N, K>, up: N, nil: N,
                                              changed: set<N>)
    requires Holds(m, t, up, nil) && SameElsewhere(m, m', changed) && changed !! Nodes(t)
    ensures Holds(m', t, up, nil)
  {
    HoldsNodes(m, t, up, nil);
    HoldsFrame(m, m', t, up, nil);
  }

  lemma {:induction false} MoveDown<N, K>(m: Memory<N, K>, root: N, c: Ctx<N, K>, t: Tree<N, K>, nil: N)
    requires At(m, root, c, t, nil) && t.Node?
    ensures At(m, root, InLeft(t.n, t.key, t.colour, t.right, c), t.left, nil)
    ensures At(m, root, InRight(t.n, t.key, t.colour, t.left, c), t.right, nil)
  {
  }

  lemma {:induction false} RotateLeftHolds<N, K>(m: Memory<N, K>, m': Memory<N, K>, root: N, c: Ctx<N, K>,
                                                 t: Tree<N, K>, nil: N)
    requires At(m, root, c, t, nil) && t.Node? && t.right.Node?
    requires var (x, y, b) := (t.n, t.right.n, t.right.left);
             && SameElsewhere(m, m', {x, y, Ptr(b, nil)} + Hook(c))
             && x in m && y in m && x in m' && m'[x] == m[x].(right := Ptr(b, nil), up := y)
             && y in m' && m'[y] == m[y].(left := x, up := ParentOf(c, nil))
             && (b.Node? ==> b.n in m && b.n in m' && m'[b.n] == m[b.n].(up := x))
             && Relinked(m, m', c, y)
    ensures At(m', RootOf(c, t.right.n), c, RotateLeft(t), nil)
  {
    var (x, y, a, b, d) := (t.n, t.right.n, t.left, t.right.left, t.right.right);
    assert Nodes(t.right) == Nodes(b) + {y} + Nodes(d);
    assert Nodes(t) == Nodes(a) + {x} + Nodes(t.right);
    assert Holds(m, t.right, x, nil) && Distinct(t.right);
    assert b.Node? ==> b.n in Nodes(b);
    assert {x, y, Ptr(b, nil)} + Hook(c) == {x, y} + Hook(c) + {Ptr(b, nil)};
    SubtreeFrame(m, m', a, x, nil, {x, y, Ptr(b, nil)} + Hook(c));
    SubtreeFrame(m, m', d, y, nil, {x, y, Ptr(b, nil)} + Hook(c));
    ReparentHolds(m, m', b, y, x, nil, {x, y} + Hook(c));
    RelinkedHolds(m, m', c, x, y, nil, {x, y, Ptr(b, nil)});
    var s := Node(a, x, t.key, t.colour, b);
    assert Nodes(s) == Nodes(a) + {x} + Nodes(b);
    assert Holds(m', s, y, nil) && Distinct(s);
    assert RotateLeft(t) == Node(s, y, t.right.key, t.right.colour, d);
    assert Nodes(RotateLeft(t)) == Nodes(t);
  }

  lemma {:induction false} RotateRightHolds<N, K>(m: Memory<N, K>, m': Memory<N, K>, root: N, c: Ctx<N, K>,
                                                  t: Tree<N, K>, nil: N)
    requires At(m, root, c, t, nil) && t.Node? && t.left.Node?
    requires var (y, x, b) := (t.n, t.left.n, t.left.right);
             && SameElsewhere(m, m', {x, y, Ptr(b, nil)} + Hook(c))
             && x in m && y in m && y in m' && m'[y] == m[y].(left := Ptr(b, nil), up := x)
             && x in m' && m'[x] == m[x].(right := y, up := ParentOf(c, nil))
             && (b.Node? ==> b.n in m && b.n in m' && m'[b.n] == m[b.n].(up := y))
             && Relinked(m, m', c, x)
    ensures At(m', RootOf(c, t.left.n), c, RotateRight(t), nil)
  {
    var (y, x, a, b, d) := (t.n, t.left.n, t.left.left, t.left.right, t.right);
    assert Nodes(t.left) == Nodes(a) + {x} + Nodes(b);
    assert Nodes(t) == Nodes(t.left) + {y} + Nodes(d);
    assert Holds(m, t.left, y, nil) && Distinct(t.left);
    assert b.Node? ==> b.n in Nodes(b);
    assert {x, y, Ptr(b, nil)} + Hook(c) == {x, y} + Hook(c) + {Ptr(b, nil)};
    SubtreeFrame(m, m', a, x, nil, {x, y, Ptr(b, nil)} + Hook(c));
    SubtreeFrame(m, m', d, y, nil, {x, y, Ptr(b, nil)} + Hook(c));
    ReparentHolds(m, m', b, x, y, nil, {x, y} + Hook(c));
    RelinkedHolds(m, m', c, y, x, nil, {x, y, Ptr(b, nil)});
    var s := Node(b, y, t.key, t.colour, d);
    assert Nodes(s) == Nodes(b) + {y} + Nodes(d);
    assert Holds(m', s, x, nil) && Distinct(s);
    assert RotateRight(t) == Node(a, x, t.left.key, t.left.colour, s);
    assert Nodes(RotateRight(t)) == Nodes(t);
  }

  lemma {:induction false} PaintHolds<N, K>(m: Memory<N, K>, root: N, c: Ctx<N, K>, t: Tree<N, K>, nil: N, col: Colour)
    requires At(m, root, c, t, nil) && t.Node?
    ensures t.n in m && At(m[t.n := m[t.n].(colour := col)], root, c, Paint(t, col), nil)
  {
    var m' := m[t.n := m[t.n].(colour := col)];
    SubtreeFrame(m, m', t.left, t.n, nil, {t.n});
    SubtreeFrame(m, m', t.right, t.n, nil, {t.n});
    HoldsCtxNodes(m, c, t.n, nil);
    HoldsCtxFrame(m, m', c, t.n, nil);
  }

  // Hanging a new node into the empty hole of c.
  lemma {:induction false} AttachHolds<N, K>(m: Memory<N, K>, m': Memory<N, K>, root: N, c: Ctx<N, K>, nil: N, z: N,
                                             k: K)
    requires At(m, root, c, Leaf, nil) && z !in m && z != nil
    requires z in m' && m'[z] == Cell(nil, nil, ParentOf(c, nil), Red, k)
    requires Relinked(m, m', c, z) && SameElsewhere(m, m', Hook(c))
    ensures At(m', RootOf(c, z), c, Node(Leaf, z, k, Red, Leaf), nil)
  {
    HoldsCtxNodes(m, c, nil, nil);
    RelinkedHolds(m, m', c, nil, z, nil, {});
  }

  lemma {:induction false} SpliceHolds<N, K>(m: Memory<N, K>, m': Memory<N, K>, root: N, c: Ctx<N, K>, t: Tree<N, K>,
                                             nil: N)
    requires At(m, root, c, t, nil) && t.Node? && (t.left.Leaf? || t.right.Leaf?)
    requires var x := OnlyChild(t);
             && SameElsewhere(m, m', {t.n, Ptr(x, nil)} + Hook(c))
             && (x.Node? ==> x.n in m && x.n in m' && m'[x.n] == m[x.n].(up := ParentOf(c, nil)))
             && Relinked(m, m', c, Ptr(x, nil))
    ensures At(m', RootOf(c, Ptr(OnlyChild(t), nil)), c, OnlyChild(t), nil)
  {
    var x := OnlyChild(t);
    assert x.Node? ==> x.n in Nodes(x);
    assert {t.n, Ptr(x, nil)} + Hook(c) == {t.n} + Hook(c) + {Ptr(x, nil)};
    ReparentHolds(m, m', x, t.n, ParentOf(c, nil), nil, {t.n} + Hook(c));
    RelinkedHolds(m, m', c, t.n, Ptr(x, nil), nil, {t.n, Ptr(x, nil)});
  }

  lemma {:induction false} AttachedHolds<N, K>(m0: Memory<N, K>, m1: Memory<N, K>, m2: Memory<N, K>, root: N,
                                               c: Ctx<N, K>, nil: N, z: N, k: K)
    requires At(m0, root, c, Leaf, nil) && nil !in m0 && z !in m0 && z != nil
    requires m1 == m0[z := Cell(nil, nil, ParentOf(c, nil), Red, k)]
    requires c.Top? || (c.n in m1 && m2 == m1[c.n := if c.InLeft? then m1[c.n].(left := z) else m1[c.n].(right := z)])
    requires c.Top? ==> m2 == m1
    ensures At(m2, if ParentOf(c, nil) == nil then z else root, c, Node(Leaf, z, k, Red, Leaf), nil)
    ensures m2.Keys == m0.Keys + {z}
  {
    FocusNode(m0, root, c, Leaf, nil);
    AttachHolds(m0, m2, root, c, nil, z, k);
  }

  ghost predicate OnPath<N, K>(c: Ctx<N, K>, z: N)
    decreases c
  {
    !c.Top? && (c.n == z || OnPath(c.up, z))
  }

  lemma {:induction false} SpineOnPath<N, K>(c: Ctx<N, K>, d: Ctx<N, K>, z: N)
    requires LeftSpine(c, d, z) && !d.Top? && d.n == z
    ensures OnPath(c, z)
    decreases c
  {
    if c != d {
      SpineOnPath(c.up, d, z);
    }
  }

  lemma {:induction false} OnPathInCtx<N, K>(c: Ctx<N, K>, z: N)
    requires OnPath(c, z)
    ensures z in CtxNodes(c)
    decreases c
  {
    if c.n != z {
      OnPathInCtx(c.up, z);
    }
  }

  lemma {:induction false} ReKeyHolds<N, K>(m: Memory<N, K>, m': Memory<N, K>, c: Ctx<N, K>, x: N, nil: N, z: N, k: K)
    requires HoldsCtx(m, c, x, nil) && CtxDistinct(c) && OnPath(c, z)
    requires z in m && m' == m[z := m[z].(key := k)]
    ensures HoldsCtx(m', ReKey(c, z, k), x, nil) && CtxDistinct(ReKey(c, z, k))
    ensures CtxNodes(ReKey(c, z, k)) == CtxNodes(c) && RootOf(ReKey(c, z, k), x) == RootOf(c, x)
    ensures ParentOf(ReKey(c, z, k), nil) == ParentOf(c, nil)
    decreases c
  {
    HoldsNodes(m, c.sib, c.n, nil);
    HoldsCtxNodes(m, c.up, c.n, nil);
    if c.n == z {
      HoldsFrame(m, m', c.sib, c.n, nil);
      HoldsCtxFrame(m, m', c.up, c.n, nil);
    } else {
      OnPathInCtx(c.up, z);
      HoldsFrame(m, m', c.sib, c.n, nil);
      ReKeyHolds(m, m', c.up, c.n, nil, z, k);
    }
  }

  // Pointer y takes x's place below x's parent p, or at the root.
  ghost function Relink<N, K>(m: Memory<N, K>, x: N, y: N, p: N, nil: N): Memory<N, K>
    requires p == nil || p in m
  {
    if p == nil then m
    else if x == m[p].left then m[p := m[p].(left := y)]
    else m[p := m[p].(right := y)]
  }

  // b comes below x, and y below p.
  ghost function Adopt<N, K>(m: Memory<N, K>, x: N, y: N, b: N, p: N, nil: N): Memory<N, K>
    requires y in m && (b == nil || b in m)
  {
    var m' := if b != nil then m[b := m[b].(up := x)] else m;
    m'[y := m'[y].(up := p)]
  }

  // The assignments of a rotation that lifts y above its parent x (y being the
  // right child when left is set), one memory after another.
  ghost predicate RotationSteps<N, K>(left: bool, m0: Memory<N, K>, m1: Memory<N, K>, m2: Memory<N, K>,
                                      m3: Memory<N, K>, m4: Memory<N, K>, m5: Memory<N, K>,
                                      x: N, y: N, b: N, p: N, nil: N)
  {
    && x in m0 && m1 == m0[x := if left then m0[x].(right := b) else m0[x].(left := b)]
    && y in m1 && (b == nil || b in m1) && m2 == Adopt(m1, x, y, b, p, nil)
    && (p == nil || p in m2) && m3 == Relink(m2, x, y, p, nil)
    && y in m3 && m4 == m3[y := if left then m3[y].(left := x) else m3[y].(right := x)]
    && x in m4 && m5 == m4[x := m4[x].(up := y)]
  }

  // What the assignments come to.
  ghost predicate Rotated<N, K>(left: bool, m0: Memory<N, K>, m5: Memory<N, K>, x: N, y: N, b: N, p: N, nil: N) {
    && m5.Keys == m0.Keys && x in m0 && y in m0
    && m5[x] == (if left then m0[x].(right := b, up := y) else m0[x].(left := b, up := y))
    && m5[y] == (if left then m0[y].(left := x, up := p) else m0[y].(right := x, up := p))
    && (b != nil ==> b in m0 && m5[b] == m0[b].(up := x))
    && (p != nil ==> p in m0 && m5[p] == if x == m0[p].left then m0[p].(left := y) else m0[p].(right := y))
    && SameElsewhere(m0, m5, {x, y, b, p})
  }

  // The nodes of a rotation are different ones.
  ghost predicate Apart<N, K>(m: Memory<N, K>, x: N, y: N, b: N, p: N, nil: N) {
    && nil !in m && x in m && y in m && (b == nil || b in m) && (p == nil || p in m)
    && x != y && x != b && y != b && x != p && y != p && (b == p ==> b == nil)
  }

  lemma {:induction false} StepsRotate<N, K>(left: bool, m0: Memory<N, K>, m1: Memory<N, K>, m2: Memory<N, K>,
                                             m3: Memory<N, K>, m4: Memory<N, K>, m5: Memory<N, K>,
                                             x: N, y: N, b: N, p: N, nil: N)
    requires Apart(m0, x, y, b, p, nil) && RotationSteps(left, m0, m1, m2, m3, m4, m5, x, y, b, p, nil)
    ensures Rotated(left, m0, m5, x, y, b, p, nil)
  {
  }

  lemma {:induction false} LeftApart<N, K>(m0: Memory<N, K>, root: N, c: Ctx<N, K>, t: Tree<N, K>, nil: N)
    requires At(m0, root, c, t, nil) && t.Node? && t.right.Node? && nil !in m0
    ensures Apart(m0, t.n, t.right.n, Ptr(t.right.left, nil), ParentOf(c, nil), nil)
    ensures t.right.left.Node? ==> t.right.left.n != nil
  {
    FocusNode(m0, root, c, t, nil);
    var c1 := InRight(t.n, t.key, t.colour, t.left, c);
    MoveDown(m0, root, c, t, nil);
    FocusNode(m0, root, c1, t.right, nil);
    if t.right.left.Node? {
      MoveDown(m0, root, c1, t.right, nil);
      FocusNode(m0, root, InLeft(t.right.n, t.right.key, t.right.colour, t.right.right, c1), t.right.left, nil);
    }
  }

  lemma {:induction false} LeftRotated<N, K>(m0: Memory<N, K>, m5: Memory<N, K>, root: N, c: Ctx<N, K>, t: Tree<N, K>,
                                            nil: N)
    requires At(m0, root, c, t, nil) && t.Node? && t.right.Node? && nil !in m0
    requires Rotated(true, m0, m5, t.n, t.right.n, Ptr(t.right.left, nil), ParentOf(c, nil), nil)
    ensures At(m5, if ParentOf(c, nil) == nil then t.right.n else root, c, RotateLeft(t), nil)
  {
    FocusNode(m0, root, c, t, nil);
    LeftApart(m0, root, c, t, nil);
    RotateLeftHolds(m0, m5, root, c, t, nil);
  }

  lemma {:induction false} LeftRotationHolds<N, K>(m0: Memory<N, K>, m1: Memory<N, K>, m2: Memory<N, K>,
                                m3: Memory<N, K>, m4: Memory<N, K>, m5: Memory<N, K>,
                                root: N, c: Ctx<N, K>, t: Tree<N, K>, nil: N)
    requires At(m0, root, c, t, nil) && t.Node? && t.right.Node? && nil !in m0
    requires RotationSteps(true, m0, m1, m2, m3, m4, m5, t.n, t.right.n, Ptr(t.right.left, nil), ParentOf(c, nil), nil)
    ensures At(m5, if ParentOf(c, nil) == nil then t.right.n else root, c, RotateLeft(t), nil)
    ensures m5.Keys == m0.Keys
  {
    LeftApart(m0, root, c, t, nil);
    StepsRotate(true, m0, m1, m2, m3, m4, m5, t.n, t.right.n, Ptr(t.right.left, nil), ParentOf(c, nil), nil);
    LeftRotated(m0, m5, root, c, t, nil);
  }

  lemma {:induction false} RightApart<N, K>(m0: Memory<N, K>, root: N, c: Ctx<N, K>, t: Tree<N, K>, nil: N)
    requires At(m0, root, c, t, nil) && t.Node? && t.left.Node? && nil !in m0
    ensures Apart(m0, t.n, t.left.n, Ptr(t.left.right, nil), ParentOf(c, nil), nil)
    ensures t.left.right.Node? ==> t.left.right.n != nil
  {
    FocusNode(m0, root, c, t, nil);
    var c1 := InLeft(t.n, t.key, t.colour, t.right, c);
    MoveDown(m0, root, c, t, nil);
    FocusNode(m0, root, c1, t.left, nil);
    if t.left.right.Node? {
      MoveDown(m0, root, c1, t.left, nil);
      FocusNode(m0, root, InRight(t.left.n, t.left.key, t.left.colour, t.left.left, c1), t.left.right, nil);
    }
  }

  lemma {:induction false} RightRotated<N, K>(m0: Memory<N, K>, m5: Memory<N, K>, root: N, c: Ctx<N, K>, t: Tree<N, K>,
                                             nil: N)
    requires At(m0, root, c, t, nil) && t.Node? && t.left.Node? && nil !in m0
    requires Rotated(false, m0, m5, t.n, t.left.n, Ptr(t.left.right, nil), ParentOf(c, nil), nil)
    ensures At(m5, if ParentOf(c, nil) == nil then t.left.n else root, c, RotateRight(t), nil)
  {
    FocusNode(m0, root, c, t, nil);
    RightApart(m0, root, c, t, nil);
    RotateRightHolds(m0, m5, root, c, t, nil);
  }

  lemma {:induction false} RightRotationHolds<N, K>(m0: Memory<N, K>, m1: Memory<N, K>, m2: Memory<N, K>,
                                 m3: Memory<N, K>, m4: Memory<N, K>, m5: Memory<N, K>,
                                 root: N, c: Ctx<N, K>, t: Tree<N, K>, nil: N)
    requires At(m0, root, c, t, nil) && t.Node? && t.left.Node? && nil !in m0
    requires RotationSteps(false, m0, m1, m2, m3, m4, m5, t.n, t.left.n, Ptr(t.left.right, nil), ParentOf(c, nil), nil)
    ensures At(m5, if ParentOf(c, nil) == nil then t.left.n else root, c, RotateRight(t), nil)
    ensures m5.Keys == m0.Keys
  {
    RightApart(m0, root, c, t, nil);
    StepsRotate(false, m0, m1, m2, m3, m4, m5, t.n, t.left.n, Ptr(t.left.right, nil), ParentOf(c, nil), nil);
    RightRotated(m0, m5, root, c, t, nil);
  }

  // The cell at the focus, and the pointer to it.
  lemma {:induction false} FocusNode<N, K>(m: Memory<N, K>, root: N, c: Ctx<N, K>, t: Tree<N, K>, nil: N)
    requires At(m, root, c, t, nil)
    ensures t.Node? ==>
              && t.n in m && m[t.n] == Cell(Ptr(t.left, nil), Ptr(t.right, nil), ParentOf(c, nil), t.colour, t.key)
              && t.n != nil && t.n !in CtxNodes(c)
    ensures c.Top? ==> root == Ptr(t, nil)
    ensures !c.Top? ==>
              && c.n in m && c.n != nil && c.n !in Nodes(t) && root != Ptr(t, nil)
              && m[c.n].colour == c.colour
              && (t.Node? ==> (m[c.n].left == t.n <==> c.InLeft?))
  {
    if !c.Top? {
      if c.sib.Node? {
        assert c.sib.n in Nodes(c.sib);
      }
      RootInCtx(c, Ptr(t, nil));
    }
  }

  lemma {:induction false} RootInCtx<N, K>(c: Ctx<N, K>, x: N)
    requires !c.Top?
    ensures RootOf(c, x) in CtxNodes(c)
    decreases c
  {
    if !c.up.Top? {
      RootInCtx(c.up, c.n);
    }
  }

  // The focus moved from a subtree to its sibling.
  function SibCtx<N, K>(c: Ctx<N, K>, t: Tree<N, K>): Ctx<N, K>
    requires !c.Top?
  {
    if c.InLeft? then InRight(c.n, c.key, c.colour, t, c.up) else InLeft(c.n, c.key, c.colour, t, c.up)
  }

  // Memory after a node y with at most one child x is taken out and freed.
  lemma {:induction false} SplicedHolds<N, K>(m0: Memory<N, K>, m1: Memory<N, K>, m2: Memory<N, K>,
                           root: N, c: Ctx<N, K>, t: Tree<N, K>, nil: N)
    requires At(m0, root, c, t, nil) && nil !in m0 && t.Node? && (t.left.Leaf? || t.right.Leaf?)
    requires var (x, p) := (Ptr(OnlyChild(t), nil), ParentOf(c, nil));
             && (x == nil || x in m0) && m1 == (if x == nil then m0 else m0[x := m0[x].(up := p)])
             && (p == nil || p in m1) && m2 == Relink(m1, t.n, x, p, nil)
    ensures var (x, p) := (Ptr(OnlyChild(t), nil), ParentOf(c, nil));
            At(m2 - {t.n}, if p == nil then x else root, c, OnlyChild(t), nil)
    ensures m2.Keys == m0.Keys && t.n in m0
  {
    FocusNode(m0, root, c, t, nil);
    MoveDown(m0, root, c, t, nil);
    FocusNode(m0, root, InLeft(t.n, t.key, t.colour, t.right, c), t.left, nil);
    FocusNode(m0, root, InRight(t.n, t.key, t.colour, t.left, c), t.right, nil);
    SpliceHolds(m0, m2 - {t.n}, root, c, t, nil);
  }
}
