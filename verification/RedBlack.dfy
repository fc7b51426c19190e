// redblack.c: nodes with parent pointers and a shared sentinel, rewritten in place.
module RedBlack {
  import opened Orders
  import opened RbTrees
  import opened RbLayout
  import opened RbOrder

  class RbNode<K> {
    var left: RbNode<K>
    var right: RbNode<K>
    var up: RbNode<K>
    var colour: Colour
    var key: K

    // rb_null: black and its own neighbour. Its key is never read.
    constructor Sentinel(k: K)
      ensures colour == Black && left == right == up == this
    {
      left := this;
      right := this;
      up := this;
      colour := Black;
      key := k;
    }

    constructor Alloc(k: K, parent: RbNode<K>, nil: RbNode<K>)
      ensures key == k && up == parent && left == nil && right == nil && colour == Red
    {
      key := k;
      up := parent;
      left := nil;
      right := nil;
      colour := Red;
    }
  }

  type NTree<K> = Tree<RbNode<K>, K>
  type NCtx<K> = Ctx<RbNode<K>, K>

  class RbTree<K(!new)> {
    const cmp: (K, K) -> int
    const nil: RbNode<K>
    var root: RbNode<K>

    // A picture of the node fields, kept equal to them by every method.
    ghost var mem: Memory<RbNode<K>, K>

    // The tree the nodes form.
    ghost var tree: NTree<K>

    // rbinit
    constructor (cmp: (K, K) -> int, nil: RbNode<K>)
      requires TotalPreorder(cmp) && nil.colour == Black
      ensures this.cmp == cmp && this.nil == nil
      ensures Valid() && Contents() == [] && mem == map[]
    {
      this.cmp := cmp;
      this.nil := nil;
      root := nil;
      mem := map[];
      tree := Leaf;
    }

    // Search order, no red node with a red child, equal black counts, a black
    // root, and every pointer (up pointers too) as the tree says.
    ghost predicate Valid()
      reads this, nil, mem.Keys
    {
      && TotalPreorder(cmp)
      && Focus(Top, tree) && IsRedBlackTree(tree) && Sorted(cmp, Keys(tree))
    }

    ghost function Contents(): seq<K>
      reads this
    {
      Keys(tree)
    }

    ghost predicate Pictured()
      reads this, nil, mem.Keys
    {
      && nil !in mem && nil.colour == Black
      && forall n | n in mem :: mem[n] == Cell(n.left, n.right, n.up, n.colour, n.key)
    }

    // The focus (c, t) is laid out in memory.
    ghost predicate Focus(c: NCtx<K>, t: NTree<K>)
      reads this, nil, mem.Keys
    {
      Pictured() && At(mem, root, c, t, nil)
    }

    // Assignments to node fields, with the picture kept up to date.

    method SetLeft(x: RbNode<K>, y: RbNode<K>)
      requires Pictured() && x in mem
      modifies x`left, this`mem
      ensures Pictured() && mem == old(mem)[x := old(mem[x]).(left := y)] && root == old(root)
    {
      x.left := y;
      mem := mem[x := mem[x].(left := y)];
    }

    method SetRight(x: RbNode<K>, y: RbNode<K>)
      requires Pictured() && x in mem
      modifies x`right, this`mem
      ensures Pictured() && mem == old(mem)[x := old(mem[x]).(right := y)] && root == old(root)
    {
      x.right := y;
      mem := mem[x := mem[x].(right := y)];
    }

    method SetUp(x: RbNode<K>, y: RbNode<K>)
      requires Pictured() && x in mem
      modifies x`up, this`mem
      ensures Pictured() && mem == old(mem)[x := old(mem[x]).(up := y)] && root == old(root)
    {
      x.up := y;
      mem := mem[x := mem[x].(up := y)];
    }

    method SetColour(x: RbNode<K>, col: Colour)
      requires Pictured() && x in mem
      modifies x`colour, this`mem
      ensures Pictured() && mem == old(mem)[x := old(mem[x]).(colour := col)] && root == old(root)
    {
      x.colour := col;
      mem := mem[x := mem[x].(colour := col)];
    }

    method SetKey(x: RbNode<K>, k: K)
      requires Pictured() && x in mem
      modifies x`key, this`mem
      ensures Pictured() && mem == old(mem)[x := old(mem[x]).(key := k)] && root == old(root)
    {
      x.key := k;
      mem := mem[x := mem[x].(key := k)];
    }

    // Gives pointer y the place of x below x's parent p, or at the root.
    method Replace(x: RbNode<K>, y: RbNode<K>, p: RbNode<K>)
      requires Pictured() && Known(p)
      modifies this`root, this`mem, if p == nil then {} else {p}
      ensures Pictured() && mem == Relink(old(mem), x, y, p, nil) && mem.Keys == old(mem.Keys)
      ensures root == if p == nil then y else old(root)
    {
      if p == nil {
        root := y;
      } else if x == p.left {
        SetLeft(p, y);
      } else {
        SetRight(p, y);
      }
    }

    method HandOver(x: RbNode<K>, y: RbNode<K>, b: RbNode<K>, p: RbNode<K>)
      requires Pictured() && y in mem && Known(b)
      modifies this`mem, y, if b == nil then {} else {b}
      ensures Pictured() && mem == Adopt(old(mem), x, y, b, p, nil) && mem.Keys == old(mem.Keys)
      ensures root == old(root)
    {
      if b != nil {
        SetUp(b, x);
      }
      SetUp(y, p);
    }

    // rb_left_rotate
    method LeftRotate(x: RbNode<K>, ghost c: NCtx<K>, ghost t: NTree<K>)
      requires Focus(c, t) && t.Node? && t.right.Node? && x == t.n
      modifies this`root, this`mem, mem.Keys
      ensures Focus(c, RotateLeft(t)) && mem.Keys == old(mem.Keys)
    {
      Children(c, t);
      ghost var m0 := mem;
      var y, p := x.right, x.up;
      var b := y.left;
      SetRight(x, b);
      ghost var m1 := mem;
      HandOver(x, y, b, p);
      ghost var m2 := mem;
      Replace(x, y, p);
      ghost var m3 := mem;
      SetLeft(y, x);
      ghost var m4 := mem;
      SetUp(x, y);
      LeftRotationHolds(m0, m1, m2, m3, m4, mem, old(root), c, t, nil);
    }

    // rb_right_rotate
    method RightRotate(x: RbNode<K>, ghost c: NCtx<K>, ghost t: NTree<K>)
      requires Focus(c, t) && t.Node? && t.left.Node? && x == t.n
      modifies this`root, this`mem, mem.Keys
      ensures Focus(c, RotateRight(t)) && mem.Keys == old(mem.Keys)
    {
      Children(c, t);
      ghost var m0 := mem;
      var y, p := x.left, x.up;
      var b := y.right;
      SetLeft(x, b);
      ghost var m1 := mem;
      HandOver(x, y, b, p);
      ghost var m2 := mem;
      Replace(x, y, p);
      ghost var m3 := mem;
      SetRight(y, x);
      ghost var m4 := mem;
      SetUp(x, y);
      RightRotationHolds(m0, m1, m2, m3, m4, mem, old(root), c, t, nil);
    }

    // Pointers read at the focus.
    lemma {:induction false} FocusFields(c: NCtx<K>, t: NTree<K>)
      requires Focus(c, t)
      ensures t.Node? ==>
                && t.n in mem && t.n != nil && t.n.left == Ptr(t.left, nil) && t.n.right == Ptr(t.right, nil)
                && t.n.up == ParentOf(c, nil) && t.n.colour == t.colour && t.n.key == t.key
      ensures !c.Top? ==> c.n in mem && c.n != nil && c.n.colour == c.colour && root != Ptr(t, nil)
      ensures c.Top? ==> root == Ptr(t, nil)
      ensures !c.Top? && t.Node? ==> (t.n == c.n.left <==> c.InLeft?)
      ensures Ptr(t, nil).colour == ColourOf(t)
    {
      FocusNode(mem, root, c, t, nil);
    }

    lemma {:induction false} Children(c: NCtx<K>, t: NTree<K>)
      requires Focus(c, t) && t.Node?
      ensures t.n in mem && t.n.left == Ptr(t.left, nil) && t.n.right == Ptr(t.right, nil) && t.n.up == ParentOf(c, nil)
      ensures c.Top? || c.n in mem
      ensures t.right.Node? ==>
                t.right.n in mem && t.right.n.left == Ptr(t.right.left, nil) && Known(Ptr(t.right.left, nil))
      ensures t.left.Node? ==>
                t.left.n in mem && t.left.n.right == Ptr(t.left.right, nil) && Known(Ptr(t.left.right, nil))
    {
      FocusFields(c, t);
      MoveDown(mem, root, c, t, nil);
      var c1 := InRight(t.n, t.key, t.colour, t.left, c);
      FocusFields(c1, t.right);
      if t.right.Node? {
        MoveDown(mem, root, c1, t.right, nil);
        FocusFields(InLeft(t.right.n, t.right.key, t.right.colour, t.right.right, c1), t.right.left);
      }
      var c2 := InLeft(t.n, t.key, t.colour, t.right, c);
      FocusFields(c2, t.left);
      if t.left.Node? {
        MoveDown(mem, root, c2, t.left, nil);
        FocusFields(InRight(t.left.n, t.left.key, t.left.colour, t.left.left, c2), t.left.right);
      }
    }

    ghost predicate Known(x: RbNode<K>)
      reads this
    {
      x == nil || x in mem
    }

    lemma {:induction false} Up(c: NCtx<K>, t: NTree<K>)
      requires Focus(c, t) && !c.Top?
      ensures Focus(c.up, FillOne(c, t))
    {
    }

    lemma {:induction false} Down(c: NCtx<K>, t: NTree<K>)
      requires Focus(c, t) && t.Node?
      ensures Focus(InLeft(t.n, t.key, t.colour, t.right, c), t.left)
      ensures Focus(InRight(t.n, t.key, t.colour, t.left, c), t.right)
    {
    }

    lemma {:induction false} Across(c: NCtx<K>, t: NTree<K>)
      requires Focus(c, t) && !c.Top?
      ensures Focus(SibCtx(c, t), c.sib)
    {
    }

    method PaintNode(x: RbNode<K>, col: Colour, ghost c: NCtx<K>, ghost t: NTree<K>)
      requires Focus(c, t) && t.Node? && x == t.n
      modifies this`mem, x`colour
      ensures Focus(c, Paint(t, col)) && root == old(root) && mem.Keys == old(mem.Keys)
    {
      FocusFields(c, t);
      PaintHolds(mem, root, c, t, nil, col);
      SetColour(x, col);
    }

    method PaintParent(p: RbNode<K>, col: Colour, ghost c: NCtx<K>, ghost t: NTree<K>)
      requires Focus(c, t) && !c.Top? && p == c.n
      modifies this`mem, p`colour
      ensures Focus(c.(colour := col), t) && root == old(root) && mem.Keys == old(mem.Keys)
    {
      Up(c, t);
      PaintNode(p, col, c.up, FillOne(c, t));
      Down(c.up, Paint(FillOne(c, t), col));
    }

    method PaintSibling(w: RbNode<K>, col: Colour, ghost c: NCtx<K>, ghost t: NTree<K>)
      requires Focus(c, t) && !c.Top? && c.sib.Node? && w == c.sib.n
      modifies this`mem, w`colour
      ensures Focus(c.(sib := Paint(c.sib, col)), t) && root == old(root) && mem.Keys == old(mem.Keys)
    {
      Across(c, t);
      PaintNode(w, col, SibCtx(c, t), c.sib);
      Across(SibCtx(c, t), Paint(c.sib, col));
    }

    // The pointers the insertion loop follows from x.
    lemma {:induction false} Family(c: NCtx<K>, t: NTree<K>)
      requires Focus(c, t) && t.Node? && !c.Top? && !c.up.Top?
      ensures t.n.up == c.n && c.n in mem && c.n.up == c.up.n && c.up.n in mem
      ensures (t.n == c.n.left <==> c.InLeft?) && (c.n == c.up.n.left <==> c.up.InLeft?)
      ensures c.up.n.left == (if c.up.InLeft? then c.n else Ptr(c.up.sib, nil))
      ensures c.up.n.right == (if c.up.InLeft? then Ptr(c.up.sib, nil) else c.n)
      ensures Ptr(c.up.sib, nil).colour == ColourOf(c.up.sib)
      ensures Focus(c.up, FillOne(c, t))
    {
      FocusFields(c, t);
      Up(c, t);
      FocusFields(c.up, FillOne(c, t));
      Up(c.up, FillOne(c, t));
      FocusFields(c.up.up, FillTwo(c, t));
      Across(c.up, FillOne(c, t));
      FocusFields(SibCtx(c.up, FillOne(c, t)), c.up.sib);
    }

    // Red uncle: the blackness of the grandparent moves one level down.
    method PushBlackDown(p: RbNode<K>, y: RbNode<K>, g: RbNode<K>, ghost c: NCtx<K>, ghost t: NTree<K>)
      returns (ghost c': NCtx<K>, ghost t': NTree<K>)
      requires Focus(c, t) && t.Node? && !c.Top? && !c.up.Top?
      requires p == c.n && g == c.up.n && y == Ptr(c.up.sib, nil) && ColourOf(c.up.sib) == Red
      modifies this`mem, mem.Keys
      ensures (c', t') == InsertStep(c, t) && Focus(c', t') && t'.n == g
      ensures root == old(root) && mem.Keys == old(mem.Keys)
    {
      PaintParent(p, Black, c, t);
      ghost var c1 := c.(colour := Black);
      Up(c1, t);
      PaintSibling(y, Black, c.up, FillOne(c1, t));
      ghost var g1 := c.up.(sib := Paint(c.up.sib, Black));
      PaintParent(g, Red, g1, FillOne(c1, t));
      ghost var g2 := g1.(colour := Red);
      Up(g2, FillOne(c1, t));
      c', t' := g2.up, FillOne(g2, FillOne(c1, t));
    }

    // The last rotation of a repair: the outer parent p comes above g.
    method SettleLeft(p: RbNode<K>, g: RbNode<K>, ghost c: NCtx<K>, ghost t: NTree<K>)
      requires Focus(c, t) && t.Node? && c.InLeft? && c.up.InLeft? && p == c.n && g == c.up.n
      modifies this`root, this`mem, mem.Keys
      ensures mem.Keys == old(mem.Keys)
      ensures Focus(InLeft(c.n, c.key, Black, Node(c.sib, c.up.n, c.up.key, Red, c.up.sib), c.up.up), t)
    {
      Family(c, t);
      PaintParent(p, Black, c, t);
      ghost var s := Node(t, c.n, c.key, Black, c.sib);
      Up(InLeft(c.n, c.key, Black, c.sib, c.up), t);
      PaintParent(g, Red, c.up, s);
      Up(InLeft(c.up.n, c.up.key, Red, c.up.sib, c.up.up), s);
      RightRotate(g, c.up.up, Node(s, c.up.n, c.up.key, Red, c.up.sib));
      Down(c.up.up, RotateRight(Node(s, c.up.n, c.up.key, Red, c.up.sib)));
    }

    method SettleRight(p: RbNode<K>, g: RbNode<K>, ghost c: NCtx<K>, ghost t: NTree<K>)
      requires Focus(c, t) && t.Node? && c.InRight? && c.up.InRight? && p == c.n && g == c.up.n
      modifies this`root, this`mem, mem.Keys
      ensures mem.Keys == old(mem.Keys)
      ensures Focus(InRight(c.n, c.key, Black, Node(c.up.sib, c.up.n, c.up.key, Red, c.sib), c.up.up), t)
    {
      Family(c, t);
      PaintParent(p, Black, c, t);
      ghost var s := Node(c.sib, c.n, c.key, Black, t);
      Up(InRight(c.n, c.key, Black, c.sib, c.up), t);
      PaintParent(g, Red, c.up, s);
      Up(InRight(c.up.n, c.up.key, Red, c.up.sib, c.up.up), s);
      LeftRotate(g, c.up.up, Node(c.up.sib, c.up.n, c.up.key, Red, s));
      Down(c.up.up, RotateLeft(Node(c.up.sib, c.up.n, c.up.key, Red, s)));
    }

    // An inner grandchild: the first rotation makes its parent the outer one.
    method TurnLeft(x0: RbNode<K>, ghost c: NCtx<K>, ghost t: NTree<K>)
      returns (x: RbNode<K>, ghost c1: NCtx<K>, ghost t1: NTree<K>)
      requires Focus(c, t) && t.Node? && c.InRight? && c.up.InLeft? && x0.up == c.n
      modifies this`root, this`mem, mem.Keys
      ensures c1 == InLeft(t.n, t.key, t.colour, t.right, c.up) && t1 == Node(c.sib, c.n, c.key, c.colour, t.left)
      ensures !c1.Top? && !c1.up.Top?
      ensures Focus(c1, t1) && x == t1.n && x.up == c1.n && x.up.up == c1.up.n && mem.Keys == old(mem.Keys)
    {
      x := x0.up;
      LeftRotate(x, c.up, FillOne(c, t));
      Down(c.up, RotateLeft(FillOne(c, t)));
      c1 := InLeft(t.n, t.key, t.colour, t.right, c.up);
      t1 := Node(c.sib, c.n, c.key, c.colour, t.left);
      assert Focus(c1, t1);
      Family(c1, t1);
    }

    method TurnRight(x0: RbNode<K>, ghost c: NCtx<K>, ghost t: NTree<K>)
      returns (x: RbNode<K>, ghost c1: NCtx<K>, ghost t1: NTree<K>)
      requires Focus(c, t) && t.Node? && c.InLeft? && c.up.InRight? && x0.up == c.n
      modifies this`root, this`mem, mem.Keys
      ensures c1 == InRight(t.n, t.key, t.colour, t.left, c.up) && t1 == Node(t.right, c.n, c.key, c.colour, c.sib)
      ensures !c1.Top? && !c1.up.Top?
      ensures Focus(c1, t1) && x == t1.n && x.up == c1.n && x.up.up == c1.up.n && mem.Keys == old(mem.Keys)
    {
      x := x0.up;
      RightRotate(x, c.up, FillOne(c, t));
      Down(c.up, RotateRight(FillOne(c, t)));
      c1 := InRight(t.n, t.key, t.colour, t.left, c.up);
      t1 := Node(t.right, c.n, c.key, c.colour, c.sib);
      assert Focus(c1, t1);
      Family(c1, t1);
    }

    // Black uncle on the right: at most two rotations settle the clash.
    method LiftFromLeft(x0: RbNode<K>, ghost c: NCtx<K>, ghost t: NTree<K>)
      returns (x: RbNode<K>, ghost c': NCtx<K>, ghost t': NTree<K>)
      requires Focus(c, t) && t.Node? && x0 == t.n && !c.Top? && c.up.InLeft? && ColourOf(c.up.sib) == Black
      modifies this`root, this`mem, mem.Keys
      ensures (c', t') == InsertStep(c, t) && Focus(c', t') && x == t'.n && mem.Keys == old(mem.Keys)
    {
      Family(c, t);
      ghost var c1, t1 := c, t;
      x := x0;
      if x0 == x0.up.right {
        x, c1, t1 := TurnLeft(x0, c, t);
      }
      c', t' := InLeft(c1.n, c1.key, Black, Node(c1.sib, c.up.n, c.up.key, Red, c.up.sib), c.up.up), t1;
      assert (c', t') == InsertStep(c, t);
      SettleLeft(x.up, x.up.up, c1, t1);
    }

    // Black uncle on the left.
    method LiftFromRight(x0: RbNode<K>, ghost c: NCtx<K>, ghost t: NTree<K>)
      returns (x: RbNode<K>, ghost c': NCtx<K>, ghost t': NTree<K>)
      requires Focus(c, t) && t.Node? && x0 == t.n && !c.Top? && c.up.InRight? && ColourOf(c.up.sib) == Black
      modifies this`root, this`mem, mem.Keys
      ensures (c', t') == InsertStep(c, t) && Focus(c', t') && x == t'.n && mem.Keys == old(mem.Keys)
    {
      Family(c, t);
      ghost var c1, t1 := c, t;
      x := x0;
      if x0 == x0.up.left {
        x, c1, t1 := TurnRight(x0, c, t);
      }
      c', t' := InRight(c1.n, c1.key, Black, Node(c.up.sib, c.up.n, c.up.key, Red, c1.sib), c.up.up), t1;
      assert (c', t') == InsertStep(c, t);
      SettleRight(x.up, x.up.up, c1, t1);
    }

    // One iteration of the loop in rb_traverse.
    method InsertIteration(x0: RbNode<K>, ghost c: NCtx<K>, ghost t: NTree<K>)
      returns (x: RbNode<K>, ghost c': NCtx<K>, ghost t': NTree<K>)
      requires Focus(c, t) && t.Node? && x0 == t.n && !c.Top? && !c.up.Top?
      modifies this`root, this`mem, mem.Keys
      ensures (c', t') == InsertStep(c, t) && Focus(c', t') && x == t'.n && mem.Keys == old(mem.Keys)
    {
      Family(c, t);
      var g := x0.up.up;
      var left := x0.up == g.left;
      var y := if left then g.right else g.left;
      if y.colour == Red {
        c', t' := PushBlackDown(x0.up, y, g, c, t);
        x := g;
      } else if left {
        x, c', t' := LiftFromLeft(x0, c, t);
      } else {
        x, c', t' := LiftFromRight(x0, c, t);
      }
    }

    // The recolour/rotate loop of rb_traverse and the blackening of the root.
    method InsertRepair(z: RbNode<K>, ghost c0: NCtx<K>, ghost t0: NTree<K>) returns (ghost whole: NTree<K>)
      requires Focus(c0, t0) && InsertPending(c0, t0) && z == t0.n
      modifies this`root, this`mem, mem.Keys
      ensures Focus(Top, whole) && IsRedBlackTree(whole) && whole.Node?
      ensures Keys(whole) == Keys(Plug(c0, t0)) && mem.Keys == old(mem.Keys)
    {
      var x := z;
      ghost var c, t := c0, t0;
      FocusFields(c, t);
      while x != root && x.up.colour == Red
        invariant Focus(c, t) && InsertPending(c, t) && x == t.n
        invariant x != root ==> !c.Top? && x.up == c.n && c.n.colour == c.colour
        invariant c.Top? ==> x == root
        invariant Keys(Plug(c, t)) == Keys(Plug(c0, t0)) && mem.Keys == old(mem.Keys)
        decreases Depth(c)
      {
        InsertStepKeeps(c, t);
        InsertStepKeepsKeys(c, t);
        x, c, t := InsertIteration(x, c, t);
        FocusFields(c, t);
      }
      FocusFields(c, t);
      InsertDone(c, t);
      ToTop(c, t);
      whole := Paint(Plug(c, t), Black);
      FocusFields(Top, Plug(c, t));
      PaintNode(root, Black, Top, Plug(c, t));
    }

    lemma {:induction false} ToTop(c: NCtx<K>, t: NTree<K>)
      requires Focus(c, t)
      ensures Focus(Top, Plug(c, t))
      decreases c
    {
      if !c.Top? {
        Up(c, t);
        ToTop(c.up, FillOne(c, t));
      }
    }

    // ---------- deletion ----------

    // The pointers the deletion loop follows from the parent p of its focus.
    lemma {:induction false} Siblings(c: NCtx<K>, t: NTree<K>)
      requires Focus(c, t) && !c.Top? && c.sib.Node?
      ensures var w := c.sib;
              && c.n in mem && c.n.colour == c.colour && w.n in mem && w.n.colour == w.colour
              && (c.InLeft? ==> c.n.right == w.n && c.n.left == Ptr(t, nil))
              && (c.InRight? ==> c.n.left == w.n && c.n.right == Ptr(t, nil))
              && w.n.left == Ptr(w.left, nil) && w.n.right == Ptr(w.right, nil)
              && w.n.left.colour == ColourOf(w.left) && w.n.right.colour == ColourOf(w.right)
              && w.n != Ptr(t, nil)
    {
      Up(c, t);
      FocusFields(c.up, FillOne(c, t));
      Across(c, t);
      var c1, w := SibCtx(c, t), c.sib;
      FocusFields(c1, w);
      Down(c1, w);
      FocusFields(InLeft(w.n, w.key, w.colour, w.right, c1), w.left);
      FocusFields(InRight(w.n, w.key, w.colour, w.left, c1), w.right);
      assert t.Node? ==> t.n in Nodes(t);
    }

    // A red sibling is rotated above the parent.
    method RaiseRedSibling(p: RbNode<K>, w: RbNode<K>, left: bool, ghost c: NCtx<K>, ghost t: NTree<K>)
      requires Focus(c, t) && SiblingsThere(c) && p == c.n && w == c.sib.n && c.sib.colour == Red
      requires left <==> c.InLeft?
      modifies this`root, this`mem, mem.Keys
      ensures Focus(BlackSibling(c), t) && mem.Keys == old(mem.Keys)
    {
      Siblings(c, t);
      PaintSibling(w, Black, c, t);
      ghost var s := Paint(c.sib, Black);
      ghost var c1 := c.(sib := s);
      PaintParent(p, Red, c1, t);
      ghost var c2 := c1.(colour := Red);
      Up(c2, t);
      ghost var f := FillOne(c2, t);
      if left {
        LeftRotate(p, c.up, f);
        Down(c.up, RotateLeft(f));
        Down(InLeft(w, s.key, Black, s.right, c.up), Node(t, p, c.key, Red, s.left));
      } else {
        RightRotate(p, c.up, f);
        Down(c.up, RotateRight(f));
        Down(InRight(w, s.key, Black, s.left, c.up), Node(s.right, p, c.key, Red, t));
      }
    }

    // Makes the far nephew red, rotating the sibling if need be.
    method MakeFarNephewRed(w: RbNode<K>, left: bool, ghost c: NCtx<K>, ghost t: NTree<K>)
      requires Focus(c, t) && !c.Top? && c.sib.Node? && w == c.sib.n && (left <==> c.InLeft?)
      requires ColourOf(c.sib.left) == Red || ColourOf(c.sib.right) == Red
      modifies this`root, this`mem, mem.Keys
      ensures Focus(c.(sib := FarNephewRed(left, c.sib)), t) && mem.Keys == old(mem.Keys)
    {
      Siblings(c, t);
      Across(c, t);
      ghost var c1, s := SibCtx(c, t), c.sib;
      if left {
        if w.right.colour == Black {
          Down(c1, s);
          PaintNode(w.left, Black, InLeft(w, s.key, s.colour, s.right, c1), s.left);
          Up(InLeft(w, s.key, s.colour, s.right, c1), Paint(s.left, Black));
          ghost var s1 := Node(Paint(s.left, Black), w, s.key, s.colour, s.right);
          PaintNode(w, Red, c1, s1);
          RightRotate(w, c1, Paint(s1, Red));
          Across(c1, RotateRight(Paint(s1, Red)));
        }
      } else {
        if w.left.colour == Black {
          Down(c1, s);
          PaintNode(w.right, Black, InRight(w, s.key, s.colour, s.left, c1), s.right);
          Up(InRight(w, s.key, s.colour, s.left, c1), Paint(s.right, Black));
          ghost var s1 := Node(s.left, w, s.key, s.colour, Paint(s.right, Black));
          PaintNode(w, Red, c1, s1);
          LeftRotate(w, c1, Paint(s1, Red));
          Across(c1, RotateLeft(Paint(s1, Red)));
        }
      }
    }

    // The sibling w takes the parent's place and colour.
    method SettleDelete(p: RbNode<K>, w: RbNode<K>, left: bool, ghost c: NCtx<K>, ghost t: NTree<K>)
      requires Focus(c, t) && !c.Top? && c.sib.Node? && p == c.n && w == c.sib.n && (left <==> c.InLeft?)
      requires left ==> c.sib.right.Node?
      requires !left ==> c.sib.left.Node?
      modifies this`root, this`mem, mem.Keys
      ensures Focus(c.up, Settle(c, t, c.sib)) && mem.Keys == old(mem.Keys)
    {
      Siblings(c, t);
      ghost var s := c.sib;
      PaintSibling(w, p.colour, c, t);
      ghost var s1 := Paint(s, c.colour);
      PaintParent(p, Black, c.(sib := s1), t);
      ghost var c2 := c.(sib := s1).(colour := Black);
      Across(c2, t);
      ghost var c3 := SibCtx(c2, t);
      Down(c3, s1);
      if left {
        PaintNode(w.right, Black, InRight(w, s.key, c.colour, s.left, c3), s.right);
        ghost var s2 := Node(s.left, w, s.key, c.colour, Paint(s.right, Black));
        Up(InRight(w, s.key, c.colour, s.left, c3), Paint(s.right, Black));
        Up(c3, s2);
        LeftRotate(p, c.up, FillOne(c3, s2));
      } else {
        PaintNode(w.left, Black, InLeft(w, s.key, c.colour, s.right, c3), s.left);
        ghost var s2 := Node(Paint(s.left, Black), w, s.key, c.colour, s.right);
        Up(InLeft(w, s.key, c.colour, s.right, c3), Paint(s.left, Black));
        Up(c3, s2);
        RightRotate(p, c.up, FillOne(c3, s2));
      }
    }

    // The part of an iteration after the sibling is black.
    method FinishIteration(p: RbNode<K>, left: bool, ghost c: NCtx<K>, ghost t: NTree<K>)
      returns (x: RbNode<K>, ghost c': NCtx<K>, ghost t': NTree<K>)
      requires Focus(c, t) && !c.Top? && c.sib.Node? && c.sib.colour == Black && p == c.n && (left <==> c.InLeft?)
      modifies this`root, this`mem, mem.Keys
      ensures (c', t') == DeleteStep(c, t) && Focus(c', t') && x == Ptr(t', nil) && mem.Keys == old(mem.Keys)
    {
      Siblings(c, t);
      var w := if left then p.right else p.left;
      if w.left.colour == Black && w.right.colour == Black {
        PaintSibling(w, Red, c, t);
        x := p;
        c', t' := c.up, FillOne(c.(sib := Paint(c.sib, Red)), t);
        Up(c.(sib := Paint(c.sib, Red)), t);
      } else {
        MakeFarNephewRed(w, left, c, t);
        ghost var c1 := c.(sib := FarNephewRed(left, c.sib));
        Siblings(c1, t);
        w := if left then p.right else p.left;
        SettleDelete(p, w, left, c1, t);
        ToTop(c1.up, Settle(c1, t, c1.sib));
        c', t' := Top, Plug(c1.up, Settle(c1, t, c1.sib));
        FocusFields(c', t');
        x := root;
      }
    }

    // One iteration of the loop in rb_delete_fix. x may be the sentinel, whose
    // up pointer has been set to the parent.
    method DeleteIteration(x0: RbNode<K>, ghost c: NCtx<K>, ghost t: NTree<K>)
      returns (x: RbNode<K>, ghost c': NCtx<K>, ghost t': NTree<K>)
      requires Focus(c, t) && !c.Top? && DeletePending(c, t) && ColourOf(t) == Black
      requires x0 == Ptr(t, nil) && x0.up == c.n
      modifies this`root, this`mem, mem.Keys
      ensures SiblingsThere(c) && (c', t') == DeleteStep(c, t)
      ensures Focus(c', t') && x == Ptr(t', nil) && mem.Keys == old(mem.Keys)
    {
      BlackSiblingKeeps(c, t);
      StepFromBlack(c, t);
      Siblings(c, t);
      var p := x0.up;
      var left := x0 == p.left;
      MakeSiblingBlack(p, left, c, t);
      x, c', t' := FinishIteration(p, left, BlackSibling(c), t);
    }

    // A red sibling is rotated above the parent.
    method MakeSiblingBlack(p: RbNode<K>, left: bool, ghost c: NCtx<K>, ghost t: NTree<K>)
      requires Focus(c, t) && SiblingsThere(c) && p == c.n && (left <==> c.InLeft?)
      modifies this`root, this`mem, mem.Keys
      ensures Focus(BlackSibling(c), t) && mem.Keys == old(mem.Keys)
    {
      Siblings(c, t);
      var w := if left then p.right else p.left;
      if w.colour == Red {
        RaiseRedSibling(p, w, left, c, t);
      }
    }

    // rb_delete_fix
    method DeleteFix(x0: RbNode<K>, ghost c0: NCtx<K>, ghost t0: NTree<K>) returns (ghost whole: NTree<K>)
      requires Focus(c0, t0) && DeletePending(c0, t0)
      requires x0 == Ptr(t0, nil) && x0.up == ParentOf(c0, nil)
      modifies this`root, this`mem, mem.Keys, x0`colour
      ensures Focus(Top, whole) && IsRedBlackTree(whole)
      ensures Keys(whole) == Keys(Plug(c0, t0)) && mem.Keys == old(mem.Keys)
    {
      var x := x0;
      ghost var c, t := c0, t0;
      FocusFields(c, t);
      while x != root && x.colour == Black
        invariant Focus(c, t) && DeletePending(c, t) && x == Ptr(t, nil)
        invariant x.colour == ColourOf(t) && (x == root <==> c.Top?)
        invariant x.up == ParentOf(c, nil)
        invariant Keys(Plug(c, t)) == Keys(Plug(c0, t0)) && mem.Keys == old(mem.Keys)
        invariant x == x0 || t.Node?
        decreases Depth(c), if ColourOf(t) == Black then 1 else 0
      {
        DeleteStepKeeps(c, t);
        DeleteStepKeepsKeys(c, t);
        DeleteStepFocus(c, t);
        x, c, t := DeleteIteration(x, c, t);
        FocusFields(c, t);
      }
      whole := BlackenFocus(x, c, t);
    }

    // The last assignment of rb_delete_fix.
    method BlackenFocus(x: RbNode<K>, ghost c: NCtx<K>, ghost t: NTree<K>) returns (ghost whole: NTree<K>)
      requires Focus(c, t) && x == Ptr(t, nil)
      requires DeletePending(c, t) && (c.Top? || ColourOf(t) == Red)
      modifies this`mem, x`colour
      ensures Focus(Top, whole) && IsRedBlackTree(whole)
      ensures Keys(whole) == Keys(Plug(c, t)) && mem.Keys == old(mem.Keys)
    {
      DeleteDone(c, t);
      whole := Plug(c, Paint(t, Black));
      if x == nil {
        x.colour := Black;
        ToTop(c, t);
      } else {
        PaintNode(x, Black, c, t);
        ToTop(c, Paint(t, Black));
      }
    }

    // ---------- walks along the key order ----------

    // The smallest node of the subtree t, reached by left pointers.
    method Leftmost(x0: RbNode<K>, ghost c: NCtx<K>, ghost t: NTree<K>)
      returns (y: RbNode<K>, ghost c': NCtx<K>, ghost t': NTree<K>)
      requires Focus(c, t) && t.Node? && x0 == t.n
      ensures Focus(c', t') && t'.Node? && y == t'.n && t'.left.Leaf?
      ensures Plug(c', t') == Plug(c, t) && Before(c') == Before(c)
      ensures forall z | z in CtxNodes(c) :: LeftSpine(c', c, z)
    {
      y, c', t' := x0, c, t;
      Children(c', t');
      while y.left != nil
        invariant Focus(c', t') && t'.Node? && y == t'.n && y.left == Ptr(t'.left, nil)
        invariant Plug(c', t') == Plug(c, t) && Before(c') == Before(c)
        invariant forall z | z in CtxNodes(c) :: z in CtxNodes(c') && LeftSpine(c', c, z)
        decreases t'
      {
        Children(c', t');
        Down(c', t');
        y, c', t' := y.left, InLeft(t'.n, t'.key, t'.colour, t'.right, c'), t'.left;
        Children(c', t');
      }
      Children(c', t');
    }

    method Rightmost(x0: RbNode<K>, ghost c: NCtx<K>, ghost t: NTree<K>)
      returns (y: RbNode<K>, ghost c': NCtx<K>, ghost t': NTree<K>)
      requires Focus(c, t) && t.Node? && x0 == t.n
      ensures Focus(c', t') && t'.Node? && y == t'.n && t'.right.Leaf?
      ensures Plug(c', t') == Plug(c, t) && After(c') == After(c)
    {
      y, c', t' := x0, c, t;
      Children(c', t');
      while y.right != nil
        invariant Focus(c', t') && t'.Node? && y == t'.n && y.right == Ptr(t'.right, nil)
        invariant Plug(c', t') == Plug(c, t) && After(c') == After(c)
        decreases t'
      {
        Children(c', t');
        Down(c', t');
        y, c', t' := y.right, InRight(t'.n, t'.key, t'.colour, t'.left, c'), t'.right;
        Children(c', t');
      }
      Children(c', t');
    }

    // rb_successor: the node at the next position, or the sentinel after the last.
    method Successor(x0: RbNode<K>, ghost c: NCtx<K>, ghost t: NTree<K>)
      returns (y: RbNode<K>, ghost c': NCtx<K>, ghost t': NTree<K>)
      requires Focus(c, t) && t.Node? && x0 == t.n
      ensures y == nil <==> Index(c, t) + 1 == |Keys(Plug(c, t))|
      ensures y != nil ==>
                && Focus(c', t') && t'.Node? && y == t'.n
                && Plug(c', t') == Plug(c, t) && Index(c', t') == Index(c, t) + 1
      ensures t.right.Node? ==>
                && y != nil && t'.left.Leaf?
                && LeftSpine(c', InRight(t.n, t.key, t.colour, t.left, c), t.n)
    {
      Children(c, t);
      PlugKeys(c, t);
      if x0.right != nil {
        Down(c, t);
        y, c', t' := Leftmost(x0.right, InRight(t.n, t.key, t.colour, t.left, c), t.right);
        FocusFields(c', t');
        KeyAtIndex(c', t');
      } else {
        var x := x0;
        y, c', t' := x.up, c, t;
        FocusFields(c', t');
        RightOfParent(c', t');
        while y != nil && x == y.right
          invariant Focus(c', t') && t'.Node? && x == t'.n && y == ParentOf(c', nil)
          invariant c'.Top? <==> y == nil
          invariant y != nil ==> (x == y.right <==> c'.InRight?)
          invariant Plug(c', t') == Plug(c, t) && |Before(c')| + |Keys(t')| == Index(c, t) + 1
          decreases c'
        {
          Up(c', t');
          c', t' := c'.up, FillOne(c', t');
          x := y;
          y := y.up;
          FocusFields(c', t');
          RightOfParent(c', t');
        }
        PlugKeys(c', t');
        if y != nil {
          Up(c', t');
          c', t' := c'.up, FillOne(c', t');
          FocusFields(c', t');
          KeyAtIndex(c', t');
        }
      }
    }

    // rb_preccessor
    method Predecessor(x0: RbNode<K>, ghost c: NCtx<K>, ghost t: NTree<K>)
      returns (y: RbNode<K>, ghost c': NCtx<K>, ghost t': NTree<K>)
      requires Focus(c, t) && t.Node? && x0 == t.n
      ensures y == nil <==> Index(c, t) == 0
      ensures y != nil ==>
                && Focus(c', t') && t'.Node? && y == t'.n
                && Plug(c', t') == Plug(c, t) && Index(c', t') + 1 == Index(c, t)
    {
      Children(c, t);
      PlugKeys(c, t);
      if x0.left != nil {
        Down(c, t);
        y, c', t' := Rightmost(x0.left, InLeft(t.n, t.key, t.colour, t.right, c), t.left);
        FocusFields(c', t');
        PlugKeys(c', t');
      } else {
        var x := x0;
        y, c', t' := x.up, c, t;
        FocusFields(c', t');
        while y != nil && x == y.left
          invariant Focus(c', t') && t'.Node? && x == t'.n && y == ParentOf(c', nil)
          invariant c'.Top? <==> y == nil
          invariant y != nil ==> (x == y.left <==> c'.InLeft?)
          invariant Plug(c', t') == Plug(c, t) && |Before(c')| == Index(c, t)
          decreases c'
        {
          Up(c', t');
          c', t' := c'.up, FillOne(c', t');
          x := y;
          y := y.up;
          FocusFields(c', t');
        }
        if y != nil {
          Up(c', t');
          c', t' := c'.up, FillOne(c', t');
          FocusFields(c', t');
        }
      }
    }

    lemma {:induction false} RightOfParent(c: NCtx<K>, t: NTree<K>)
      requires Focus(c, t) && t.Node?
      ensures !c.Top? ==> (t.n == c.n.right <==> c.InRight?)
    {
    }

    // ---------- rb_delete ----------

    // Takes out y, which has at most one child x, and frees it. Like the source
    // it lends y's parent to x even if x is the sentinel.
    method Splice(y: RbNode<K>, ghost c: NCtx<K>, ghost t: NTree<K>) returns (x: RbNode<K>)
      requires Focus(c, t) && t.Node? && y == t.n && (t.left.Leaf? || t.right.Leaf?)
      modifies this`root, this`mem, mem.Keys, nil`up
      ensures Focus(c, OnlyChild(t)) && mem.Keys == old(mem.Keys) - {y}
      ensures x == Ptr(OnlyChild(t), nil) && x.up == ParentOf(c, nil)
      ensures y.key == t.key && y.colour == t.colour
    {
      Children(c, t);
      FocusFields(c, t);
      ghost var m0 := mem;
      var p := y.up;
      if y.left != nil {
        x := y.left;
      } else {
        x := y.right;
      }
      if x == nil {
        nil.up := p;
      } else {
        SetUp(x, p);
      }
      ghost var m1 := mem;
      Replace(y, x, p);
      SplicedHolds(m0, m1, mem, old(root), c, t, nil);
      mem := mem - {y};
      FocusFields(c, OnlyChild(t));
    }

    // Repairs the colours if the node taken out was black.
    method AfterSplice(x: RbNode<K>, lost: Colour, ghost c: NCtx<K>, ghost t: NTree<K>) returns (ghost whole: NTree<K>)
      requires Focus(c, t) && x == Ptr(t, nil) && x.up == ParentOf(c, nil)
      requires if lost == Black then DeletePending(c, t) else Joins(c, t)
      modifies this`root, this`mem, mem.Keys, nil`colour
      ensures Focus(Top, whole) && IsRedBlackTree(whole) && mem.Keys == old(mem.Keys)
      ensures Keys(whole) == Keys(Plug(c, t))
    {
      if lost == Black {
        whole := DeleteFix(x, c, t);
      } else {
        JoinsIffRedBlack(c, t);
        ToTop(c, t);
        whole := Plug(c, t);
      }
    }

    // A node with two children: its successor's node is taken out instead.
    method DeleteInner(z: RbNode<K>, ghost c: NCtx<K>, ghost t: NTree<K>) returns (ghost whole: NTree<K>)
      requires Focus(c, t) && t.Node? && z == t.n && IsRedBlackTree(Plug(c, t)) && t.right.Node?
      modifies this`root, this`mem, mem.Keys, nil`up, nil`colour
      ensures Focus(Top, whole) && IsRedBlackTree(whole) && mem.Keys <= old(mem.Keys)
      ensures Keys(whole) == Before(c) + Keys(t.left) + (Keys(t.right) + After(c))
    {
      var y;
      ghost var cy, ty;
      y, cy, ty := Successor(z, c, t);
      ghost var tx := OnlyChild(ty);
      JoinsIffRedBlack(cy, ty);
      SpliceStarts(cy, ty);
      MovedKeys(c, t, cy, ty);
      var x := Splice(y, cy, ty);
      whole := MoveAndMend(z, x, y.key, y.colour, cy, tx, c, t);
    }

    // The key of the node taken out moves to z; then the colours are mended.
    method MoveAndMend(z: RbNode<K>, x: RbNode<K>, k: K, lost: Colour, ghost cy: NCtx<K>, ghost tx: NTree<K>,
                       ghost c: NCtx<K>, ghost t: NTree<K>) returns (ghost whole: NTree<K>)
      requires Focus(cy, tx) && t.Node? && z == t.n && LeftSpine(cy, InRight(t.n, t.key, t.colour, t.left, c), t.n)
      requires x == Ptr(tx, nil) && x.up == ParentOf(cy, nil)
      requires if lost == Black then DeletePending(cy, tx) else Joins(cy, tx)
      modifies this`root, this`mem, mem.Keys, nil`colour, z`key
      ensures Focus(Top, whole) && IsRedBlackTree(whole) && mem.Keys == old(mem.Keys)
      ensures Keys(whole) == Keys(Plug(ReKey(cy, z, k), tx))
    {
      ReKeyKeepsPending(cy, tx, z, k);
      ghost var cx := MoveKey(z, k, cy, tx, c, t);
      whole := AfterSplice(x, lost, cx, tx);
    }

    // rb_delete: z's key goes, all others stay.
    method DeleteNode(z: RbNode<K>, ghost c: NCtx<K>, ghost t: NTree<K>) returns (ghost whole: NTree<K>)
      requires Focus(c, t) && t.Node? && z == t.n && IsRedBlackTree(Plug(c, t))
      modifies this`root, this`mem, mem.Keys, nil`up, nil`colour
      ensures Focus(Top, whole) && IsRedBlackTree(whole) && mem.Keys <= old(mem.Keys)
      ensures Keys(whole) == Before(c) + Keys(t.left) + (Keys(t.right) + After(c))
    {
      Children(c, t);
      if z.left == nil || z.right == nil {
        JoinsIffRedBlack(c, t);
        SpliceStarts(c, t);
        SplicedKeys(c, t);
        var x := Splice(z, c, t);
        whole := AfterSplice(x, z.colour, c, OnlyChild(t));
      } else {
        whole := DeleteInner(z, c, t);
      }
    }

    // The key k of the node just taken out moves to z.
    method MoveKey(z: RbNode<K>, k: K, ghost cy: NCtx<K>, ghost tx: NTree<K>, ghost c: NCtx<K>, ghost t: NTree<K>)
      returns (ghost cx: NCtx<K>)
      requires Focus(cy, tx) && t.Node? && z == t.n
      requires LeftSpine(cy, InRight(t.n, t.key, t.colour, t.left, c), t.n)
      modifies this`mem, z`key
      ensures cx == ReKey(cy, z, k) && Focus(cx, tx)
      ensures mem.Keys == old(mem.Keys) && root == old(root)
      ensures ParentOf(cx, nil) == ParentOf(cy, nil)
    {
      ghost var d := InRight(t.n, t.key, t.colour, t.left, c);
      SpineOnPath(cy, d, z);
      HoldsCtxNodes(mem, cy, Ptr(tx, nil), nil);
      OnPathInCtx(cy, z);
      cx := ReKey(cy, z, k);
      ghost var m := mem;
      SetKey(z, k);
      ReKeyHolds(m, mem, cy, Ptr(tx, nil), nil, z, k);
      SubtreeFrame(m, mem, tx, ParentOf(cy, nil), nil, {z});
    }

    // ---------- the interface ----------

    // The descent for key has reached (c, t).
    ghost predicate Reached(c: NCtx<K>, t: NTree<K>, key: K)
      reads this, nil, mem.Keys
    {
      && Focus(c, t) && Plug(c, t) == tree
      && AllBelow(cmp, Before(c), key) && AllAbove(cmp, After(c), key)
    }

    lemma {:induction false} GoDown(c: NCtx<K>, t: NTree<K>, key: K)
      requires Valid() && Reached(c, t, key) && t.Node?
      ensures t.n.key == t.key
      ensures t.n.left == Ptr(t.left, nil) && t.n.right == Ptr(t.right, nil)
      ensures (t.n.left == nil <==> t.left.Leaf?) && (t.n.right == nil <==> t.right.Leaf?)
      ensures cmp(key, t.key) < 0 ==> Reached(InLeft(t.n, t.key, t.colour, t.right, c), t.left, key)
      ensures cmp(key, t.key) > 0 ==> Reached(InRight(t.n, t.key, t.colour, t.left, c), t.right, key)
      ensures Height(t.left) < Height(t) && Height(t.right) < Height(t)
    {
      Children(c, t);
      FocusFields(c, t);
      Down(c, t);
      Narrow(cmp, c, t, key);
    }

    // The loop "walk x down the tree": ends at an equal key (found) or at an
    // empty place next to y. Compares with no more keys than the tree is high.
    method Descend(key: K) returns (x: RbNode<K>, y: RbNode<K>, last: int, found: bool,
                                    ghost c: NCtx<K>, ghost t: NTree<K>, ghost visited: nat)
      requires Valid()
      ensures Reached(c, t, key) && x == Ptr(t, nil)
      ensures found ==> t.Node? && y == x && last == 0 && cmp(key, t.key) == 0
      ensures !found ==> t.Leaf? && y == ParentOf(c, nil) && (!c.Top? ==> last == cmp(key, c.key))
      ensures visited <= Height(tree)
    {
      y, x, found, last := nil, root, false, 0;
      c, t, visited := Top, tree, 0;
      FocusFields(c, t);
      while x != nil && !found
        invariant Reached(c, t, key) && x == Ptr(t, nil)
        invariant x == nil <==> t.Leaf?
        invariant found ==> t.Node? && y == x && last == 0 && cmp(key, t.key) == 0
        invariant !found ==> y == ParentOf(c, nil) && (!c.Top? ==> last == cmp(key, c.key))
        invariant visited + (if found then 0 else Height(t)) <= Height(tree)
        decreases if found then 0 else 1, t
      {
        GoDown(c, t, key);
        y := x;
        last := cmp(key, x.key);
        visited := visited + 1;
        if last < 0 {
          x, c, t := x.left, InLeft(t.n, t.key, t.colour, t.right, c), t.left;
        } else if last > 0 {
          x, c, t := x.right, InRight(t.n, t.key, t.colour, t.left, c), t.right;
        } else {
          found := true;
        }
      }
    }

    // What the end of a descent says about the key sequence.
    lemma {:induction false} FoundAt(c: NCtx<K>, t: NTree<K>, key: K)
      requires Valid() && Reached(c, t, key)
      ensures t.Leaf? ==>
                && !Hit(cmp, Contents(), key) && Rank(cmp, Contents(), key) == |Before(c)|
                && Inserted(cmp, Contents(), key) == Before(c) + [key] + After(c)
                && Deleted(cmp, Contents(), key) == Contents()
      ensures t.Node? && cmp(key, t.key) == 0 ==>
                && Hit(cmp, Contents(), key) && Rank(cmp, Contents(), key) == Index(c, t)
                && Lookup(cmp, Contents(), key) == Some(t.key)
                && Inserted(cmp, Contents(), key) == Contents()
                && Deleted(cmp, Contents(), key) == Before(c) + Keys(t.left) + (Keys(t.right) + After(c))
    {
      KeysAround(c, t);
      if t.Leaf? {
        InsertedInGap(cmp, Before(c), After(c), key);
      } else if cmp(key, t.key) == 0 {
        DeletedAt(cmp, Before(c) + Keys(t.left), t.key, Keys(t.right) + After(c), key);
      }
    }

    // Hangs a new red node into the empty place below y.
    method Attach(key: K, y: RbNode<K>, ghost c: NCtx<K>) returns (z: RbNode<K>)
      requires Focus(c, Leaf) && y == ParentOf(c, nil)
      requires !c.Top? ==> (c.InLeft? <==> cmp(key, c.key) < 0)
      modifies this`root, this`mem, mem.Keys
      ensures fresh(z) && mem.Keys == old(mem.Keys) + {z}
      ensures Focus(c, Node(Leaf, z, key, Red, Leaf))
    {
      FocusFields(c, Leaf);
      if !c.Top? {
        Up(c, Leaf);
        FocusFields(c.up, FillOne(c, Leaf));
      }
      z := new RbNode<K>.Alloc(key, y, nil);
      ghost var m0 := mem;
      mem := mem[z := Cell(nil, nil, y, Red, key)];
      ghost var m1 := mem;
      if y == nil {
        root := z;
      } else if cmp(z.key, y.key) < 0 {
        SetLeft(y, z);
      } else {
        SetRight(y, z);
      }
      AttachedHolds(m0, m1, mem, old(root), c, nil, z, key);
    }

    method InsertNode(key: K, y: RbNode<K>, ghost c: NCtx<K>) returns (ghost whole: NTree<K>)
      requires Focus(c, Leaf) && y == ParentOf(c, nil) && Joins(c, Leaf)
      requires !c.Top? ==> (c.InLeft? <==> cmp(key, c.key) < 0)
      modifies this`root, this`mem, mem.Keys
      ensures fresh(mem.Keys - old(mem.Keys))
      ensures Focus(Top, whole) && IsRedBlackTree(whole)
      ensures Keys(whole) == Before(c) + [key] + After(c)
    {
      var z := Attach(key, y, c);
      NewLeafKeys(c, z, key);
      whole := InsertRepair(z, c, Node(Leaf, z, key, Red, Leaf));
    }

    lemma {:induction false} NewLeafKeys(c: NCtx<K>, z: RbNode<K>, key: K)
      ensures Keys(Plug(c, Node(Leaf, z, key, Red, Leaf))) == Before(c) + [key] + After(c)
    {
      var leaf := Node(Leaf, z, key, Red, Leaf);
      PlugKeys(c, leaf);
      assert Keys(leaf) == [key];
    }

    // Inserts key below y, where the descent ended.
    method InsertAt(key: K, y: RbNode<K>, ghost c: NCtx<K>)
      requires Valid() && Reached(c, Leaf, key) && y == ParentOf(c, nil)
      modifies this, mem.Keys
      ensures Valid() && fresh(mem.Keys - old(mem.Keys))
      ensures Contents() == Before(c) + [key] + After(c)
    {
      SortedAtGap(cmp, c, key);
      JoinsIffRedBlack(c, Leaf);
      ghost var whole := InsertNode(key, y, c);
      Install(whole);
    }

    // The tree is now the one built up beside it.
    ghost method Install(whole: NTree<K>)
      requires TotalPreorder(cmp) && Focus(Top, whole) && IsRedBlackTree(whole) && Sorted(cmp, Keys(whole))
      modifies this`tree
      ensures Valid() && tree == whole
    {
      tree := whole;
    }

    // Removes the node z, where the descent ended.
    method DeleteAt(z: RbNode<K>, ghost c: NCtx<K>, ghost t: NTree<K>)
      requires Valid() && Focus(c, t) && Plug(c, t) == tree && t.Node? && z == t.n
      modifies this, mem.Keys, nil`up, nil`colour
      ensures Valid() && mem.Keys <= old(mem.Keys)
      ensures Contents() == Before(c) + Keys(t.left) + (Keys(t.right) + After(c))
    {
      SortedWithout(cmp, c, t);
      ghost var keys := Before(c) + Keys(t.left) + (Keys(t.right) + After(c));
      assert Sorted(cmp, keys);
      ghost var whole := DeleteNode(z, c, t);
      assert Keys(whole) == keys;
      Install(whole);
    }

    // rbsearch: finds an equal key, or inserts key where it belongs.
    method Search(key: K) returns (r: K)
      requires Valid()
      modifies this, mem.Keys
      ensures Valid() && fresh(mem.Keys - old(mem.Keys))
      ensures Contents() == Inserted(cmp, old(Contents()), key)
      ensures Some(r) == if old(Hit(cmp, Contents(), key)) then Lookup(cmp, old(Contents()), key) else Some(key)
      ensures old(Hit(cmp, Contents(), key)) ==> mem == old(mem) && root == old(root)
    {
      ghost var keys := Contents();
      var x, y, last, found;
      ghost var c, t, visited;
      x, y, last, found, c, t, visited := Descend(key);
      FoundAt(c, t, key);
      if found {
        FocusFields(c, t);
        r := x.key;
      } else {
        ghost var grown := Inserted(cmp, keys, key);
        assert grown == Before(c) + [key] + After(c) && !Hit(cmp, keys, key);
        InsertAt(key, y, c);
        assert Contents() == grown;
        r := key;
      }
    }

    // rbfind
    method Find(key: K) returns (r: Option<K>)
      requires Valid()
      ensures r == Lookup(cmp, Contents(), key)
    {
      FocusFields(Top, tree);
      if root == nil {
        return None;
      }
      var x, y, last, found;
      ghost var c, t, visited;
      x, y, last, found, c, t, visited := Descend(key);
      FoundAt(c, t, key);
      FocusFields(c, t);
      r := if x == nil then None else Some(x.key);
    }

    // rbdelete
    method Delete(key: K) returns (r: Option<K>)
      requires Valid()
      modifies this, mem.Keys, nil`up, nil`colour
      ensures Valid() && mem.Keys <= old(mem.Keys)
      ensures r == Lookup(cmp, old(Contents()), key)
      ensures Contents() == Deleted(cmp, old(Contents()), key)
      ensures r == None ==> mem == old(mem) && root == old(root)
    {
      var x, y, last, found;
      ghost var c, t, visited;
      x, y, last, found, c, t, visited := Descend(key);
      FoundAt(c, t, key);
      FocusFields(c, t);
      if x == nil {
        r := None;
      } else {
        r := Some(x.key);
        DeleteAt(x, c, t);
      }
    }

    lemma {:induction false} FocusKey(c: NCtx<K>, t: NTree<K>)
      requires Focus(c, t) && Plug(c, t) == tree && t.Node?
      ensures t.n.key == t.key && Nth(Contents(), Index(c, t)) == Some(t.key)
    {
      FocusFields(c, t);
      KeyAtIndex(c, t);
    }

    // The key one place after (or before) the focused node.
    method Neighbour(x: RbNode<K>, forward: bool, ghost c: NCtx<K>, ghost t: NTree<K>) returns (r: Option<K>)
      requires Focus(c, t) && Plug(c, t) == tree && t.Node? && x == t.n
      ensures r == Nth(Contents(), if forward then Index(c, t) + 1 else Index(c, t) - 1)
    {
      KeyAtIndex(c, t);
      var y;
      ghost var c', t';
      if forward {
        y, c', t' := Successor(x, c, t);
      } else {
        y, c', t' := Predecessor(x, c, t);
      }
      if y == nil {
        r := None;
      } else {
        FocusKey(c', t');
        r := Some(y.key);
      }
    }

    // The parent of a gap, as a focus: its key comes right behind the gap or right
    // before it.
    lemma {:induction false} GapParent(c: NCtx<K>, key: K)
      requires Valid() && Reached(c, Leaf, key) && !c.Top?
      ensures var t := FillOne(c, Leaf);
              && Focus(c.up, t) && Plug(c.up, t) == tree && t.Node? && t.n == c.n
              && Index(c.up, t) == (if c.InLeft? then |Before(c)| else |Before(c)| - 1)
              && Nth(Contents(), Index(c.up, t)) == Some(c.n.key)
      ensures if c.InLeft? then cmp(key, c.key) < 0 else cmp(key, c.key) > 0
    {
      Up(c, Leaf);
      FocusKey(c.up, FillOne(c, Leaf));
      GapSide(c, key);
    }

    // An unsuccessful descent: y is the key at the rank or the one before it.
    method BesideGap(y: RbNode<K>, last: int, above: bool, key: K, ghost c: NCtx<K>) returns (r: Option<K>)
      requires Valid() && Reached(c, Leaf, key) && !c.Top? && y == c.n && last == cmp(key, c.key)
      ensures r == Nth(Contents(), if above then |Before(c)| else |Before(c)| - 1)
    {
      GapParent(c, key);
      ghost var t := FillOne(c, Leaf);
      if above && last > 0 {
        r := Neighbour(y, true, c.up, t);
      } else if !above && last < 0 {
        r := Neighbour(y, false, c.up, t);
      } else {
        r := Some(y.key);
      }
    }

    lemma {:induction false} GapSide(c: NCtx<K>, key: K)
      requires !c.Top? && AllBelow(cmp, Before(c), key) && AllAbove(cmp, After(c), key)
      ensures if c.InLeft? then cmp(key, c.key) < 0 else cmp(key, c.key) > 0
    {
      if c.InLeft? {
        assert After(c)[0] == c.key;
      } else {
        assert Before(c)[|Before(c)| - 1] == c.key;
      }
    }

    // rblookup. On an empty tree the ordered modes would look at no comparison.
    method LookupMode(mode: Mode, key: K) returns (r: Option<K>)
      requires Valid()
      requires mode == GtEq || mode == LtEq || mode == Less || mode == Great ==> Contents() != []
      ensures r == Prescribed(cmp, Contents(), mode, key)
    {
      if mode == First || mode == Last {
        r := Extreme(mode == First);
        return;
      }
      var x, y, last, found;
      ghost var c, t, visited;
      x, y, last, found, c, t, visited := Descend(key);
      FoundAt(c, t, key);
      if found {
        r := LookupHit(mode, x, key, c, t);
      } else {
        KeysAround(c, t);
        r := LookupMiss(mode, y, last, key, c);
      }
    }

    method LookupHit(mode: Mode, x: RbNode<K>, key: K, ghost c: NCtx<K>, ghost t: NTree<K>) returns (r: Option<K>)
      requires Focus(c, t) && Plug(c, t) == tree && t.Node? && x == t.n && mode != First && mode != Last
      requires Hit(cmp, Contents(), key) && Rank(cmp, Contents(), key) == Index(c, t)
      ensures r == Prescribed(cmp, Contents(), mode, key)
    {
      FocusKey(c, t);
      PrescribedAtHit(cmp, Contents(), mode, key);
      if mode == Equal || mode == GtEq || mode == LtEq {
        r := Some(x.key);
      } else {
        r := Neighbour(x, mode == Next || mode == Great, c, t);
      }
    }

    method LookupMiss(mode: Mode, y: RbNode<K>, last: int, key: K, ghost c: NCtx<K>) returns (r: Option<K>)
      requires Valid() && Reached(c, Leaf, key) && mode != First && mode != Last
      requires c.Top? ==> mode == Equal || mode == Next || mode == Prev
      requires !c.Top? ==> y == c.n && last == cmp(key, c.key)
      requires !Hit(cmp, Contents(), key) && Rank(cmp, Contents(), key) == |Before(c)|
      ensures r == Prescribed(cmp, Contents(), mode, key)
    {
      if mode == Equal || mode == Next || mode == Prev {
        r := None;
      } else {
        r := BesideGap(y, last, mode == GtEq || mode == Great, key, c);
      }
    }

    // RB_LUFIRST and RB_LULAST
    method Extreme(first: bool) returns (r: Option<K>)
      requires Valid()
      ensures r == Nth(Contents(), if first then 0 else |Contents()| - 1)
    {
      FocusFields(Top, tree);
      if root == nil {
        return None;
      }
      var y;
      ghost var c, t;
      if first {
        y, c, t := Leftmost(root, Top, tree);
      } else {
        y, c, t := Rightmost(root, Top, tree);
      }
      KeysAround(c, t);
      FocusKey(c, t);
      r := Some(y.key);
    }

    // ---------- listing ----------

    // The node at position i of the key order, or the sentinel after the last.
    ghost function NodeAt(i: nat): RbNode<K>
      reads this
    {
      if i < |Contents()| then FocusAt(Top, tree, i).1.n else nil
    }

    lemma {:induction false} FocusThere(c: NCtx<K>, t: NTree<K>, i: nat)
      requires Focus(c, t) && i < |Keys(t)|
      ensures Focus(FocusAt(c, t, i).0, FocusAt(c, t, i).1)
      decreases t
    {
      Down(c, t);
      if i < |Keys(t.left)| {
        FocusThere(InLeft(t.n, t.key, t.colour, t.right, c), t.left, i);
      } else if i > |Keys(t.left)| {
        FocusThere(InRight(t.n, t.key, t.colour, t.left, c), t.right, i - |Keys(t.left)| - 1);
      }
    }

    lemma {:induction false} NodeAtFocus(c: NCtx<K>, t: NTree<K>)
      requires Plug(c, t) == tree && t.Node?
      ensures NodeAt(Index(c, t)) == t.n
    {
      FocusAtIndex(c, t);
    }

    // rbopenlist
    method OpenList() returns (next: RbNode<K>)
      requires Valid()
      ensures next == NodeAt(0)
    {
      FocusFields(Top, tree);
      next := root;
      if root != nil {
        ghost var c, t;
        next, c, t := Leftmost(root, Top, tree);
        NodeAtFocus(c, t);
      }
    }

    // rbreadlist: the key at the list's position, and the next position.
    method ReadList(next: RbNode<K>, ghost i: nat) returns (r: Option<K>, next': RbNode<K>)
      requires Valid() && next == NodeAt(i) && i <= |Contents()|
      ensures r == Nth(Contents(), i)
      ensures next' == NodeAt(i + 1)
    {
      if i < |Contents()| {
        FocusThere(Top, tree, i);
        FocusFields(FocusAt(Top, tree, i).0, FocusAt(Top, tree, i).1);
      }
      r, next' := None, next;
      if next != nil {
        ghost var (c, t) := FocusAt(Top, tree, i);
        FocusKey(c, t);
        r := Some(next.key);
        ghost var c', t';
        next', c', t' := Successor(next, c, t);
        if next' != nil {
          NodeAtFocus(c', t');
        }
      }
    }

    // Opening a list and reading it until it answers None gives the keys in order.
    method ListAll() returns (keys: seq<K>)
      requires Valid()
      ensures keys == Contents()
    {
      ghost var s := Contents();
      var next := OpenList();
      var r;
      keys := [];
      r, next := ReadList(next, 0);
      while r.Some?
        invariant |keys| <= |s| && keys == s[..|keys|] && r == Nth(s, |keys|)
        invariant next == NodeAt(|keys| + 1)
        decreases |s| - |keys|
      {
        assert s[..|keys| + 1] == s[..|keys|] + [s[|keys|]];
        keys := keys + [r.value];
        r, next := ReadList(next, |keys|);
      }
    }

    // rb_walk: the action calls, in order.
    method Walk(x: RbNode<K>, level: nat, ghost c: NCtx<K>, ghost t: NTree<K>) returns (visits: seq<Visit<K>>)
      requires Focus(c, t) && x == Ptr(t, nil)
      ensures visits == Visits(t, level)
      decreases t
    {
      FocusFields(c, t);
      if x == nil {
        return [];
      }
      Children(c, t);
      if x.left == nil && x.right == nil {
        visits := [Visit(x.key, LeafNode, level)];
      } else {
        Down(c, t);
        visits := [Visit(x.key, Preorder, level)];
        var below := Walk(x.left, level + 1, InLeft(t.n, t.key, t.colour, t.right, c), t.left);
        visits := visits + below;
        visits := visits + [Visit(x.key, Postorder, level)];
        below := Walk(x.right, level + 1, InRight(t.n, t.key, t.colour, t.left, c), t.right);
        visits := visits + below;
        visits := visits + [Visit(x.key, Endorder, level)];
      }
    }
  }
}
