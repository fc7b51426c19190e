// The balancing argument of redblack.c on abstract trees: a focus (context,
// subtree) stands for the place the fix-up loops have reached, and one loop
// iteration is one step of the focus.
module RbTrees {
  import opened Basics

  datatype Colour = Black | Red

  // N is the type of node identities, K the type of keys.
  datatype Tree<N, K> =
    | Leaf
    | Node(left: Tree<N, K>, n: N, key: K, colour: Colour, right: Tree<N, K>)

  // The path from a subtree up to the root. InLeft: the hole is the left child of n.
  datatype Ctx<N, K> =
    | Top
    | InLeft(n: N, key: K, colour: Colour, sib: Tree<N, K>, up: Ctx<N, K>)
    | InRight(n: N, key: K, colour: Colour, sib: Tree<N, K>, up: Ctx<N, K>)

  function Plug<N, K>(c: Ctx<N, K>, t: Tree<N, K>): Tree<N, K>
    decreases c
  {
    match c
    case Top => t
    case InLeft(n, k, col, sib, up) => Plug(up, Node(t, n, k, col, sib))
    case InRight(n, k, col, sib, up) => Plug(up, Node(sib, n, k, col, t))
  }

  function Keys<N, K>(t: Tree<N, K>): seq<K> {
    match t
    case Leaf => []
    case Node(l, _, k, _, r) => Keys(l) + [k] + Keys(r)
  }

  // The keys in order before the hole, and after it.
  function Before<N, K>(c: Ctx<N, K>): seq<K> {
    match c
    case Top => []
    case InLeft(_, _, _, _, up) => Before(up)
    case InRight(_, k, _, sib, up) => Before(up) + Keys(sib) + [k]
  }

  function After<N, K>(c: Ctx<N, K>): seq<K> {
    match c
    case Top => []
    case InLeft(_, k, _, sib, up) => [k] + Keys(sib) + After(up)
    case InRight(_, _, _, _, up) => After(up)
  }

  lemma {:induction false} Regroup<K>(a: seq<K>, b: seq<K>, k: K, d: seq<K>, e: seq<K>)
    ensures a + (b + [k] + d) + e == a + b + ([k] + d + e)
    ensures a + (b + [k] + d) + e == (a + b + [k]) + d + e
  {
  }

  lemma {:induction false} PlugKeys<N, K>(c: Ctx<N, K>, t: Tree<N, K>)
    ensures Keys(Plug(c, t)) == Before(c) + Keys(t) + After(c)
    decreases c
  {
    match c
    case Top =>
    case InLeft(n, k, col, sib, up) =>
      PlugKeys(up, Node(t, n, k, col, sib));
      Regroup(Before(up), Keys(t), k, Keys(sib), After(up));
    case InRight(n, k, col, sib, up) =>
      PlugKeys(up, Node(sib, n, k, col, t));
      Regroup(Before(up), Keys(sib), k, Keys(t), After(up));
  }

  lemma {:induction false} Regroup3<K>(a: seq<K>, b: seq<K>, k: K, d: seq<K>, e: seq<K>)
    ensures a + (b + [k] + d) + e == (a + b) + [k] + (d + e)
  {
  }

  // The key sequence seen from the focus.
  lemma {:induction false} KeysAround<N, K>(c: Ctx<N, K>, t: Tree<N, K>)
    ensures t.Leaf? ==> Keys(Plug(c, t)) == Before(c) + After(c)
    ensures t.Node? ==> Keys(Plug(c, t)) == (Before(c) + Keys(t.left)) + [t.key] + (Keys(t.right) + After(c))
  {
    PlugKeys(c, t);
    if t.Node? {
      Regroup3(Before(c), Keys(t.left), t.key, Keys(t.right), After(c));
    }
  }

  // ---------- the red-black conditions ----------

  function ColourOf<N, K>(t: Tree<N, K>): Colour {
    if t.Leaf? then Black else t.colour
  }

  function Weight(col: Colour): nat {
    if col == Black then 1 else 0
  }

  function BlackHeight<N, K>(t: Tree<N, K>): nat {
    match t
    case Leaf => 0
    case Node(l, _, _, col, _) => BlackHeight(l) + Weight(col)
  }

  // No red node has a red child, and every path down has the same number of black nodes.
  predicate RedBlack<N, K>(t: Tree<N, K>) {
    match t
    case Leaf => true
    case Node(l, _, _, col, r) =>
      && RedBlack(l) && RedBlack(r)
      && BlackHeight(l) == BlackHeight(r)
      && (col == Red ==> ColourOf(l) == Black && ColourOf(r) == Black)
  }

  predicate IsRedBlackTree<N, K>(t: Tree<N, K>) {
    RedBlack(t) && ColourOf(t) == Black
  }

  function ParentColour<N, K>(c: Ctx<N, K>): Colour {
    if c.Top? then Black else c.colour
  }

  // The surroundings meet the conditions when the hole is filled with a black
  // root of black height h; a red root only clashes with a red parent.
  predicate Fits<N, K>(c: Ctx<N, K>, h: nat)
    decreases c
  {
    !c.Top? ==>
      && RedBlack(c.sib) && BlackHeight(c.sib) == h
      && (c.colour == Red ==> ColourOf(c.sib) == Black && ParentColour(c.up) == Black)
      && (c.up.Top? ==> c.colour == Black)
      && Fits(c.up, h + Weight(c.colour))
  }

  // t may be put into the hole of c.
  predicate Joins<N, K>(c: Ctx<N, K>, t: Tree<N, K>) {
    && RedBlack(t) && Fits(c, BlackHeight(t))
    && (c.Top? || ParentColour(c) == Red ==> ColourOf(t) == Black)
  }

  // Filling a fitting hole gives a red-black tree, and only then.
  lemma {:induction false} JoinsIffRedBlack<N, K>(c: Ctx<N, K>, t: Tree<N, K>)
    ensures Joins(c, t) <==> IsRedBlackTree(Plug(c, t))
    decreases c
  {
    match c
    case Top =>
    case InLeft(n, k, col, sib, up) =>
      JoinsIffRedBlack(up, Node(t, n, k, col, sib));
    case InRight(n, k, col, sib, up) =>
      JoinsIffRedBlack(up, Node(sib, n, k, col, t));
  }

  function Paint<N, K>(t: Tree<N, K>, col: Colour): Tree<N, K> {
    if t.Leaf? then t else t.(colour := col)
  }

  function RotateLeft<N, K>(t: Tree<N, K>): Tree<N, K>
    requires t.Node? && t.right.Node?
  {
    var Node(a, x, xk, xc, Node(b, y, yk, yc, d)) := t;
    Node(Node(a, x, xk, xc, b), y, yk, yc, d)
  }

  function RotateRight<N, K>(t: Tree<N, K>): Tree<N, K>
    requires t.Node? && t.left.Node?
  {
    var Node(Node(a, x, xk, xc, b), y, yk, yc, d) := t;
    Node(a, x, xk, xc, Node(b, y, yk, yc, d))
  }

  lemma {:induction false} Regroup2<K>(a: seq<K>, x: K, b: seq<K>, y: K, d: seq<K>)
    ensures a + [x] + (b + [y] + d) == (a + [x] + b) + [y] + d
  {
  }

  lemma {:induction false} RotationKeepsKeys<N, K>(t: Tree<N, K>)
    requires t.Node?
    ensures t.right.Node? ==> Keys(RotateLeft(t)) == Keys(t) && RotateRight(RotateLeft(t)) == t
    ensures t.left.Node? ==> Keys(RotateRight(t)) == Keys(t) && RotateLeft(RotateRight(t)) == t
  {
  }

  // ---------- insertion repair ----------

  // What the insertion loop keeps: the only clash is the red focus under a red parent.
  predicate InsertPending<N, K>(c: Ctx<N, K>, t: Tree<N, K>) {
    t.Node? && t.colour == Red && RedBlack(t) && Fits(c, BlackHeight(t))
  }

  // One iteration of the insertion loop (parent red, hence a grandparent).
  function InsertStep<N, K>(c: Ctx<N, K>, t: Tree<N, K>): (Ctx<N, K>, Tree<N, K>)
    requires t.Node? && !c.Top? && !c.up.Top?
  {
    var g := c.up;
    if g.InLeft? then
      var parent := if c.InLeft? then Node(t, c.n, c.key, Black, c.sib) else Node(c.sib, c.n, c.key, Black, t);
      if ColourOf(g.sib) == Red then
        (g.up, Node(parent, g.n, g.key, Red, Paint(g.sib, Black)))
      else if c.InLeft? then
        (InLeft(c.n, c.key, Black, Node(c.sib, g.n, g.key, Red, g.sib), g.up), t)
      else
        (InLeft(t.n, t.key, Black, Node(t.right, g.n, g.key, Red, g.sib), g.up),
         Node(c.sib, c.n, c.key, c.colour, t.left))
    else
      var parent := if c.InLeft? then Node(t, c.n, c.key, Black, c.sib) else Node(c.sib, c.n, c.key, Black, t);
      if ColourOf(g.sib) == Red then
        (g.up, Node(Paint(g.sib, Black), g.n, g.key, Red, parent))
      else if c.InRight? then
        (InRight(c.n, c.key, Black, Node(g.sib, g.n, g.key, Red, c.sib), g.up), t)
      else
        (InRight(t.n, t.key, Black, Node(g.sib, g.n, g.key, Red, t.left), g.up),
         Node(t.right, c.n, c.key, c.colour, c.sib))
  }

  function Depth<N, K>(c: Ctx<N, K>): nat {
    if c.Top? then 0 else 1 + Depth(c.up)
  }

  lemma {:induction false} InsertStepKeeps<N, K>(c: Ctx<N, K>, t: Tree<N, K>)
    requires InsertPending(c, t) && ParentColour(c) == Red
    ensures !c.Top? && !c.up.Top?
    ensures var (c', t') := InsertStep(c, t);
            && InsertPending(c', t')
            && Depth(c') < Depth(c)
  {
    var g := c.up;
    var (c', t') := InsertStep(c, t);
    assert Fits(g, BlackHeight(t));
    assert Fits(g.up, BlackHeight(t) + 1);
    if ColourOf(g.sib) == Red {
      assert RedBlack(Paint(g.sib, Black));
    }
  }

  // When the insertion loop stops, blackening the root gives a red-black tree.
  lemma {:induction false} InsertDone<N, K>(c: Ctx<N, K>, t: Tree<N, K>)
    requires InsertPending(c, t) && ParentColour(c) == Black
    ensures Plug(c, t).Node? && IsRedBlackTree(Paint(Plug(c, t), Black))
    ensures Keys(Paint(Plug(c, t), Black)) == Keys(Plug(c, t))
  {
    if !c.Top? {
      JoinsIffRedBlack(c, t);
    }
    PlugKeys(c, t);
  }

  lemma {:induction false} InsertStepKeepsKeys<N, K>(c: Ctx<N, K>, t: Tree<N, K>)
    requires t.Node? && !c.Top? && !c.up.Top?
    ensures var (c', t') := InsertStep(c, t); Keys(Plug(c', t')) == Keys(Plug(c, t))
  {
    var g := c.up;
    var (c', t') := InsertStep(c, t);
    var s, s' := FillTwo(c, t), if ColourOf(g.sib) == Red then t' else FillOne(c', t');
    assert Keys(s') == Keys(s) by {
      if g.InLeft? {
        if c.InLeft? {
          Regroup2(Keys(t), c.key, Keys(c.sib), g.key, Keys(g.sib));
        } else {
          Regroup2(Keys(c.sib), c.key, Keys(t), g.key, Keys(g.sib));
          Regroup2(Keys(c.sib), c.key, Keys(t.left), t.key, Keys(t.right));
          Regroup2(Keys(c.sib) + [c.key] + Keys(t.left), t.key, Keys(t.right), g.key, Keys(g.sib));
        }
      } else {
        if c.InRight? {
          Regroup2(Keys(g.sib), g.key, Keys(c.sib), c.key, Keys(t));
        } else {
          Regroup2(Keys(g.sib), g.key, Keys(t), c.key, Keys(c.sib));
          Regroup2(Keys(t.left), t.key, Keys(t.right), c.key, Keys(c.sib));
          Regroup2(Keys(g.sib), g.key, Keys(t.left), t.key, Keys(t.right) + [c.key] + Keys(c.sib));
        }
      }
    }
    PlugKeys(g.up, s);
    PlugKeys(g.up, s');
  }

  function FillOne<N, K>(c: Ctx<N, K>, t: Tree<N, K>): Tree<N, K>
    requires !c.Top?
  {
    if c.InLeft? then Node(t, c.n, c.key, c.colour, c.sib) else Node(c.sib, c.n, c.key, c.colour, t)
  }

  function FillTwo<N, K>(c: Ctx<N, K>, t: Tree<N, K>): Tree<N, K>
    requires !c.Top? && !c.up.Top?
  {
    FillOne(c.up, FillOne(c, t))
  }

  // ---------- deletion repair ----------

  // What the deletion loop keeps: the hole is one black level short, which
  // painting a red focus black would mend.
  predicate DeletePending<N, K>(c: Ctx<N, K>, t: Tree<N, K>) {
    RedBlack(Paint(t, Black)) && Fits(c, BlackHeight(t) + 1)
  }

  // First part of an iteration: a red sibling is rotated above the parent.
  function BlackSibling<N, K>(c: Ctx<N, K>): Ctx<N, K>
    requires !c.Top? && c.sib.Node?
  {
    var w := c.sib;
    if w.colour == Black then c
    else if c.InLeft? then
      InLeft(c.n, c.key, Red, w.left, InLeft(w.n, w.key, Black, w.right, c.up))
    else
      InRight(c.n, c.key, Red, w.right, InRight(w.n, w.key, Black, w.left, c.up))
  }

  // The nodes an iteration follows without checking are there.
  predicate SiblingsThere<N, K>(c: Ctx<N, K>) {
    && !c.Top? && c.sib.Node?
    && BlackSibling(c).sib.Node?
  }

  // The far nephew of a black sibling w is made red, rotating w if it is not.
  function FarNephewRed<N, K>(left: bool, w: Tree<N, K>): Tree<N, K>
    requires w.Node? && (ColourOf(w.left) == Red || ColourOf(w.right) == Red)
  {
    if left then
      if ColourOf(w.right) == Red then w
      else
        RotateRight(Node(Paint(w.left, Black), w.n, w.key, Red, w.right))
    else
      if ColourOf(w.left) == Red then w
      else
        RotateLeft(Node(w.left, w.n, w.key, Red, Paint(w.right, Black)))
  }

  // The last rotation: the sibling replaces the parent.
  function Settle<N, K>(c: Ctx<N, K>, t: Tree<N, K>, w: Tree<N, K>): Tree<N, K>
    requires !c.Top? && w.Node?
  {
    if c.InLeft? then
      Node(Node(t, c.n, c.key, Black, w.left), w.n, w.key, c.colour, Paint(w.right, Black))
    else
      Node(Paint(w.left, Black), w.n, w.key, c.colour, Node(w.right, c.n, c.key, Black, t))
  }

  // One iteration of the deletion loop.
  function DeleteStep<N, K>(c: Ctx<N, K>, t: Tree<N, K>): (Ctx<N, K>, Tree<N, K>)
    requires SiblingsThere(c)
  {
    var c1 := BlackSibling(c);
    var w := c1.sib;
    if ColourOf(w.left) == Black && ColourOf(w.right) == Black then
      (c1.up, if c1.InLeft? then Node(t, c1.n, c1.key, c1.colour, Paint(w, Red))
              else Node(Paint(w, Red), c1.n, c1.key, c1.colour, t))
    else
      (Top, Plug(c1.up, Settle(c1, t, FarNephewRed(c1.InLeft?, w))))
  }

  // With a black sibling the first part has nothing to do.
  lemma {:induction false} StepFromBlack<N, K>(c: Ctx<N, K>, t: Tree<N, K>)
    requires SiblingsThere(c) && ColourOf(BlackSibling(c).sib) == Black
    ensures SiblingsThere(BlackSibling(c)) && DeleteStep(BlackSibling(c), t) == DeleteStep(c, t)
  {
  }

  lemma {:induction false} BlackSiblingKeeps<N, K>(c: Ctx<N, K>, t: Tree<N, K>)
    requires DeletePending(c, t) && !c.Top? && ColourOf(t) == Black
    ensures SiblingsThere(c)
    ensures DeletePending(BlackSibling(c), t) && ColourOf(BlackSibling(c).sib) == Black
    ensures c.sib.colour == Red ==> BlackSibling(c).colour == Red && Depth(BlackSibling(c)) == Depth(c) + 1
  {
  }

  // Each iteration keeps the invariant; it moves up, or moves to a red focus
  // (which ends the loop), or finishes at the root.
  lemma {:induction false} DeleteStepKeeps<N, K>(c: Ctx<N, K>, t: Tree<N, K>)
    requires DeletePending(c, t) && !c.Top? && ColourOf(t) == Black
    ensures SiblingsThere(c)
    ensures var (c', t') := DeleteStep(c, t);
            && DeletePending(c', t')
            && (Depth(c') < Depth(c) || (Depth(c') == Depth(c) && ColourOf(t') == Red))
  {
    BlackSiblingKeeps(c, t);
    var c1 := BlackSibling(c);
    var w := c1.sib;
    if ColourOf(w.left) == Black && ColourOf(w.right) == Black {
      PushUpKeeps(c1, t);
    } else {
      SettleJoins(c1, t);
      JoinsIffRedBlack(c1.up, Settle(c1, t, FarNephewRed(c1.InLeft?, w)));
    }
  }

  lemma {:induction false} PushUpKeeps<N, K>(c: Ctx<N, K>, t: Tree<N, K>)
    requires DeletePending(c, t) && !c.Top? && ColourOf(t) == Black && c.sib.Node? && c.sib.colour == Black
    requires ColourOf(c.sib.left) == Black && ColourOf(c.sib.right) == Black
    ensures DeletePending(c.up, if c.InLeft? then Node(t, c.n, c.key, c.colour, Paint(c.sib, Red))
                                else Node(Paint(c.sib, Red), c.n, c.key, c.colour, t))
  {
  }

  lemma {:induction false} SettleJoins<N, K>(c: Ctx<N, K>, t: Tree<N, K>)
    requires DeletePending(c, t) && !c.Top? && ColourOf(t) == Black && c.sib.Node? && c.sib.colour == Black
    requires ColourOf(c.sib.left) == Red || ColourOf(c.sib.right) == Red
    ensures Joins(c.up, Settle(c, t, FarNephewRed(c.InLeft?, c.sib)))
  {
    var w := c.sib;
    assert RedBlack(w) && RedBlack(w.left) && RedBlack(w.right);
    assert BlackHeight(w.left) == BlackHeight(t) == BlackHeight(w.right);
    assert Fits(c.up, BlackHeight(t) + 1 + Weight(c.colour));
    if c.InLeft? {
      if ColourOf(w.right) == Black {
        var v := w.left;
        assert BlackHeight(v.right) == BlackHeight(v.left) == BlackHeight(t);
        assert RedBlack(Node(v.right, w.n, w.key, Black, w.right));
        assert RedBlack(Node(t, c.n, c.key, Black, v.left));
      } else {
        assert RedBlack(Paint(w.right, Black));
        assert RedBlack(Node(t, c.n, c.key, Black, w.left));
      }
    } else {
      if ColourOf(w.left) == Black {
        var v := w.right;
        assert BlackHeight(v.right) == BlackHeight(v.left) == BlackHeight(t);
        assert RedBlack(Node(w.left, w.n, w.key, Black, v.left));
        assert RedBlack(Node(v.right, c.n, c.key, Black, t));
      } else {
        assert RedBlack(Paint(w.left, Black));
        assert RedBlack(Node(w.right, c.n, c.key, Black, t));
      }
    }
  }

  lemma {:induction false} BlackSiblingKeepsKeys<N, K>(c: Ctx<N, K>, t: Tree<N, K>)
    requires SiblingsThere(c)
    ensures Keys(Plug(BlackSibling(c), t)) == Keys(Plug(c, t))
  {
    var c1 := BlackSibling(c);
    var w := c.sib;
    if w.colour == Red {
      if c.InLeft? {
        Regroup2(Keys(t), c.key, Keys(w.left), w.key, Keys(w.right));
      } else {
        Regroup2(Keys(w.left), w.key, Keys(w.right), c.key, Keys(t));
      }
      PlugKeys(c.up, FillOne(c, t));
      PlugKeys(c.up, FillTwo(c1, t));
    }
  }

  lemma {:induction false} SettleKeepsKeys<N, K>(c: Ctx<N, K>, t: Tree<N, K>)
    requires !c.Top? && c.sib.Node?
    requires ColourOf(c.sib.left) == Red || ColourOf(c.sib.right) == Red
    ensures Keys(Plug(c.up, Settle(c, t, FarNephewRed(c.InLeft?, c.sib)))) == Keys(Plug(c, t))
  {
    var w := c.sib;
    var far := FarNephewRed(c.InLeft?, w);
    assert Keys(far) == Keys(w) by {
      if c.InLeft? && ColourOf(w.right) == Black {
        Regroup2(Keys(w.left.left), w.left.key, Keys(w.left.right), w.key, Keys(w.right));
      } else if c.InRight? && ColourOf(w.left) == Black {
        Regroup2(Keys(w.left), w.key, Keys(w.right.left), w.right.key, Keys(w.right.right));
      }
    }
    if c.InLeft? {
      Regroup2(Keys(t), c.key, Keys(far.left), far.key, Keys(far.right));
    } else {
      Regroup2(Keys(far.left), far.key, Keys(far.right), c.key, Keys(t));
    }
    PlugKeys(c.up, FillOne(c, t));
    PlugKeys(c.up, Settle(c, t, far));
  }

  lemma {:induction false} DeleteStepKeepsKeys<N, K>(c: Ctx<N, K>, t: Tree<N, K>)
    requires SiblingsThere(c)
    ensures var (c', t') := DeleteStep(c, t); Keys(Plug(c', t')) == Keys(Plug(c, t))
  {
    BlackSiblingKeepsKeys(c, t);
    var c1 := BlackSibling(c);
    var (c', t') := DeleteStep(c, t);
    var w := c1.sib;
    if ColourOf(w.left) == Black && ColourOf(w.right) == Black {
      PlugKeys(c1.up, FillOne(c1, t));
      PlugKeys(c1.up, t');
    } else {
      SettleKeepsKeys(c1, t);
    }
  }

  // The node an iteration ends on, when it does not end at the root, is there.
  lemma {:induction false} DeleteStepFocus<N, K>(c: Ctx<N, K>, t: Tree<N, K>)
    requires SiblingsThere(c)
    ensures DeleteStep(c, t).1.Node?
  {
    var c1 := BlackSibling(c);
    var w := c1.sib;
    if ColourOf(w.left) == Red || ColourOf(w.right) == Red {
      PlugNode(c1.up, Settle(c1, t, FarNephewRed(c1.InLeft?, w)));
    }
  }

  lemma {:induction false} PlugNode<N, K>(c: Ctx<N, K>, t: Tree<N, K>)
    requires t.Node?
    ensures Plug(c, t).Node?
    decreases c
  {
    if !c.Top? {
      PlugNode(c.up, FillOne(c, t));
    }
  }

  // When the deletion loop stops, blackening the focus gives a red-black tree.
  lemma {:induction false} DeleteDone<N, K>(c: Ctx<N, K>, t: Tree<N, K>)
    requires DeletePending(c, t) && (c.Top? || ColourOf(t) == Red)
    ensures IsRedBlackTree(Plug(c, Paint(t, Black)))
    ensures Keys(Plug(c, Paint(t, Black))) == Keys(Plug(c, t))
  {
    JoinsIffRedBlack(c, Paint(t, Black));
    PlugKeys(c, t);
    PlugKeys(c, Paint(t, Black));
  }

  // Taking out a node with at most one child: a black one leaves a hole one
  // level short, a red one leaves a red-black tree.
  lemma {:induction false} SpliceStarts<N, K>(c: Ctx<N, K>, t: Tree<N, K>)
    requires Joins(c, t) && t.Node? && (t.left.Leaf? || t.right.Leaf?)
    ensures var x := OnlyChild(t);
            if t.colour == Black then DeletePending(c, x) else Joins(c, x)
  {
    var x := OnlyChild(t);
    assert RedBlack(x) && BlackHeight(x) == BlackHeight(t.left) == BlackHeight(t.right) == 0;
    if x.Node? {
      assert x.colour == Red && RedBlack(x.left) && RedBlack(x.right);
    }
  }

  // ---------- replacing a key on the path ----------

  // The context with the key of the path node z replaced.
  ghost function ReKey<N, K>(c: Ctx<N, K>, z: N, k: K): Ctx<N, K>
    decreases c
  {
    match c
    case Top => Top
    case InLeft(n, ck, col, sib, up) =>
      if n == z then InLeft(n, k, col, sib, up) else InLeft(n, ck, col, sib, ReKey(up, z, k))
    case InRight(n, ck, col, sib, up) =>
      if n == z then InRight(n, k, col, sib, up) else InRight(n, ck, col, sib, ReKey(up, z, k))
  }

  lemma {:induction false} ReKeyKeepsParent<N, K>(c: Ctx<N, K>, z: N, k: K)
    ensures ParentColour(ReKey(c, z, k)) == ParentColour(c) && ReKey(c, z, k).Top? == c.Top?
  {
  }

  lemma {:induction false} ReKeyKeepsFit<N, K>(c: Ctx<N, K>, z: N, k: K, h: nat)
    ensures Fits(ReKey(c, z, k), h) <==> Fits(c, h)
    decreases c
  {
    if !c.Top? {
      ReKeyKeepsParent(c.up, z, k);
      if c.n != z {
        ReKeyKeepsFit(c.up, z, k, h + Weight(c.colour));
      }
    }
  }

  lemma {:induction false} ReKeyKeepsPending<N, K>(c: Ctx<N, K>, t: Tree<N, K>, z: N, k: K)
    ensures DeletePending(ReKey(c, z, k), t) == DeletePending(c, t)
    ensures Joins(ReKey(c, z, k), t) == Joins(c, t)
  {
    ReKeyKeepsParent(c, z, k);
    ReKeyKeepsFit(c, z, k, BlackHeight(t));
    ReKeyKeepsFit(c, z, k, BlackHeight(t) + 1);
  }

  // c is reached from d by going left only, not passing z.
  ghost predicate LeftSpine<N, K>(c: Ctx<N, K>, d: Ctx<N, K>, z: N)
    decreases c
  {
    c == d || (c.InLeft? && c.n != z && LeftSpine(c.up, d, z))
  }

  // When the hole is the first place right of z, giving z the key k changes
  // just the last key before the hole.
  lemma {:induction false} ReKeyKeys<N, K>(c: Ctx<N, K>, d: Ctx<N, K>, k: K)
    requires d.InRight? && LeftSpine(c, d, d.n)
    ensures Before(c) == Before(d.up) + Keys(d.sib) + [d.key]
    ensures Before(ReKey(c, d.n, k)) == Before(d.up) + Keys(d.sib) + [k]
    ensures After(ReKey(c, d.n, k)) == After(c)
    decreases c
  {
    if c != d {
      ReKeyKeys(c.up, d, k);
    }
  }

  function OnlyChild<N, K>(t: Tree<N, K>): Tree<N, K>
    requires t.Node?
  {
    if t.left.Node? then t.left else t.right
  }

  // What taking a node out leaves, when it has at most one child ...
  lemma {:induction false} SplicedKeys<N, K>(c: Ctx<N, K>, t: Tree<N, K>)
    requires t.Node? && (t.left.Leaf? || t.right.Leaf?)
    ensures Keys(Plug(c, OnlyChild(t))) == Before(c) + Keys(t.left) + (Keys(t.right) + After(c))
  {
    PlugKeys(c, OnlyChild(t));
  }

  // ... and when its successor's node is taken out instead and the successor's
  // key moves up.
  lemma {:induction false} MovedKeys<N, K>(c: Ctx<N, K>, t: Tree<N, K>, cy: Ctx<N, K>, ty: Tree<N, K>)
    requires t.Node? && ty.Node? && ty.left.Leaf? && Plug(cy, ty) == Plug(c, t)
    requires LeftSpine(cy, InRight(t.n, t.key, t.colour, t.left, c), t.n)
    ensures Keys(Plug(ReKey(cy, t.n, ty.key), OnlyChild(ty))) == Before(c) + Keys(t.left) + (Keys(t.right) + After(c))
  {
    var d := InRight(t.n, t.key, t.colour, t.left, c);
    ReKeyKeys(cy, d, ty.key);
    KeysAround(c, t);
    KeysAround(cy, ty);
    PlugKeys(ReKey(cy, t.n, ty.key), ty.right);
    MovedSeqs(Before(c) + Keys(t.left), t.key, Keys(t.right) + After(c), ty.key, Keys(ty.right), After(cy));
  }

  lemma {:induction false} MovedSeqs<K>(a: seq<K>, k: K, b: seq<K>, y: K, d: seq<K>, e: seq<K>)
    requires (a + [k] + []) + [y] + (d + e) == a + [k] + b
    ensures (a + [y]) + d + e == a + b
  {
    var s := (a + [k] + []) + [y] + (d + e);
    assert s[|a| + 1..] == [y] + (d + e);
    assert (a + [k] + b)[|a| + 1..] == b;
    assert (a + [y]) + d + e == a + ([y] + (d + e));
  }

  // ---------- positions in the key sequence ----------

  // The position of the focused node among the keys of the whole tree.
  function Index<N, K>(c: Ctx<N, K>, t: Tree<N, K>): nat
    requires t.Node?
  {
    |Before(c)| + |Keys(t.left)|
  }

  lemma {:induction false} KeyAtIndex<N, K>(c: Ctx<N, K>, t: Tree<N, K>)
    requires t.Node?
    ensures Index(c, t) < |Keys(Plug(c, t))| && Keys(Plug(c, t))[Index(c, t)] == t.key
    ensures Keys(Plug(c, t))[..Index(c, t)] == Before(c) + Keys(t.left)
    ensures Keys(Plug(c, t))[Index(c, t) + 1..] == Keys(t.right) + After(c)
  {
    KeysAround(c, t);
    CutAt(Before(c) + Keys(t.left), t.key, Keys(t.right) + After(c));
  }

  lemma {:induction false} CutAt<K>(a: seq<K>, k: K, b: seq<K>)
    ensures (a + [k] + b)[|a|] == k && (a + [k] + b)[..|a|] == a && (a + [k] + b)[|a| + 1..] == b
  {
  }

  // The focus at position i of the subtree t.
  ghost function FocusAt<N, K>(c: Ctx<N, K>, t: Tree<N, K>, i: nat): (f: (Ctx<N, K>, Tree<N, K>))
    requires i < |Keys(t)|
    ensures f.1.Node? && Plug(f.0, f.1) == Plug(c, t) && Index(f.0, f.1) == |Before(c)| + i
    decreases t
  {
    if i < |Keys(t.left)| then FocusAt(InLeft(t.n, t.key, t.colour, t.right, c), t.left, i)
    else if i == |Keys(t.left)| then (c, t)
    else FocusAt(InRight(t.n, t.key, t.colour, t.left, c), t.right, i - |Keys(t.left)| - 1)
  }

  // A position determines the focus.
  lemma {:induction false} FocusAtPlug<N, K>(c: Ctx<N, K>, t: Tree<N, K>, i: nat)
    requires i < |Keys(t)|
    ensures |Before(c)| + i < |Keys(Plug(c, t))|
    ensures FocusAt(Top, Plug(c, t), |Before(c)| + i) == FocusAt(c, t, i)
    decreases c
  {
    PlugKeys(c, t);
    match c
    case Top =>
    case InLeft(_, _, _, _, up) =>
      FocusAtPlug(up, FillOne(c, t), i);
    case InRight(_, _, _, sib, up) =>
      FocusAtPlug(up, FillOne(c, t), |Keys(sib)| + 1 + i);
  }

  lemma {:induction false} FocusAtIndex<N, K>(c: Ctx<N, K>, t: Tree<N, K>)
    requires t.Node?
    ensures Index(c, t) < |Keys(Plug(c, t))| && FocusAt(Top, Plug(c, t), Index(c, t)) == (c, t)
  {
    var i := |Keys(t.left)|;
    assert i < |Keys(t)| && FocusAt(c, t, i) == (c, t);
    FocusAtPlug(c, t, i);
  }

  // The calls rb_walk makes on a subtree: leaves once, inner nodes three times.
  datatype Visit<K> = Visit(key: K, order: Order, level: nat)
  datatype Order = Preorder | Postorder | Endorder | LeafNode

  function Visits<N, K>(t: Tree<N, K>, level: nat): seq<Visit<K>> {
    match t
    case Leaf => []
    case Node(l, _, k, _, r) =>
      if l.Leaf? && r.Leaf? then [Visit(k, LeafNode, level)]
      else
        [Visit(k, Preorder, level)] + Visits(l, level + 1) + [Visit(k, Postorder, level)]
        + Visits(r, level + 1) + [Visit(k, Endorder, level)]
  }

  // The walk reports exactly the keys of the tree; the reports after the left
  // subtree (and those of leaves) come in key order.
  function InOrderOnly<K>(v: seq<Visit<K>>): seq<K> {
    if v == [] then []
    else (if v[0].order == Postorder || v[0].order == LeafNode then [v[0].key] else []) + InOrderOnly(v[1..])
  }

  lemma {:induction false} InOrderOnlyConcat<K>(a: seq<Visit<K>>, b: seq<Visit<K>>)
    ensures InOrderOnly(a + b) == InOrderOnly(a) + InOrderOnly(b)
  {
    if a == [] {
      assert a + b == b;
    } else {
      var head := if a[0].order == Postorder || a[0].order == LeafNode then [a[0].key] else [];
      assert (a + b)[1..] == a[1..] + b && (a + b)[0] == a[0];
      InOrderOnlyConcat(a[1..], b);
      Regrouped(head, InOrderOnly(a[1..]), InOrderOnly(b));
    }
  }

  lemma {:induction false} Regrouped<K>(a: seq<K>, b: seq<K>, c: seq<K>)
    ensures a + (b + c) == (a + b) + c
  {
  }

  lemma {:induction false} InOrderOnlyOne<K>(v: Visit<K>)
    ensures InOrderOnly([v]) == if v.order == Postorder || v.order == LeafNode then [v.key] else []
  {
  }

  lemma {:induction false} WalkReportsKeys<N, K>(t: Tree<N, K>, level: nat)
    ensures InOrderOnly(Visits(t, level)) == Keys(t)
  {
    if t.Node? {
      var (l, k, r) := (t.left, t.key, t.right);
      var (a, b, d) := (Visit(k, Preorder, level), Visit(k, Postorder, level), Visit(k, Endorder, level));
      if l.Node? || r.Node? {
        WalkReportsKeys(l, level + 1);
        WalkReportsKeys(r, level + 1);
        InnerReports(a, Visits(l, level + 1), b, Visits(r, level + 1), d);
      } else {
        InOrderOnlyOne(Visit(k, LeafNode, level));
      }
    }
  }

  lemma {:induction false} InnerReports<K>(a: Visit<K>, vl: seq<Visit<K>>, b: Visit<K>, vr: seq<Visit<K>>, d: Visit<K>)
    requires a.order == Preorder && b.order == Postorder && d.order == Endorder
    ensures InOrderOnly([a] + vl + [b] + vr + [d]) == InOrderOnly(vl) + [b.key] + InOrderOnly(vr)
  {
    var (s1, s2) := ([a] + vl, [a] + vl + [b]);
    OneReportMore(s2 + vr, d);
    InOrderOnlyConcat(s2, vr);
    OneReportMore(s1, b);
    InOrderOnlyConcat([a], vl);
    InOrderOnlyOne(a);
  }

  lemma {:induction false} OneReportMore<K>(s: seq<Visit<K>>, v: Visit<K>)
    ensures InOrderOnly(s + [v]) == InOrderOnly(s) + if v.order == Postorder || v.order == LeafNode then [v.key] else []
  {
    InOrderOnlyConcat(s, [v]);
    InOrderOnlyOne(v);
  }

  lemma {:induction false} WalkReportsOnlyKeys<N, K>(t: Tree<N, K>, level: nat)
    ensures forall v | v in Visits(t, level) :: v.key in Keys(t)
  {
    if t.Node? {
      WalkReportsOnlyKeys(t.left, level + 1);
      WalkReportsOnlyKeys(t.right, level + 1);
    }
  }

  // ---------- height ----------

  function Height<N, K>(t: Tree<N, K>): nat {
    if t.Leaf? then 0
    else 1 + if Height(t.left) > Height(t.right) then Height(t.left) else Height(t.right)
  }

  lemma {:induction false} BlackHeightBounds<N, K>(t: Tree<N, K>)
    requires RedBlack(t)
    ensures Height(t) <= 2 * BlackHeight(t) + (if ColourOf(t) == Red then 1 else 0)
    ensures Pow2(BlackHeight(t)) <= |Keys(t)| + 1
  {
    if t.Node? {
      BlackHeightBounds(t.left);
      BlackHeightBounds(t.right);
    }
  }

  // The longest path has at most 2 * log2(n + 1) nodes.
  lemma {:induction false} HeightIsLogarithmic<N, K>(t: Tree<N, K>)
    requires IsRedBlackTree(t)
    ensures Pow2((Height(t) + 1) / 2) <= |Keys(t)| + 1
  {
    BlackHeightBounds(t);
    Pow2Monotone((Height(t) + 1) / 2, BlackHeight(t));
  }

  // A node is reported at its depth, first of its subtree as preorder and last as
  // endorder.
  lemma {:induction false} ReportLevels<N, K>(t: Tree<N, K>, level: nat)
    ensures forall v | v in Visits(t, level) :: level <= v.level < level + Height(t)
    ensures forall v | v in Visits(t, level) :: v.level == level ==> t.Node? && v.key == t.key
    ensures t.Node? && (t.left.Node? || t.right.Node?) ==>
              var s := Visits(t, level);
              s[0] == Visit(t.key, Preorder, level) && s[|s| - 1] == Visit(t.key, Endorder, level)
  {
    if t.Node? {
      ReportLevels(t.left, level + 1);
      ReportLevels(t.right, level + 1);
    }
  }
}
