/** `insert_fixup`: the loop that repairs a red-red edge after an insertion. */
module RbInsert {
  import opened RbShape
  import opened RbLinks

  predicate IsRedAt(mem: Memory, node: Ref)
    requires node == NULL || node in mem
  {
    node != NULL && mem[node].red
  }

  /** The loop invariant on shapes: the focus is red and its own subtree is in order; the
      only possible fault is a red parent of the focus. */
  predicate InsertInv(c: Ctx, t: Tree) {
    && t.Node? && t.red && RedOk(t) && Balanced(t)
    && CtxBalanced(c, BlackHeight(t)) && CtxRedOk(c, false) && CtxRootBlack(c)
  }

  /** `(c', t')` holds the same nodes in the same order as `(c, t)`. */
  ghost predicate SameContents(c: Ctx, t: Tree, c': Ctx, t': Tree) {
    && Inorder(Plug(c', t')) == Inorder(Plug(c, t))
    && Refs(t') + CtxRefs(c') == Refs(t) + CtxRefs(c)
  }

  function Depth(c: Ctx): nat {
    if c.Top? then 0 else 1 + Depth(c.up)
  }

  /** Pushes the blackness of `g` down to its two children. */
  function Recoloured(g: Tree): Tree {
    if g.Node? then g.(red := true, left := Paint(g.left, false), right := Paint(g.right, false)) else g
  }

  lemma PlugCongruent(c: Ctx, t: Tree, t': Tree)
    requires Inorder(t) == Inorder(t')
    ensures Inorder(Plug(c, t)) == Inorder(Plug(c, t'))
  {
    InorderPlug(c, t);
    InorderPlug(c, t');
  }

  lemma PaintSame(t: Tree, red: bool)
    ensures Inorder(Paint(t, red)) == Inorder(t) && Refs(Paint(t, red)) == Refs(t)
    ensures Balanced(Paint(t, red)) == Balanced(t)
  {}

  lemma RecolourStep(c: Ctx, t: Tree)
    requires InsertInv(c, t) && !c.Top? && c.red && !c.up.Top? && IsRed(c.up.sibling)
    ensures var g := Zip(c.up, Zip(c, t));
      InsertInv(c.up.up, Recoloured(g)) && SameContents(c, t, c.up.up, Recoloured(g))
  {
    var p, g := Zip(c, t), Zip(c.up, Zip(c, t));
    PaintSame(p, false);
    PaintSame(c.up.sibling, false);
    assert CtxRootBlack(c.up) && CtxRedOk(c.up, true) && CtxBalanced(c.up, BlackHeight(t));
    assert Balanced(Paint(p, false)) && RedOk(Paint(p, false));
    assert Inorder(Recoloured(g)) == Inorder(g) && Refs(Recoloured(g)) == Refs(g);
    PlugCongruent(c.up.up, g, Recoloured(g));
    assert Refs(p) == Refs(t) + {c.ref} + Refs(c.sibling);
  }

  /** Where the focus is after turning an inner grandchild into an outer one. */
  function Inner(c: Ctx, t: Tree): (Ctx, Tree)
    requires !c.Top? && t.Node?
  {
    if c.InRight? then
      (InLeft(c.up, t.ref, t.item, t.red, t.right), Node(c.sibling, c.ref, c.item, c.red, t.left))
    else
      (InRight(c.up, t.left, t.ref, t.item, t.red), Node(t.right, c.ref, c.item, c.red, c.sibling))
  }

  lemma InnerStep(c: Ctx, t: Tree)
    requires InsertInv(c, t) && !c.Top? && c.red && !c.up.Top?
    ensures var (c', t') := Inner(c, t);
      && InsertInv(c', t') && c'.red && c'.up == c.up && SameContents(c, t, c', t')
      && Zip(c', t') == if c.InRight? then RotatedLeft(Zip(c, t)) else RotatedRight(Zip(c, t))
  {
    var (c', t') := Inner(c, t);
    if c.InRight? {
      RotatedLeftInorder(Zip(c, t));
    } else {
      RotatedRightInorder(Zip(c, t));
    }
    PlugCongruent(c.up, Zip(c, t), Zip(c', t'));
  }

  /** The grandparent subtree, recoloured and about to be rotated. */
  function Outer(c: Ctx, t: Tree): Tree
    requires !c.Top? && !c.up.Top?
  {
    Paint(Zip(c.up, Paint(Zip(c, t), false)), true)
  }

  lemma OuterStep(c: Ctx, t: Tree)
    requires InsertInv(c, t) && !c.Top? && c.red && !c.up.Top? && !IsRed(c.up.sibling)
    requires c.InLeft? <==> c.up.InLeft?
    ensures var g := Outer(c, t);
      var g' := if c.InLeft? then RotatedRight(g) else RotatedLeft(g);
      var c' := if c.InLeft? then InLeft(c.up.up, g'.ref, g'.item, g'.red, g'.right)
                else InRight(c.up.up, g'.left, g'.ref, g'.item, g'.red);
      InsertInv(c', t) && !c'.red && Zip(c', t) == g' && SameContents(c, t, c', t)
  {
    var p, g := Zip(c, t), Outer(c, t);
    PaintSame(p, false);
    PaintSame(Zip(c.up, Paint(p, false)), true);
    assert Inorder(Zip(c.up, Paint(p, false))) == Inorder(Zip(c.up, p));
    assert CtxRootBlack(c.up) && CtxRedOk(c.up, true) && CtxBalanced(c.up, BlackHeight(t));
    if c.InLeft? {
      RotatedRightInorder(g);
      PlugCongruent(c.up.up, Zip(c.up, Zip(c, t)), RotatedRight(g));
    } else {
      RotatedLeftInorder(g);
      PlugCongruent(c.up.up, Zip(c.up, Zip(c, t)), RotatedLeft(g));
    }
  }

  // ---------------------------------------------------------------- the loop on links

  /** What the loop reads at the parent and grandparent of a focused node. */
  lemma ReadAround(mem: Memory, root: Ref, c: Ctx, t: Tree)
    requires At(mem, root, c, t) && t.Node? && !c.Top? && !c.up.Top?
    ensures var p, g := c.ref, c.up.ref;
      && t.ref in mem && mem[t.ref].parent == p && p in mem && mem[p].parent == g && g in mem && p != NULL
      && (mem[p].left == t.ref <==> c.InLeft?) && (mem[p].right == t.ref <==> c.InRight?)
      && mem[p].red == c.red && (mem[g].left == p <==> c.up.InLeft?)
      && (c.up.InLeft? ==> mem[g].right == Root(c.up.sibling))
      && (c.up.InRight? ==> mem[g].left == Root(c.up.sibling))
      && (c.up.sibling.Node? ==> c.up.sibling.ref in mem && mem[c.up.sibling.ref].red == c.up.sibling.red)
      && (c.up.sibling.Leaf? ==> Root(c.up.sibling) == NULL)
  {
    FocusFacts(mem, root, c, t);
    MoveUp(mem, root, c, t);
    FocusFacts(mem, root, c.up, Zip(c, t));
  }

  /** One iteration when the parent is a left child. */
  method FixLeft(mem0: Memory, root0: Ref, nodex0: Ref, ghost c: Ctx, ghost t: Tree)
    returns (mem: Memory, root: Ref, nodex: Ref, ghost c': Ctx, ghost t': Tree)
    requires At(mem0, root0, c, t) && InsertInv(c, t) && nodex0 == Root(t)
    requires !c.Top? && c.red && c.up.InLeft?
    ensures At(mem, root, c', t') && InsertInv(c', t') && nodex == Root(t')
    ensures SameContents(c, t, c', t') && Depth(c') < Depth(c) && Items(mem) == Items(mem0)
  {
    mem, root, nodex, c', t' := mem0, root0, nodex0, c, t;
    ReadAround(mem, root, c, t);
    var parent := mem[nodex].parent;
    var gparent := mem[parent].parent;
    var nodey := mem[gparent].right;
    if IsRedAt(mem, nodey) {
      ghost var g := Zip(c.up, Zip(c, t));
      MoveUp(mem, root, c, t);
      MoveUp(mem, root, c.up, Zip(c, t));
      mem := PaintRight(mem, nodey, false, root, c.up.up, g);
      mem := PaintLeft(mem, parent, false, root, c.up.up, g.(right := Paint(g.right, false)));
      mem := SetColour(mem, gparent, true, root, c.up.up, g.(left := Paint(g.left, false), right := Paint(g.right, false)));
      RecolourStep(c, t);
      nodex, c', t' := gparent, c.up.up, Recoloured(g);
    } else {
      if nodex == mem[parent].right {
        nodex := parent;
        MoveUp(mem, root, c', t');
        mem, root := RotateLeft(mem, root, nodex, c'.up, Zip(c', t'));
        InnerStep(c', t');
        c', t' := Inner(c', t').0, Inner(c', t').1;
        MoveDown(mem, root, c'.up, Zip(c', t'));
      }
      ReadAround(mem, root, c', t');
      parent := mem[nodex].parent;
      gparent := mem[parent].parent;
      MoveUp(mem, root, c', t');
      MoveUp(mem, root, c'.up, Zip(c', t'));
      mem := PaintLeft(mem, parent, false, root, c'.up.up, Zip(c'.up, Zip(c', t')));
      mem := SetColour(mem, gparent, true, root, c'.up.up, Zip(c'.up, Paint(Zip(c', t'), false)));
      mem, root := RotateRight(mem, root, gparent, c'.up.up, Outer(c', t'));
      OuterStep(c', t');
      ghost var g := RotatedRight(Outer(c', t'));
      MoveDown(mem, root, c'.up.up, g);
      c' := InLeft(c'.up.up, g.ref, g.item, g.red, g.right);
    }
  }

  /** One iteration when the parent is a right child. */
  method FixRight(mem0: Memory, root0: Ref, nodex0: Ref, ghost c: Ctx, ghost t: Tree)
    returns (mem: Memory, root: Ref, nodex: Ref, ghost c': Ctx, ghost t': Tree)
    requires At(mem0, root0, c, t) && InsertInv(c, t) && nodex0 == Root(t)
    requires !c.Top? && c.red && c.up.InRight?
    ensures At(mem, root, c', t') && InsertInv(c', t') && nodex == Root(t')
    ensures SameContents(c, t, c', t') && Depth(c') < Depth(c) && Items(mem) == Items(mem0)
  {
    mem, root, nodex, c', t' := mem0, root0, nodex0, c, t;
    ReadAround(mem, root, c, t);
    var parent := mem[nodex].parent;
    var gparent := mem[parent].parent;
    var nodey := mem[gparent].left;
    if IsRedAt(mem, nodey) {
      ghost var g := Zip(c.up, Zip(c, t));
      MoveUp(mem, root, c, t);
      MoveUp(mem, root, c.up, Zip(c, t));
      mem := PaintLeft(mem, nodey, false, root, c.up.up, g);
      mem := PaintRight(mem, parent, false, root, c.up.up, g.(left := Paint(g.left, false)));
      mem := SetColour(mem, gparent, true, root, c.up.up, g.(left := Paint(g.left, false), right := Paint(g.right, false)));
      RecolourStep(c, t);
      nodex, c', t' := gparent, c.up.up, Recoloured(g);
    } else {
      if nodex == mem[parent].left {
        nodex := parent;
        MoveUp(mem, root, c', t');
        mem, root := RotateRight(mem, root, nodex, c'.up, Zip(c', t'));
        InnerStep(c', t');
        c', t' := Inner(c', t').0, Inner(c', t').1;
        MoveDown(mem, root, c'.up, Zip(c', t'));
      }
      ReadAround(mem, root, c', t');
      parent := mem[nodex].parent;
      gparent := mem[parent].parent;
      MoveUp(mem, root, c', t');
      MoveUp(mem, root, c'.up, Zip(c', t'));
      mem := PaintRight(mem, parent, false, root, c'.up.up, Zip(c'.up, Zip(c', t')));
      mem := SetColour(mem, gparent, true, root, c'.up.up, Zip(c'.up, Paint(Zip(c', t'), false)));
      mem, root := RotateLeft(mem, root, gparent, c'.up.up, Outer(c', t'));
      OuterStep(c', t');
      ghost var g := RotatedLeft(Outer(c', t'));
      MoveDown(mem, root, c'.up.up, g);
      c' := InRight(c'.up.up, g.left, g.ref, g.item, g.red);
    }
  }

  /** The whole loop.  It ends with a red-black tree that has the same contents. */
  method InsertFixup(mem0: Memory, root0: Ref, nodex0: Ref, ghost c0: Ctx, ghost t0: Tree)
    returns (mem: Memory, root: Ref, ghost shape: Tree)
    requires At(mem0, root0, c0, t0) && InsertInv(c0, t0) && nodex0 == Root(t0)
    ensures At(mem, root, Top, shape) && RedBlack(shape) && Items(mem) == Items(mem0)
    ensures Inorder(shape) == Inorder(Plug(c0, t0)) && Refs(shape) == Refs(t0) + CtxRefs(c0)
  {
    mem, root := mem0, root0;
    var nodex := nodex0;
    ghost var c, t := c0, t0;
    FocusFacts(mem, root, c, t);
    while nodex != root && IsRedAt(mem, mem[nodex].parent)
      invariant At(mem, root, c, t) && InsertInv(c, t) && nodex == Root(t) && nodex in mem
      invariant mem[nodex].parent == Parent(c) && (nodex == root <==> c.Top?)
      invariant !c.Top? ==> c.ref != NULL && c.ref in mem && mem[c.ref].red == c.red
      invariant SameContents(c0, t0, c, t) && Items(mem) == Items(mem0)
      decreases Depth(c)
    {
      MoveUp(mem, root, c, t);
      FocusFacts(mem, root, c.up, Zip(c, t));
      var parent := mem[nodex].parent;
      if parent == mem[mem[parent].parent].left {
        mem, root, nodex, c, t := FixLeft(mem, root, nodex, c, t);
      } else {
        mem, root, nodex, c, t := FixRight(mem, root, nodex, c, t);
      }
      FocusFacts(mem, root, c, t);
    }
    if !c.Top? {
      PlugRedBlack(c, t);
    }
    MoveToTop(mem, root, c, t);
    shape := Paint(Plug(c, t), false);
    PaintSame(Plug(c, t), false);
    mem := SetColour(mem, root, false, root, Top, Plug(c, t));
  }
}
