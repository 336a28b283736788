/** `remove_fixup`: the loop that pushes a missing black node up the tree. */
module RbRemove {
  import opened RbShape
  import opened RbLinks
  import opened RbInsert

  /** The loop invariant on shapes: the subtree in focus is one black node short; it is in
      order once its root is painted black. */
  predicate RemoveInv(c: Ctx, t: Tree) {
    && Balanced(t) && RedOk(Paint(t, false))
    && CtxBalanced(c, BlackHeight(t) + 1) && CtxRedOk(c, false) && CtxRootBlack(c)
  }

  /** How much of the loop is left: nothing once the focus is red. */
  function Work(c: Ctx, t: Tree): nat {
    if IsRed(t) then 0 else 1 + Depth(c)
  }

  /** A subtree that is short of a black node and is not the root has a sibling to borrow
      from, even when the subtree is empty. */
  lemma HasSibling(c: Ctx, t: Tree)
    requires RemoveInv(c, t) && !c.Top?
    ensures c.sibling.Node?
    ensures c.sibling.red ==> !c.red && c.sibling.left.Node? && c.sibling.right.Node?
    ensures c.sibling.red ==> !c.sibling.left.red && !c.sibling.right.red
  {}

  // ---------------------------------------------------------------- steps on shapes

  /** A red sibling is rotated above the parent. */
  function RedSibling(c: Ctx): Ctx
    requires !c.Top? && c.sibling.Node?
  {
    var w := c.sibling;
    if c.InLeft? then
      InLeft(InLeft(c.up, w.ref, w.item, false, w.right), c.ref, c.item, true, w.left)
    else
      InRight(InRight(c.up, w.left, w.ref, w.item, false), w.right, c.ref, c.item, true)
  }

  lemma RedSiblingStep(c: Ctx, t: Tree)
    requires RemoveInv(c, t) && !c.Top? && IsRed(c.sibling)
    ensures var c' := RedSibling(c);
      && RemoveInv(c', t) && SameContents(c, t, c', t)
      && !IsRed(c'.sibling) && c'.red && Depth(c') == Depth(c) + 1
      && (c.InLeft? ==> Zip(c'.up, Zip(c', t)) == RotatedLeft(Zip(c, t).(red := true, right := Paint(c.sibling, false))))
      && (c.InRight? ==> Zip(c'.up, Zip(c', t)) == RotatedRight(Zip(c, t).(red := true, left := Paint(c.sibling, false))))
  {
    HasSibling(c, t);
    var c' := RedSibling(c);
    var p := Zip(c, t);
    var p' := if c.InLeft? then p.(red := true, right := Paint(c.sibling, false))
              else p.(red := true, left := Paint(c.sibling, false));
    assert Inorder(p') == Inorder(p);
    if c.InLeft? {
      RotatedLeftInorder(p');
    } else {
      RotatedRightInorder(p');
    }
    PlugCongruent(c.up, p, Zip(c'.up, Zip(c', t)));
  }

  function WithSibling(c: Ctx, w: Tree): Ctx {
    match c
    case Top => Top
    case InLeft(up, p, item, red, _) => InLeft(up, p, item, red, w)
    case InRight(up, _, p, item, red) => InRight(up, w, p, item, red)
  }

  /** A black sibling with black children gives up a black node and the parent is next. */
  lemma BlackSiblingStep(c: Ctx, t: Tree)
    requires RemoveInv(c, t) && !c.Top? && !IsRed(t) && c.sibling.Node? && !c.sibling.red
    requires !IsRed(c.sibling.left) && !IsRed(c.sibling.right)
    ensures var t' := Zip(WithSibling(c, Paint(c.sibling, true)), t);
      RemoveInv(c.up, t') && SameContents(c, t, c.up, t')
  {
    var c' := WithSibling(c, Paint(c.sibling, true));
    PaintSame(c.sibling, true);
    assert CtxRedOk(c.up, c.red);
    assert Paint(t, false) == t && RedOk(t) && RedOk(Paint(c.sibling, true));
    assert Inorder(Zip(c', t)) == Inorder(Zip(c, t));
    PlugCongruent(c.up, Zip(c, t), Zip(c', t));
  }

  /** The child of the sibling on the focus's side, and the one on the other side. */
  function Near(c: Ctx): Tree
    requires !c.Top? && c.sibling.Node?
  {
    if c.InLeft? then c.sibling.left else c.sibling.right
  }

  function Far(c: Ctx): Tree
    requires !c.Top? && c.sibling.Node?
  {
    if c.InLeft? then c.sibling.right else c.sibling.left
  }

  /** A red near nephew is rotated above the sibling, so that the far nephew is red. */
  function NearNephew(c: Ctx): Ctx
    requires !c.Top? && c.sibling.Node? && Near(c).Node?
  {
    var w := c.sibling;
    WithSibling(c, if c.InLeft? then RotatedRight(w.(red := true, left := Paint(w.left, false)))
                   else RotatedLeft(w.(red := true, right := Paint(w.right, false))))
  }

  lemma NearLeft(w: Tree)
    requires Balanced(w) && RedOk(w) && w.Node? && !w.red && IsRed(w.left) && !IsRed(w.right)
    ensures var w' := RotatedRight(w.(red := true, left := Paint(w.left, false)));
      && Balanced(w') && RedOk(w') && BlackHeight(w') == BlackHeight(w) && !w'.red && IsRed(w'.right)
      && Inorder(w') == Inorder(w) && Refs(w') == Refs(w)
  {
    var x, w1 := w.left, w.(red := true, left := Paint(w.left, false));
    assert Balanced(x) && RedOk(x);
    var y := Node(x.right, w.ref, w.item, true, w.right);
    assert Balanced(y) && RedOk(y) && Refs(y) == Refs(x.right) + {w.ref} + Refs(w.right);
    assert Inorder(w1) == Inorder(w) && Refs(x) == Refs(x.left) + {x.ref} + Refs(x.right);
    RotatedRightInorder(w1);
  }

  lemma NearRight(w: Tree)
    requires Balanced(w) && RedOk(w) && w.Node? && !w.red && IsRed(w.right) && !IsRed(w.left)
    ensures var w' := RotatedLeft(w.(red := true, right := Paint(w.right, false)));
      && Balanced(w') && RedOk(w') && BlackHeight(w') == BlackHeight(w) && !w'.red && IsRed(w'.left)
      && Inorder(w') == Inorder(w) && Refs(w') == Refs(w)
  {
    var x, w1 := w.right, w.(red := true, right := Paint(w.right, false));
    assert Balanced(x) && RedOk(x);
    var y := Node(w.left, w.ref, w.item, true, x.left);
    assert Balanced(y) && RedOk(y) && Refs(y) == Refs(x.left) + {w.ref} + Refs(w.left);
    assert Inorder(w1) == Inorder(w) && Refs(x) == Refs(x.left) + {x.ref} + Refs(x.right);
    RotatedLeftInorder(w1);
  }

  lemma NearNephewStep(c: Ctx, t: Tree)
    requires RemoveInv(c, t) && !c.Top? && c.sibling.Node? && !c.sibling.red
    requires IsRed(Near(c)) && !IsRed(Far(c))
    ensures var c' := NearNephew(c);
      && RemoveInv(c', t) && SameContents(c, t, c', t)
      && c'.sibling.Node? && !c'.sibling.red && IsRed(Far(c'))
  {
    var c' := NearNephew(c);
    if c.InLeft? {
      NearLeft(c.sibling);
    } else {
      NearRight(c.sibling);
    }
    assert Inorder(Zip(c', t)) == Inorder(Zip(c, t));
    PlugCongruent(c.up, Zip(c, t), Zip(c', t));
  }

  /** A red far nephew supplies the missing black node: the parent subtree before its rotation. */
  function Borrow(c: Ctx, t: Tree): Tree
    requires !c.Top? && c.sibling.Node?
  {
    var w := c.sibling;
    if c.InLeft? then
      Zip(c, t).(red := false, right := w.(red := c.red, right := Paint(w.right, false)))
    else
      Zip(c, t).(red := false, left := w.(red := c.red, left := Paint(w.left, false)))
  }

  lemma FarRight(t: Tree, ref: Ref, item: Item, red: bool, w: Tree)
    requires Balanced(w) && RedOk(w) && w.Node? && !w.red && IsRed(w.right)
    requires Balanced(t) && RedOk(t) && !IsRed(t) && BlackHeight(w) == BlackHeight(t) + 1
    requires !(red && IsRed(w))
    ensures var p := Node(t, ref, item, false, w.(red := red, right := Paint(w.right, false)));
      var t' := RotatedLeft(p);
      && Balanced(t') && RedOk(t') && BlackHeight(t') == BlackHeight(t) + (if red then 1 else 2) && IsRed(t') == red
      && Inorder(t') == Inorder(t) + [item] + Inorder(w) && Refs(t') == Refs(t) + {ref} + Refs(w)
  {
    var x, p := w.right, Node(t, ref, item, false, w.(red := red, right := Paint(w.right, false)));
    assert Balanced(x) && RedOk(x);
    var y := Node(t, ref, item, false, w.left);
    assert Balanced(y) && RedOk(y) && Refs(y) == Refs(t) + {ref} + Refs(w.left);
    PaintSame(x, false);
    assert Inorder(p.right) == Inorder(w);
    RotatedLeftInorder(p);
  }

  lemma FarLeft(t: Tree, ref: Ref, item: Item, red: bool, w: Tree)
    requires Balanced(w) && RedOk(w) && w.Node? && !w.red && IsRed(w.left)
    requires Balanced(t) && RedOk(t) && !IsRed(t) && BlackHeight(w) == BlackHeight(t) + 1
    requires !(red && IsRed(w))
    ensures var p := Node(w.(red := red, left := Paint(w.left, false)), ref, item, false, t);
      var t' := RotatedRight(p);
      && Balanced(t') && RedOk(t') && BlackHeight(t') == BlackHeight(t) + (if red then 1 else 2) && IsRed(t') == red
      && Inorder(t') == Inorder(w) + [item] + Inorder(t) && Refs(t') == Refs(t) + {ref} + Refs(w)
  {
    var x, p := w.left, Node(w.(red := red, left := Paint(w.left, false)), ref, item, false, t);
    assert Balanced(x) && RedOk(x);
    var y := Node(w.right, ref, item, false, t);
    assert Balanced(y) && RedOk(y) && Refs(y) == Refs(t) + {ref} + Refs(w.right);
    PaintSame(x, false);
    assert Inorder(p.left) == Inorder(w);
    RotatedRightInorder(p);
  }

  function Borrowed(c: Ctx, t: Tree): Tree
    requires !c.Top? && c.sibling.Node?
  {
    if c.InLeft? then RotatedLeft(Borrow(c, t)) else RotatedRight(Borrow(c, t))
  }

  lemma BorrowedTree(c: Ctx, t: Tree)
    requires RemoveInv(c, t) && !c.Top? && !IsRed(t) && c.sibling.Node? && !c.sibling.red && IsRed(Far(c))
    ensures var t' := Borrowed(c, t);
      && Balanced(t') && RedOk(t') && BlackHeight(t') == BlackHeight(t) + (if c.red then 1 else 2)
      && IsRed(t') == c.red && Inorder(t') == Inorder(Zip(c, t)) && Refs(t') == Refs(t) + {c.ref} + Refs(c.sibling)
  {
    assert Paint(t, false) == t;
    if c.InLeft? {
      FarRight(t, c.ref, c.item, c.red, c.sibling);
    } else {
      FarLeft(t, c.ref, c.item, c.red, c.sibling);
    }
  }

  lemma FarNephewStep(c: Ctx, t: Tree)
    requires RemoveInv(c, t) && !c.Top? && !IsRed(t) && c.sibling.Node? && !c.sibling.red && IsRed(Far(c))
    ensures RemoveInv(Top, Plug(c.up, Borrowed(c, t))) && SameContents(c, t, c.up, Borrowed(c, t))
  {
    BorrowedTree(c, t);
    assert CtxRedOk(c.up, c.red);
    PlugCongruent(c.up, Zip(c, t), Borrowed(c, t));
    PlugRedBlack(c.up, Borrowed(c, t));
    BlackRootOk(Plug(c.up, Borrowed(c, t)));
  }

  lemma BlackRootOk(t: Tree)
    requires RedOk(t)
    ensures RedOk(Paint(t, false))
  {}

  // ---------------------------------------------------------------- the loop on links

  /** What the loop reads around a subtree that may be empty. */
  lemma SiblingFacts(mem: Memory, root: Ref, c: Ctx, t: Tree)
    requires At(mem, root, c, t) && !c.Top? && c.sibling.Node?
    ensures var p, w := c.ref, c.sibling.ref;
      && p in mem && w in mem && p != NULL && w != NULL && mem[p].red == c.red && mem[w].red == c.sibling.red
      && (c.InLeft? ==> mem[p].left == Root(t) && mem[p].right == w)
      && (c.InRight? ==> mem[p].right == Root(t) && mem[p].left == w && w != Root(t))
      && mem[w].left == Root(c.sibling.left) && mem[w].right == Root(c.sibling.right)
      && (mem[w].left == NULL || mem[w].left in mem) && IsRedAt(mem, mem[w].left) == IsRed(c.sibling.left)
      && (mem[w].right == NULL || mem[w].right in mem) && IsRedAt(mem, mem[w].right) == IsRed(c.sibling.right)
  {
    assert TreeAt(mem, c.sibling, c.ref);
    assert TreeAt(mem, c.sibling.left, c.sibling.ref) && TreeAt(mem, c.sibling.right, c.sibling.ref);
    assert c.sibling.ref in CtxRefs(c);
  }

  lemma {:induction false} PlugNode(c: Ctx, t: Tree)
    requires t.Node? || !c.Top?
    ensures Plug(c, t).Node?
    decreases c
  {
    if !c.Top? {
      PlugNode(c.up, Zip(c, t));
    }
  }

  /** A red sibling: `(c, t)` becomes `(RedSibling(c), t)`. */
  method RotateSiblingLeft(mem0: Memory, root0: Ref, parent: Ref, nodey: Ref, ghost c: Ctx, ghost t: Tree)
    returns (mem: Memory, root: Ref)
    requires At(mem0, root0, c, t) && RemoveInv(c, t) && c.InLeft? && parent == c.ref
    requires IsRed(c.sibling) && nodey == c.sibling.ref
    ensures At(mem, root, RedSibling(c), t) && Items(mem) == Items(mem0)
  {
    ghost var p := Zip(c, t);
    RedSiblingStep(c, t);
    MoveUp(mem0, root0, c, t);
    mem := PaintRight(mem0, nodey, false, root0, c.up, p);
    mem := SetColour(mem, parent, true, root0, c.up, p.(right := Paint(c.sibling, false)));
    mem, root := RotateLeft(mem, root0, parent, c.up, p.(red := true, right := Paint(c.sibling, false)));
    ghost var c' := RedSibling(c);
    MoveDown(mem, root, c'.up.up, Zip(c'.up, Zip(c', t)));
    MoveDown(mem, root, c'.up, Zip(c', t));
  }

  /** A red near nephew: `(c, t)` becomes `(NearNephew(c), t)`. */
  method RotateNephewLeft(mem0: Memory, root0: Ref, nodey: Ref, ghost c: Ctx, ghost t: Tree)
    returns (mem: Memory, root: Ref)
    requires At(mem0, root0, c, t) && c.InLeft? && c.sibling.Node? && nodey == c.sibling.ref && IsRed(Near(c))
    ensures At(mem, root, NearNephew(c), t) && Items(mem) == Items(mem0)
  {
    ghost var w, p := c.sibling, Zip(c, t);
    MoveUp(mem0, root0, c, t);
    MoveDown(mem0, root0, c.up, p);
    ghost var s := InRight(c.up, t, c.ref, c.item, c.red);
    FocusFacts(mem0, root0, s, w);
    mem := SetColour(mem0, nodey, true, root0, s, w);
    FocusFacts(mem, root0, s, Paint(w, true));
    mem := PaintLeft(mem, mem[nodey].left, false, root0, s, Paint(w, true));
    mem, root := RotateRight(mem, root0, nodey, s, w.(red := true, left := Paint(w.left, false)));
    MoveUp(mem, root, s, NearNephew(c).sibling);
    MoveDown(mem, root, c.up, Zip(NearNephew(c), t));
  }

  /** A red far nephew: the loop is about to end. */
  method RotateParentLeft(mem0: Memory, root0: Ref, parent: Ref, nodey: Ref, ghost c: Ctx, ghost t: Tree)
    returns (mem: Memory, root: Ref)
    requires At(mem0, root0, c, t) && c.InLeft? && parent == c.ref
    requires c.sibling.Node? && nodey == c.sibling.ref
    ensures At(mem, root, c.up, Borrowed(c, t)) && Items(mem) == Items(mem0)
  {
    ghost var w, p := c.sibling, Zip(c, t);
    MoveUp(mem0, root0, c, t);
    FocusFacts(mem0, root0, c.up, p);
    mem := PaintRight(mem0, nodey, mem0[parent].red, root0, c.up, p);
    p := p.(right := Paint(w, c.red));
    mem := SetColour(mem, parent, false, root0, c.up, p);
    p := Paint(p, false);
    MoveDown(mem, root0, c.up, p);
    ghost var s := InRight(c.up, t, c.ref, c.item, false);
    FocusFacts(mem, root0, s, Paint(w, c.red));
    mem := PaintRight(mem, mem[nodey].right, false, root0, s, Paint(w, c.red));
    MoveUp(mem, root0, s, w.(red := c.red, right := Paint(w.right, false)));
    mem, root := RotateLeft(mem, root0, parent, c.up, Borrow(c, t));
  }

  /** Makes sure that the far nephew is red. */
  method TurnNephewLeft(mem0: Memory, root0: Ref, parent: Ref, nodey0: Ref, ghost c: Ctx, ghost t: Tree)
    returns (mem: Memory, root: Ref, nodey: Ref, ghost c': Ctx)
    requires At(mem0, root0, c, t) && RemoveInv(c, t) && c.InLeft? && parent == c.ref
    requires c.sibling.Node? && !c.sibling.red && nodey0 == c.sibling.ref
    requires IsRed(c.sibling.left) || IsRed(c.sibling.right)
    ensures At(mem, root, c', t) && RemoveInv(c', t) && c'.InLeft? && parent == c'.ref
    ensures c'.sibling.Node? && !c'.sibling.red && nodey == c'.sibling.ref && IsRed(Far(c'))
    ensures SameContents(c, t, c', t) && Items(mem) == Items(mem0)
  {
    mem, root, nodey, c' := mem0, root0, nodey0, c;
    SiblingFacts(mem, root, c, t);
    if IsRedAt(mem, mem[nodey].left) && !IsRedAt(mem, mem[nodey].right) {
      NearNephewStep(c, t);
      mem, root := RotateNephewLeft(mem, root, nodey, c, t);
      c' := NearNephew(c);
      SiblingFacts(mem, root, c', t);
      nodey := mem[parent].right;
    }
  }

  /** A black sibling with a red child: a rotation or two end the loop. */
  method BorrowBlackLeft(mem0: Memory, root0: Ref, parent: Ref, nodey0: Ref, ghost c: Ctx, ghost t: Tree)
    returns (mem: Memory, root: Ref, nodex: Ref, ghost t': Tree)
    requires At(mem0, root0, c, t) && RemoveInv(c, t) && c.InLeft? && !IsRed(t) && parent == c.ref
    requires c.sibling.Node? && !c.sibling.red && nodey0 == c.sibling.ref
    requires IsRed(c.sibling.left) || IsRed(c.sibling.right)
    ensures At(mem, root, Top, t') && RemoveInv(Top, t') && nodex == Root(t') && t'.Node?
    ensures SameContents(c, t, Top, t') && Items(mem) == Items(mem0)
  {
    var nodey;
    ghost var c1;
    mem, root, nodey, c1 := TurnNephewLeft(mem0, root0, parent, nodey0, c, t);
    FarNephewStep(c1, t);
    mem, root := RotateParentLeft(mem, root, parent, nodey, c1, t);
    MoveToTop(mem, root, c1.up, Borrowed(c1, t));
    PlugNode(c1.up, Borrowed(c1, t));
    nodex := root;
    t' := Plug(c1.up, Borrowed(c1, t));
  }

  /** The rest of an iteration, the sibling being black by now. */
  method ShortBlackLeft(mem0: Memory, root0: Ref, parent: Ref, nodey0: Ref, ghost c: Ctx, ghost t: Tree)
    returns (mem: Memory, root: Ref, nodex: Ref, ghost c': Ctx, ghost t': Tree)
    requires At(mem0, root0, c, t) && RemoveInv(c, t) && c.InLeft? && !IsRed(t) && parent == c.ref
    requires c.sibling.Node? && !c.sibling.red && nodey0 == c.sibling.ref
    ensures At(mem, root, c', t') && RemoveInv(c', t') && nodex == Root(t') && t'.Node?
    ensures SameContents(c, t, c', t') && Items(mem) == Items(mem0)
    ensures c' == Top || (c' == c.up && IsRed(t') == c.red)
  {
    mem, root := mem0, root0;
    var nodey := nodey0;
    SiblingFacts(mem, root, c, t);
    if nodey == NULL || (!IsRedAt(mem, mem[nodey].left) && !IsRedAt(mem, mem[nodey].right)) {
      BlackSiblingStep(c, t);
      MoveUp(mem, root, c, t);
      mem := PaintRight(mem, nodey, true, root, c.up, Zip(c, t));
      nodex := parent;
      c', t' := c.up, Zip(WithSibling(c, Paint(c.sibling, true)), t);
    } else {
      mem, root, nodex, t' := BorrowBlackLeft(mem, root, parent, nodey, c, t);
      c' := Top;
    }
  }

  /** One iteration when the short subtree is a left child. */
  method ShortLeft(mem0: Memory, root0: Ref, parent: Ref, ghost c: Ctx, ghost t: Tree)
    returns (mem: Memory, root: Ref, nodex: Ref, ghost c': Ctx, ghost t': Tree)
    requires At(mem0, root0, c, t) && RemoveInv(c, t) && c.InLeft? && !IsRed(t) && parent == c.ref
    ensures At(mem, root, c', t') && RemoveInv(c', t') && nodex == Root(t') && t'.Node?
    ensures SameContents(c, t, c', t') && Work(c', t') < Work(c, t) && Items(mem) == Items(mem0)
  {
    mem, root := mem0, root0;
    ghost var c1 := c;
    HasSibling(c, t);
    SiblingFacts(mem, root, c, t);
    var nodey := mem[parent].right;
    if IsRedAt(mem, nodey) {
      RedSiblingStep(c, t);
      mem, root := RotateSiblingLeft(mem, root, parent, nodey, c, t);
      c1 := RedSibling(c);
      HasSibling(c1, t);
      SiblingFacts(mem, root, c1, t);
      nodey := mem[parent].right;
    }
    mem, root, nodex, c', t' := ShortBlackLeft(mem, root, parent, nodey, c1, t);
  }

  /** A red sibling: `(c, t)` becomes `(RedSibling(c), t)`. */
  method RotateSiblingRight(mem0: Memory, root0: Ref, parent: Ref, nodey: Ref, ghost c: Ctx, ghost t: Tree)
    returns (mem: Memory, root: Ref)
    requires At(mem0, root0, c, t) && RemoveInv(c, t) && c.InRight? && parent == c.ref
    requires IsRed(c.sibling) && nodey == c.sibling.ref
    ensures At(mem, root, RedSibling(c), t) && Items(mem) == Items(mem0)
  {
    ghost var p := Zip(c, t);
    RedSiblingStep(c, t);
    MoveUp(mem0, root0, c, t);
    mem := PaintLeft(mem0, nodey, false, root0, c.up, p);
    mem := SetColour(mem, parent, true, root0, c.up, p.(left := Paint(c.sibling, false)));
    mem, root := RotateRight(mem, root0, parent, c.up, p.(red := true, left := Paint(c.sibling, false)));
    ghost var c' := RedSibling(c);
    MoveDown(mem, root, c'.up.up, Zip(c'.up, Zip(c', t)));
    MoveDown(mem, root, c'.up, Zip(c', t));
  }

  /** A red near nephew: `(c, t)` becomes `(NearNephew(c), t)`. */
  method RotateNephewRight(mem0: Memory, root0: Ref, nodey: Ref, ghost c: Ctx, ghost t: Tree)
    returns (mem: Memory, root: Ref)
    requires At(mem0, root0, c, t) && c.InRight? && c.sibling.Node? && nodey == c.sibling.ref && IsRed(Near(c))
    ensures At(mem, root, NearNephew(c), t) && Items(mem) == Items(mem0)
  {
    ghost var w, p := c.sibling, Zip(c, t);
    MoveUp(mem0, root0, c, t);
    MoveDown(mem0, root0, c.up, p);
    ghost var s := InLeft(c.up, c.ref, c.item, c.red, t);
    FocusFacts(mem0, root0, s, w);
    mem := SetColour(mem0, nodey, true, root0, s, w);
    FocusFacts(mem, root0, s, Paint(w, true));
    mem := PaintRight(mem, mem[nodey].right, false, root0, s, Paint(w, true));
    mem, root := RotateLeft(mem, root0, nodey, s, w.(red := true, right := Paint(w.right, false)));
    MoveUp(mem, root, s, NearNephew(c).sibling);
    MoveDown(mem, root, c.up, Zip(NearNephew(c), t));
  }

  /** A red far nephew: the loop is about to end. */
  method RotateParentRight(mem0: Memory, root0: Ref, parent: Ref, nodey: Ref, ghost c: Ctx, ghost t: Tree)
    returns (mem: Memory, root: Ref)
    requires At(mem0, root0, c, t) && c.InRight? && parent == c.ref
    requires c.sibling.Node? && nodey == c.sibling.ref
    ensures At(mem, root, c.up, Borrowed(c, t)) && Items(mem) == Items(mem0)
  {
    ghost var w, p := c.sibling, Zip(c, t);
    MoveUp(mem0, root0, c, t);
    FocusFacts(mem0, root0, c.up, p);
    mem := PaintLeft(mem0, nodey, mem0[parent].red, root0, c.up, p);
    p := p.(left := Paint(w, c.red));
    mem := SetColour(mem, parent, false, root0, c.up, p);
    p := Paint(p, false);
    MoveDown(mem, root0, c.up, p);
    ghost var s := InLeft(c.up, c.ref, c.item, false, t);
    FocusFacts(mem, root0, s, Paint(w, c.red));
    mem := PaintLeft(mem, mem[nodey].left, false, root0, s, Paint(w, c.red));
    MoveUp(mem, root0, s, w.(red := c.red, left := Paint(w.left, false)));
    mem, root := RotateRight(mem, root0, parent, c.up, Borrow(c, t));
  }

  /** Makes sure that the far nephew is red. */
  method TurnNephewRight(mem0: Memory, root0: Ref, parent: Ref, nodey0: Ref, ghost c: Ctx, ghost t: Tree)
    returns (mem: Memory, root: Ref, nodey: Ref, ghost c': Ctx)
    requires At(mem0, root0, c, t) && RemoveInv(c, t) && c.InRight? && parent == c.ref
    requires c.sibling.Node? && !c.sibling.red && nodey0 == c.sibling.ref
    requires IsRed(c.sibling.left) || IsRed(c.sibling.right)
    ensures At(mem, root, c', t) && RemoveInv(c', t) && c'.InRight? && parent == c'.ref
    ensures c'.sibling.Node? && !c'.sibling.red && nodey == c'.sibling.ref && IsRed(Far(c'))
    ensures SameContents(c, t, c', t) && Items(mem) == Items(mem0)
  {
    mem, root, nodey, c' := mem0, root0, nodey0, c;
    SiblingFacts(mem, root, c, t);
    if IsRedAt(mem, mem[nodey].right) && !IsRedAt(mem, mem[nodey].left) {
      NearNephewStep(c, t);
      mem, root := RotateNephewRight(mem, root, nodey, c, t);
      c' := NearNephew(c);
      SiblingFacts(mem, root, c', t);
      nodey := mem[parent].left;
    }
  }

  /** A black sibling with a red child: a rotation or two end the loop. */
  method BorrowBlackRight(mem0: Memory, root0: Ref, parent: Ref, nodey0: Ref, ghost c: Ctx, ghost t: Tree)
    returns (mem: Memory, root: Ref, nodex: Ref, ghost t': Tree)
    requires At(mem0, root0, c, t) && RemoveInv(c, t) && c.InRight? && !IsRed(t) && parent == c.ref
    requires c.sibling.Node? && !c.sibling.red && nodey0 == c.sibling.ref
    requires IsRed(c.sibling.left) || IsRed(c.sibling.right)
    ensures At(mem, root, Top, t') && RemoveInv(Top, t') && nodex == Root(t') && t'.Node?
    ensures SameContents(c, t, Top, t') && Items(mem) == Items(mem0)
  {
    var nodey;
    ghost var c1;
    mem, root, nodey, c1 := TurnNephewRight(mem0, root0, parent, nodey0, c, t);
    FarNephewStep(c1, t);
    mem, root := RotateParentRight(mem, root, parent, nodey, c1, t);
    MoveToTop(mem, root, c1.up, Borrowed(c1, t));
    PlugNode(c1.up, Borrowed(c1, t));
    nodex := root;
    t' := Plug(c1.up, Borrowed(c1, t));
  }

  /** The rest of an iteration, the sibling being black by now. */
  method ShortBlackRight(mem0: Memory, root0: Ref, parent: Ref, nodey0: Ref, ghost c: Ctx, ghost t: Tree)
    returns (mem: Memory, root: Ref, nodex: Ref, ghost c': Ctx, ghost t': Tree)
    requires At(mem0, root0, c, t) && RemoveInv(c, t) && c.InRight? && !IsRed(t) && parent == c.ref
    requires c.sibling.Node? && !c.sibling.red && nodey0 == c.sibling.ref
    ensures At(mem, root, c', t') && RemoveInv(c', t') && nodex == Root(t') && t'.Node?
    ensures SameContents(c, t, c', t') && Items(mem) == Items(mem0)
    ensures c' == Top || (c' == c.up && IsRed(t') == c.red)
  {
    mem, root := mem0, root0;
    var nodey := nodey0;
    SiblingFacts(mem, root, c, t);
    if nodey == NULL || (!IsRedAt(mem, mem[nodey].left) && !IsRedAt(mem, mem[nodey].right)) {
      BlackSiblingStep(c, t);
      MoveUp(mem, root, c, t);
      mem := PaintLeft(mem, nodey, true, root, c.up, Zip(c, t));
      nodex := parent;
      c', t' := c.up, Zip(WithSibling(c, Paint(c.sibling, true)), t);
    } else {
      mem, root, nodex, t' := BorrowBlackRight(mem, root, parent, nodey, c, t);
      c' := Top;
    }
  }

  /** One iteration when the short subtree is a right child. */
  method ShortRight(mem0: Memory, root0: Ref, parent: Ref, ghost c: Ctx, ghost t: Tree)
    returns (mem: Memory, root: Ref, nodex: Ref, ghost c': Ctx, ghost t': Tree)
    requires At(mem0, root0, c, t) && RemoveInv(c, t) && c.InRight? && !IsRed(t) && parent == c.ref
    ensures At(mem, root, c', t') && RemoveInv(c', t') && nodex == Root(t') && t'.Node?
    ensures SameContents(c, t, c', t') && Work(c', t') < Work(c, t) && Items(mem) == Items(mem0)
  {
    mem, root := mem0, root0;
    ghost var c1 := c;
    HasSibling(c, t);
    SiblingFacts(mem, root, c, t);
    var nodey := mem[parent].left;
    if IsRedAt(mem, nodey) {
      RedSiblingStep(c, t);
      mem, root := RotateSiblingRight(mem, root, parent, nodey, c, t);
      c1 := RedSibling(c);
      HasSibling(c1, t);
      SiblingFacts(mem, root, c1, t);
      nodey := mem[parent].left;
    }
    mem, root, nodex, c', t' := ShortBlackRight(mem, root, parent, nodey, c1, t);
  }

  /** The whole loop.  It ends with a red-black tree that has the same contents. */
  method RemoveFixup(mem0: Memory, root0: Ref, parent0: Ref, nodex0: Ref, ghost c0: Ctx, ghost t0: Tree)
    returns (mem: Memory, root: Ref, ghost shape: Tree)
    requires At(mem0, root0, c0, t0) && RemoveInv(c0, t0) && nodex0 == Root(t0) && parent0 == Parent(c0)
    ensures At(mem, root, Top, shape) && RedBlack(shape) && Items(mem) == Items(mem0)
    ensures Inorder(shape) == Inorder(Plug(c0, t0)) && Refs(shape) == Refs(t0) + CtxRefs(c0)
  {
    mem, root := mem0, root0;
    var nodex, parent := nodex0, parent0;
    ghost var c, t := c0, t0;
    RootIsFocus(mem, root, c, t);
    while nodex != root && !IsRedAt(mem, nodex)
      invariant At(mem, root, c, t) && RemoveInv(c, t) && nodex == Root(t) && parent == Parent(c)
      invariant (nodex == root <==> c.Top?) && (t.Node? ==> nodex != NULL && nodex in mem && mem[nodex].red == t.red)
      invariant SameContents(c0, t0, c, t) && Items(mem) == Items(mem0)
      decreases Work(c, t)
    {
      HasSibling(c, t);
      SiblingFacts(mem, root, c, t);
      assert !(nodex == NULL && parent == NULL);
      if nodex == mem[parent].left {
        mem, root, nodex, c, t := ShortLeft(mem, root, parent, c, t);
      } else {
        mem, root, nodex, c, t := ShortRight(mem, root, parent, c, t);
      }
      FocusFacts(mem, root, c, t);
      parent := mem[nodex].parent;
    }
    mem := SetColour(mem, nodex, false, root, c, t);
    shape := Plug(c, Paint(t, false));
    PaintSame(t, false);
    PlugCongruent(c, t, Paint(t, false));
    MoveToTop(mem, root, c, Paint(t, false));
    if !c.Top? {
      PlugRedBlack(c, Paint(t, false));
    }
  }
}
