/** The splice of `rb_tree_remove`: taking a node out of the links, with its successor
    moved into its place when it has two children. */
module RbDelete {
  import opened RbShape
  import opened RbLinks
  import opened RbRemove

  function OnlyChild(t: Tree): Tree
    requires t.Node?
  {
    if t.left.Node? then t.left else t.right
  }

  /** Puts the only child of `nodey`, if it has one, where `nodey` was. */
  method Unlink(mem0: Memory, root0: Ref, nodey: Ref, ghost c: Ctx, ghost t: Tree)
    returns (mem: Memory, root: Ref, nodex: Ref)
    requires At(mem0, root0, c, t) && t.Node? && nodey == t.ref && (t.left.Leaf? || t.right.Leaf?)
    ensures At(mem, root, c, OnlyChild(t)) && nodex == Root(OnlyChild(t))
    ensures Items(mem) == Items(mem0) && nodey in mem && mem[nodey] == mem0[nodey]
  {
    mem, root := mem0, root0;
    FocusFacts(mem, root, c, t);
    NoNull(mem, t, Parent(c));
    NoNullCtx(mem, c, nodey);
    ghost var x := OnlyChild(t);
    assert x.Node? ==> x.ref in Refs(x);
    nodex := if mem[nodey].left != NULL then mem[nodey].left else mem[nodey].right;
    if nodex != NULL {
      mem := mem[nodex := mem[nodex].(parent := mem[nodey].parent)];
    }
    var p := mem[nodey].parent;
    if p != NULL {
      if nodey == mem[p].left {
        mem := mem[p := mem[p].(left := nodex)];
      } else {
        mem := mem[p := mem[p].(right := nodex)];
      }
    } else {
      root := nodex;
    }
    ItemsKept(mem0, mem);
    Reparented(mem0, mem, x, nodey, Parent(c));
    Rehung(mem0, mem, c, nodey, nodex);
  }

  /** The links after `nodey` has taken the place of `nodez`. */
  ghost predicate PlaceTaken(mem: Memory, mem': Memory, z: Ref, y: Ref) {
    && z in mem && y in mem && mem'.Keys == mem.Keys
    && var p, l, r := mem[z].parent, mem[z].left, mem[z].right;
       && mem'[y] == mem[z].(item := mem[y].item)
       && (l != NULL ==> l in mem && mem'[l] == mem[l].(parent := y))
       && (r != NULL ==> r in mem && mem'[r] == mem[r].(parent := y))
       && (p != NULL ==> p in mem && mem'[p] == if z == mem[p].left then mem[p].(left := y) else mem[p].(right := y))
       && (forall n :: n in mem && n != NULL && n !in {y, p, l, r} ==> mem'[n] == mem[n])
  }

  /** The link from above, if there is one, leads to `nodey` instead. */
  method HangInstead(mem0: Memory, root0: Ref, nodez: Ref, nodey: Ref) returns (mem: Memory, root: Ref)
    requires nodez in mem0 && nodey in mem0 && nodez != nodey
    requires var p := mem0[nodez].parent; p != NULL ==> p in mem0 && p != nodez && p != nodey
    ensures mem.Keys == mem0.Keys && Items(mem) == Items(mem0) && mem[nodey] == mem0[nodey].(parent := mem0[nodez].parent)
    ensures var p := mem0[nodez].parent;
      && (p != NULL ==> mem[p] == if nodez == mem0[p].left then mem0[p].(left := nodey) else mem0[p].(right := nodey))
      && (forall n :: n in mem0 && n != nodey && (p == NULL || n != p) ==> mem[n] == mem0[n])
    ensures root == if mem0[nodez].parent == NULL then nodey else root0
  {
    mem, root := mem0, root0;
    mem := mem[nodey := mem[nodey].(parent := mem[nodez].parent)];
    var p := mem[nodez].parent;
    if p != NULL {
      if nodez == mem[p].left {
        mem := mem[p := mem[p].(left := nodey)];
      } else {
        mem := mem[p := mem[p].(right := nodey)];
      }
    } else {
      root := nodey;
    }
    ItemsKept(mem0, mem);
  }

  /** Colour and children of `nodez` go to `nodey`. */
  method Adopt(mem0: Memory, nodez: Ref, nodey: Ref) returns (mem: Memory)
    requires nodez in mem0 && nodey in mem0 && nodez != nodey
    requires var l, r := mem0[nodez].left, mem0[nodez].right;
      && (l != NULL ==> l in mem0 && l != nodez && l != nodey && l != r)
      && (r != NULL ==> r in mem0 && r != nodez && r != nodey)
    ensures mem.Keys == mem0.Keys && Items(mem) == Items(mem0)
    ensures var l, r := mem0[nodez].left, mem0[nodez].right;
      && mem[nodey] == mem0[nodey].(red := mem0[nodez].red, left := l, right := r)
      && (l != NULL ==> mem[l] == mem0[l].(parent := nodey)) && (r != NULL ==> mem[r] == mem0[r].(parent := nodey))
      && (forall n :: n in mem0 && n != nodey && (l == NULL || n != l) && (r == NULL || n != r) ==> mem[n] == mem0[n])
  {
    mem := mem0;
    mem := mem[nodey := mem[nodey].(red := mem[nodez].red)];
    mem := mem[nodey := mem[nodey].(left := mem[nodez].left)];
    mem := mem[nodey := mem[nodey].(right := mem[nodez].right)];

    if mem[nodez].left != NULL {
      mem := mem[mem[nodez].left := mem[mem[nodez].left].(parent := nodey)];
    }
    if mem[nodez].right != NULL {
      mem := mem[mem[nodez].right := mem[mem[nodez].right].(parent := nodey)];
    }
    ItemsKept(mem0, mem);
  }

  /** Moves the detached node `nodey` into the place, colour and links of `nodez`. */
  method TakePlaceLinks(mem0: Memory, root0: Ref, nodez: Ref, nodey: Ref) returns (mem: Memory, root: Ref)
    requires nodez in mem0 && nodey in mem0 && nodez != nodey
    requires var p, l, r := mem0[nodez].parent, mem0[nodez].left, mem0[nodez].right;
      && (p != NULL ==> p in mem0 && p != nodez && p != nodey && p != l && p != r)
      && (l != NULL ==> l in mem0 && l != nodez && l != nodey && l != r)
      && (r != NULL ==> r in mem0 && r != nodez && r != nodey)
    ensures PlaceTaken(mem0, mem, nodez, nodey) && Items(mem) == Items(mem0)
    ensures root == if mem0[nodez].parent == NULL then nodey else root0
  {
    mem, root := HangInstead(mem0, root0, nodez, nodey);
    mem := Adopt(mem, nodez, nodey);
  }

  method TakePlace(mem0: Memory, root0: Ref, nodez: Ref, nodey: Ref, ghost c: Ctx, ghost t: Tree)
    returns (mem: Memory, root: Ref)
    requires At(mem0, root0, c, t) && t.Node? && nodez == t.ref
    requires nodey != NULL && nodey in mem0 && nodey !in Refs(t) && nodey !in CtxRefs(c)
    ensures At(mem, root, c, Node(t.left, nodey, mem0[nodey].item, t.red, t.right)) && Items(mem) == Items(mem0)
  {
    PlaceFacts(mem0, root0, c, t);
    mem, root := TakePlaceLinks(mem0, root0, nodez, nodey);
    PlaceAt(mem0, mem, root0, root, nodey, c, t);
  }

  lemma PlaceFacts(mem: Memory, root: Ref, c: Ctx, t: Tree)
    requires At(mem, root, c, t) && t.Node?
    ensures var z, p, l, r := t.ref, Parent(c), Root(t.left), Root(t.right);
      && z in mem && mem[z] == RbNode(t.item, t.red, p, l, r)
      && (p != NULL ==> p in mem && p != z && p != l && p != r && p in CtxRefs(c))
      && (p == NULL <==> c.Top?)
      && (p != NULL ==> (mem[p].left == z <==> c.InLeft?))
      && (l != NULL ==> l in mem && l != z && l != r && l in Refs(t))
      && (r != NULL ==> r in mem && r != z && r in Refs(t))
  {
    FocusFacts(mem, root, c, t);
    NoNull(mem, t, Parent(c));
    assert t.left.Node? ==> t.left.ref in Refs(t.left);
    assert t.right.Node? ==> t.right.ref in Refs(t.right);
  }

  lemma PlaceAt(mem: Memory, mem': Memory, root: Ref, root': Ref, y: Ref, c: Ctx, t: Tree)
    requires At(mem, root, c, t) && t.Node? && y != NULL && y !in Refs(t) && y !in CtxRefs(c)
    requires PlaceTaken(mem, mem', t.ref, y) && root' == if mem[t.ref].parent == NULL then y else root
    ensures At(mem', root', c, Node(t.left, y, mem[y].item, t.red, t.right))
  {
    PlaceFacts(mem, root, c, t);
    NoNull(mem, t, Parent(c));
    NoNullCtx(mem, c, t.ref);
    Reparented(mem, mem', t.left, t.ref, y);
    Reparented(mem, mem', t.right, t.ref, y);
    Rehung(mem, mem', c, t.ref, y);
  }

  // ---------------------------------------------------------------- the path to the successor

  /** The path `i` continued upwards by `o`. */
  function Append(i: Ctx, o: Ctx): Ctx {
    match i
    case Top => o
    case InLeft(up, p, item, red, right) => InLeft(Append(up, o), p, item, red, right)
    case InRight(up, left, p, item, red) => InRight(Append(up, o), left, p, item, red)
  }

  lemma {:induction false} AppendPlug(i: Ctx, o: Ctx, t: Tree)
    ensures Plug(Append(i, o), t) == Plug(o, Plug(i, t))
    ensures CtxRefs(Append(i, o)) + Refs(t) == CtxRefs(o) + Refs(Plug(i, t))
    decreases i
  {
    if !i.Top? {
      AppendPlug(i.up, o, Zip(i, t));
      assert Zip(Append(i, o), t) == Zip(i, t);
    }
  }

  lemma {:induction false} AppendAt(mem: Memory, root: Ref, i: Ctx, o: Ctx, t: Tree)
    ensures At(mem, root, Append(i, o), t) <==> At(mem, root, o, Plug(i, t))
    decreases i
  {
    if !i.Top? {
      var c := Append(i, o);
      assert Zip(c, t) == Zip(i, t);
      AppendAt(mem, root, i.up, o, Zip(i, t));
      if At(mem, root, c, t) {
        MoveUp(mem, root, c, t);
      }
      if At(mem, root, c.up, Zip(c, t)) {
        MoveDown(mem, root, c.up, Zip(c, t));
      }
    }
  }

  /** Above the path only colours and siblings matter to the red-black conditions. */
  lemma {:induction false} AppendSame(i: Ctx, o: Ctx, o': Ctx, h: nat, hole: bool)
    requires o.InRight? && o'.InRight? && o'.up == o.up && o'.sibling == o.sibling && o'.red == o.red
    ensures CtxBalanced(Append(i, o'), h) == CtxBalanced(Append(i, o), h)
    ensures CtxRedOk(Append(i, o'), hole) == CtxRedOk(Append(i, o), hole)
    ensures CtxRootBlack(Append(i, o')) == CtxRootBlack(Append(i, o))
    decreases i
  {
    if !i.Top? {
      AppendSame(i.up, o, o', h + if i.red then 0 else 1, i.red);
      assert !Append(i.up, o).Top? && !Append(i.up, o').Top?;
    }
  }

  /** Only left turns. */
  predicate LeftSpine(i: Ctx) { i.Top? || (i.InLeft? && LeftSpine(i.up)) }

  lemma {:induction false} LeftSpineInorder(i: Ctx, t: Tree)
    requires LeftSpine(i)
    ensures Inorder(Plug(i, t)) == Inorder(t) + After(i)
  {
    InorderPlug(i, t);
    NothingBefore(i);
  }

  lemma {:induction false} NothingBefore(i: Ctx)
    requires LeftSpine(i)
    ensures Before(i) == []
  {
    if !i.Top? {
      NothingBefore(i.up);
    }
  }

  /** `while (nodey->left)`: down to the leftmost node below the focus. */
  method Leftmost(mem: Memory, root: Ref, node: Ref, ghost o: Ctx, ghost t: Tree)
    returns (nodey: Ref, ghost i: Ctx, ghost y: Tree)
    requires At(mem, root, o, t) && t.Node? && node == t.ref
    ensures At(mem, root, Append(i, o), y) && Plug(i, y) == t && LeftSpine(i)
    ensures y.Node? && y.left.Leaf? && nodey == y.ref
  {
    nodey, i, y := node, Top, t;
    FocusFacts(mem, root, o, t);
    while mem[nodey].left != NULL
      invariant At(mem, root, Append(i, o), y) && Plug(i, y) == t && LeftSpine(i)
      invariant y.Node? && nodey == y.ref && nodey in mem && mem[nodey].left == Root(y.left)
      decreases y
    {
      MoveDown(mem, root, Append(i, o), y);
      i, y := InLeft(i, y.ref, y.item, y.red, y.right), y.left;
      nodey := mem[nodey].left;
      FocusFacts(mem, root, Append(i, o), y);
    }
    assert TreeAt(mem, y.left, y.ref);
  }

  // ---------------------------------------------------------------- the splice

  /** What is in order when a node of colour `red` has been cut out above `t`. */
  ghost predicate Cut(c: Ctx, t: Tree, red: bool) {
    if red then RedBlack(Plug(c, t)) else RemoveInv(c, t)
  }

  lemma CutOk(c: Ctx, y: Tree)
    requires y.Node? && (y.left.Leaf? || y.right.Leaf?)
    requires Balanced(y) && RedOk(y) && CtxBalanced(c, BlackHeight(y)) && CtxRedOk(c, y.red) && CtxRootBlack(c)
    requires c.Top? ==> !y.red
    ensures Cut(c, OnlyChild(y), y.red)
  {
    var x := OnlyChild(y);
    BlackRootOk(x);
    if y.red {
      PlugRedBlack(c, x);
    }
  }

  lemma OnlyChildInorder(c: Ctx, t: Tree)
    requires t.Node? && (t.left.Leaf? || t.right.Leaf?)
    ensures Inorder(Plug(c, OnlyChild(t))) == Before(c) + Inorder(t.left) + (Inorder(t.right) + After(c))
  {
    InorderPlug(c, OnlyChild(t));
    var b, a := Before(c), After(c);
    if t.left.Node? {
      assert Inorder(t.right) + a == a;
    } else {
      assert b + Inorder(t.left) == b;
      assert b + Inorder(t.right) + a == b + (Inorder(t.right) + a);
    }
  }

  lemma OnlyChildRefs(c: Ctx, t: Tree)
    requires t.Node? && (t.left.Leaf? || t.right.Leaf?) && Unique(t) && t.ref !in CtxRefs(c)
    ensures Refs(OnlyChild(t)) + CtxRefs(c) == Refs(t) + CtxRefs(c) - {t.ref}
  {
    assert Refs(t) == Refs(OnlyChild(t)) + {t.ref};
  }

  /** A node with at most one child is unlinked. */
  method SpliceOne(mem0: Memory, root0: Ref, nodez: Ref, ghost c: Ctx, ghost t: Tree)
    returns (mem: Memory, root: Ref, nodex: Ref, parent: Ref, fixup: bool)
    requires At(mem0, root0, c, t) && t.Node? && nodez == t.ref && (t.left.Leaf? || t.right.Leaf?)
    requires RedBlack(Plug(c, t))
    ensures At(mem, root, c, OnlyChild(t)) && nodex == Root(OnlyChild(t)) && parent == Parent(c)
    ensures fixup == !t.red && Cut(c, OnlyChild(t), t.red) && Items(mem) == Items(mem0)
    ensures Inorder(Plug(c, OnlyChild(t))) == Before(c) + Inorder(t.left) + (Inorder(t.right) + After(c))
    ensures Refs(OnlyChild(t)) + CtxRefs(c) == Refs(t) + CtxRefs(c) - {nodez}
  {
    FocusFacts(mem0, root0, c, t);
    PlugRedBlackParts(c, t);
    CutOk(c, t);
    OnlyChildInorder(c, t);
    OnlyChildRefs(c, t);
    mem, root, nodex := Unlink(mem0, root0, nodez, c, t);
    fixup := !mem[nodez].red;
    parent := mem[nodez].parent;
  }

  /** The path to the hole that the successor leaves, once it has taken the place of `t`'s root. */
  function Succeeded(c: Ctx, t: Tree, i: Ctx, y: Tree): Ctx
    requires t.Node? && y.Node?
  {
    Append(i, InRight(c, t.left, y.ref, y.item, t.red))
  }

  /** A node with two children gives its place to its successor. */
  method SpliceTwo(mem0: Memory, root0: Ref, nodez: Ref, ghost c: Ctx, ghost t: Tree)
    returns (mem: Memory, root: Ref, nodex: Ref, parent: Ref, fixup: bool, ghost i: Ctx, ghost y: Tree)
    requires At(mem0, root0, c, t) && t.Node? && nodez == t.ref && t.left.Node? && t.right.Node?
    requires RedBlack(Plug(c, t))
    ensures LeftSpine(i) && y.Node? && y.left.Leaf? && Plug(i, y) == t.right
    ensures At(mem, root, Succeeded(c, t, i, y), y.right) && nodex == Root(y.right) && parent == Parent(Succeeded(c, t, i, y))
    ensures fixup == !y.red && Cut(Succeeded(c, t, i, y), y.right, y.red) && Items(mem) == Items(mem0)
  {
    FocusFacts(mem0, root0, c, t);
    MoveDown(mem0, root0, c, t);
    ghost var o := InRight(c, t.left, t.ref, t.item, t.red);
    var nodey;
    nodey, i, y := Leftmost(mem0, root0, mem0[nodez].right, o, t.right);
    ghost var yc := Append(i, o);
    FocusFacts(mem0, root0, yc, y);
    mem, root, nodex := Unlink(mem0, root0, nodey, yc, y);
    fixup := !mem[nodey].red;
    parent := mem[nodey].parent;

    AppendAt(mem, root, i, o, y.right);
    ghost var z := Zip(o, Plug(i, y.right));
    MoveUp(mem, root, o, Plug(i, y.right));
    DetachedSuccessor(mem0, root0, c, t, i, y);
    mem, root := TakePlace(mem, root, nodez, nodey, c, z);
    ghost var o' := InRight(c, t.left, y.ref, y.item, t.red);
    MoveDown(mem, root, c, Zip(o', Plug(i, y.right)));
    AppendAt(mem, root, i, o', y.right);
    if parent == nodez {
      parent := nodey;
    }
    SuccessorCut(c, t, i, y);
    SuccessorParent(mem0, root0, c, t, i, y);
  }

  lemma DetachedSuccessor(mem: Memory, root: Ref, c: Ctx, t: Tree, i: Ctx, y: Tree)
    requires At(mem, root, c, t) && t.Node? && y.Node? && y.left.Leaf? && Plug(i, y) == t.right
    requires var o := InRight(c, t.left, t.ref, t.item, t.red); At(mem, root, Append(i, o), y)
    ensures var o := InRight(c, t.left, t.ref, t.item, t.red);
      && y.ref !in Refs(Zip(o, Plug(i, y.right))) && y.ref !in CtxRefs(c)
      && Refs(Plug(i, y.right)) == Refs(t.right) - {y.ref} && y.ref in Refs(t.right)
  {
    var o := InRight(c, t.left, t.ref, t.item, t.red);
    InnerRefs(i, o);
    SpineRefs(i, y);
    assert y.ref !in CtxRefs(Append(i, Top)) && y.ref !in CtxRefs(o);
    assert CtxRefs(o) == CtxRefs(c) + {t.ref} + Refs(t.left);
  }

  lemma SpineRefs(i: Ctx, y: Tree)
    requires y.Node? && y.left.Leaf?
    ensures Refs(Plug(i, y)) == CtxRefs(Append(i, Top)) + {y.ref} + Refs(y.right)
    ensures Refs(Plug(i, y.right)) == CtxRefs(Append(i, Top)) + Refs(y.right)
  {
    AppendPlug(i, Top, y);
    AppendPlug(i, Top, y.right);
    assert Refs(y) == {y.ref} + Refs(y.right);
  }

  lemma {:induction false} InnerRefs(i: Ctx, o: Ctx)
    ensures CtxRefs(Append(i, o)) == CtxRefs(Append(i, Top)) + CtxRefs(o)
  {
    if !i.Top? {
      InnerRefs(i.up, o);
    }
  }

  lemma SuccessorCut(c: Ctx, t: Tree, i: Ctx, y: Tree)
    requires RedBlack(Plug(c, t)) && t.Node? && y.Node? && y.left.Leaf? && Plug(i, y) == t.right
    ensures Cut(Succeeded(c, t, i, y), y.right, y.red)
  {
    var o := InRight(c, t.left, t.ref, t.item, t.red);
    AppendPlug(i, o, y);
    PlugRedBlackParts(Append(i, o), y);
    AppendSame(i, o, InRight(c, t.left, y.ref, y.item, t.red), BlackHeight(y), y.red);
    CutOk(Succeeded(c, t, i, y), y);
  }

  lemma SuccessorParent(mem: Memory, root: Ref, c: Ctx, t: Tree, i: Ctx, y: Tree)
    requires t.Node? && y.Node?
    requires var o := InRight(c, t.left, t.ref, t.item, t.red); At(mem, root, Append(i, o), y)
    ensures var o := InRight(c, t.left, t.ref, t.item, t.red);
      Parent(Succeeded(c, t, i, y)) == if Parent(Append(i, o)) == t.ref then y.ref else Parent(Append(i, o))
  {
    var o := InRight(c, t.left, t.ref, t.item, t.red);
    InnerRefs(i, o);
    if !i.Top? {
      InnerRefs(i.up, o);
      assert t.ref in CtxRefs(Append(i.up, o));
    }
  }

  /** The successor is the first node of the right subtree. */
  lemma SuccessorFirst(i: Ctx, y: Tree)
    requires y.Node? && y.left.Leaf? && LeftSpine(i)
    ensures Inorder(Plug(i, y)) == [y.item] + Inorder(Plug(i, y.right))
  {
    LeftSpineInorder(i, y.right);
    LeftSpineInorder(i, y);
    assert Inorder(y) == [y.item] + Inorder(y.right);
  }

  lemma SuccessorInorder(c: Ctx, t: Tree, i: Ctx, y: Tree)
    requires t.Node? && y.Node? && y.left.Leaf? && Plug(i, y) == t.right && LeftSpine(i)
    ensures Inorder(Plug(Succeeded(c, t, i, y), y.right)) == Before(c) + Inorder(t.left) + (Inorder(t.right) + After(c))
  {
    var o := InRight(c, t.left, y.ref, y.item, t.red);
    var r := Plug(i, y.right);
    AppendPlug(i, o, y.right);
    InorderPlug(o, r);
    SuccessorFirst(i, y);
    Regroup(Before(c), Inorder(t.left), [y.item], Inorder(r), After(c));
  }

  lemma SuccessorRefs(mem: Memory, root: Ref, c: Ctx, t: Tree, i: Ctx, y: Tree)
    requires At(mem, root, c, t) && t.Node? && y.Node? && y.left.Leaf? && Plug(i, y) == t.right
    ensures Refs(y.right) + CtxRefs(Succeeded(c, t, i, y)) == Refs(t) + CtxRefs(c) - {t.ref}
  {
    var o, o' := InRight(c, t.left, t.ref, t.item, t.red), InRight(c, t.left, y.ref, y.item, t.red);
    MoveDown(mem, root, c, t);
    AppendAt(mem, root, i, o, y);
    DetachedSuccessor(mem, root, c, t, i, y);
    InnerRefs(i, o');
    SpineRefs(i, y);
    assert CtxRefs(o') == CtxRefs(c) + {y.ref} + Refs(t.left);
    assert Refs(t) == Refs(t.left) + {t.ref} + Refs(t.right);
  }

  /** `rb_tree_remove` up to the fixup. */
  method Splice(mem0: Memory, root0: Ref, nodez: Ref, ghost c: Ctx, ghost t: Tree)
    returns (mem: Memory, root: Ref, nodex: Ref, parent: Ref, fixup: bool, ghost c': Ctx, ghost t': Tree)
    requires At(mem0, root0, c, t) && t.Node? && nodez == t.ref && RedBlack(Plug(c, t))
    ensures At(mem, root, c', t') && nodex == Root(t') && parent == Parent(c') && Items(mem) == Items(mem0)
    ensures Cut(c', t', !fixup)
    ensures Inorder(Plug(c', t')) == Before(c) + Inorder(t.left) + (Inorder(t.right) + After(c))
    ensures Refs(t') + CtxRefs(c') == Refs(t) + CtxRefs(c) - {nodez}
  {
    FocusFacts(mem0, root0, c, t);
    assert TreeAt(mem0, t.left, nodez) && TreeAt(mem0, t.right, nodez);
    if mem0[nodez].left == NULL || mem0[nodez].right == NULL {
      mem, root, nodex, parent, fixup := SpliceOne(mem0, root0, nodez, c, t);
      c', t' := c, OnlyChild(t);
    } else {
      ghost var i, y;
      mem, root, nodex, parent, fixup, i, y := SpliceTwo(mem0, root0, nodez, c, t);
      SuccessorInorder(c, t, i, y);
      SuccessorRefs(mem0, root0, c, t, i, y);
      c', t' := Succeeded(c, t, i, y), y.right;
    }
  }

  /** `rb_tree_remove` once the node to remove is found: splice, fixup and `kfree`. */
  method RemoveNode(mem0: Memory, root0: Ref, nodez: Ref, ghost c: Ctx, ghost t: Tree)
    returns (mem: Memory, root: Ref, ghost shape: Tree)
    requires At(mem0, root0, c, t) && t.Node? && nodez == t.ref && RedBlack(Plug(c, t))
    ensures At(mem, root, Top, shape) && RedBlack(shape) && Items(mem) == Items(mem0) - {nodez}
    ensures Inorder(shape) == Before(c) + Inorder(t.left) + (Inorder(t.right) + After(c))
    ensures Refs(shape) == Refs(t) + CtxRefs(c) - {nodez}
  {
    var nodex, parent, fixup;
    ghost var c', t';
    mem, root, nodex, parent, fixup, c', t' := Splice(mem0, root0, nodez, c, t);
    MoveToTop(mem, root, c', t');
    shape := Plug(c', t');
    if fixup {
      mem, root, shape := RemoveFixup(mem, root, parent, nodex, c', t');
    }
    ghost var was := mem;
    mem := mem - {nodez};
    ItemsLess(was, nodez);
    TreeFrame(was, mem, shape, NULL);
  }
}
