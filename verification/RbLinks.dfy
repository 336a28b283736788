/** How nodes in memory spell out a zipper, and the primitive updates (`rotate_left`,
    `rotate_right`, `set_red`, `set_black`) that every fixup is made of. */
module RbLinks {
  import opened RbShape

  /** `struct rb_node`. */
  datatype RbNode = RbNode(item: Item, red: bool, parent: Ref, left: Ref, right: Ref)

  /** The allocated nodes by address. */
  type Memory = map<Ref, RbNode>

  /** What each node holds.  The tree's operations move nodes, never what is in them. */
  ghost function Items(mem: Memory): (r: map<Ref, Item>)
    ensures r.Keys == mem.Keys
  {
    map n | n in mem :: mem[n].item
  }

  predicate SameItem(mem: Memory, mem': Memory, n: Ref) { n in mem && n in mem' && mem'[n].item == mem[n].item }

  lemma ItemsKept(mem: Memory, mem': Memory)
    requires mem'.Keys == mem.Keys && forall n :: n in mem ==> SameItem(mem, mem', n)
    ensures Items(mem') == Items(mem)
  {
    assert forall n :: n in mem ==> SameItem(mem, mem', n) && Items(mem')[n] == Items(mem)[n];
  }

  lemma ItemsAdded(mem: Memory, mem': Memory, x: Ref, item: Item)
    requires mem'.Keys == mem.Keys + {x} && x !in mem && mem'[x].item == item && forall n :: n in mem ==> SameItem(mem, mem', n)
    ensures Items(mem') == Items(mem)[x := item]
  {
    assert forall n :: n in mem ==> SameItem(mem, mem', n) && Items(mem')[n] == Items(mem)[n];
  }

  lemma ItemsLess(mem: Memory, x: Ref)
    ensures Items(mem - {x}) == Items(mem) - {x}
  {}

  function Root(t: Tree): Ref {
    if t.Node? then t.ref else NULL
  }

  function Parent(c: Ctx): Ref {
    if c.Top? then NULL else c.ref
  }

  /** The links below `parent` spell out `t`. */
  predicate TreeAt(mem: Memory, t: Tree, parent: Ref) {
    match t
    case Leaf => true
    case Node(l, x, item, red, r) =>
      && x != NULL && x in mem && mem[x] == RbNode(item, red, parent, Root(l), Root(r))
      && TreeAt(mem, l, x) && TreeAt(mem, r, x)
  }

  /** The links spell out `c`, with `child` in the hole. */
  predicate CtxAt(mem: Memory, c: Ctx, child: Ref) {
    c.Top? ||
    (&& c.ref != NULL && c.ref in mem
     && mem[c.ref] == RbNode(c.item, c.red, Parent(c.up),
                             if c.InLeft? then child else Root(c.sibling),
                             if c.InLeft? then Root(c.sibling) else child)
     && TreeAt(mem, c.sibling, c.ref) && CtxAt(mem, c.up, c.ref))
  }

  function RootOf(c: Ctx, child: Ref): Ref {
    if c.Top? then child else RootOf(c.up, c.ref)
  }

  /** Memory, entered at `root`, spells out the zipper `(c, t)`. */
  predicate At(mem: Memory, root: Ref, c: Ctx, t: Tree) {
    && root == RootOf(c, Root(t))
    && Unique(t) && UniqueCtx(c) && Refs(t) !! CtxRefs(c)
    && TreeAt(mem, t, Parent(c)) && CtxAt(mem, c, Root(t))
  }

  // ---------------------------------------------------------------- refocusing

  /** Memory holds one tree below a node. */
  lemma {:induction false} OneShape(mem: Memory, t: Tree, u: Tree, parent: Ref)
    requires TreeAt(mem, t, parent) && TreeAt(mem, u, parent) && Root(t) == Root(u)
    ensures t == u
    decreases t
  {
    if t.Node? {
      OneShape(mem, t.left, u.left, t.ref);
      OneShape(mem, t.right, u.right, t.ref);
    }
  }

  lemma MoveUp(mem: Memory, root: Ref, c: Ctx, t: Tree)
    requires !c.Top? && At(mem, root, c, t)
    ensures At(mem, root, c.up, Zip(c, t))
  {}

  lemma MoveDown(mem: Memory, root: Ref, c: Ctx, t: Tree)
    requires t.Node? && At(mem, root, c, t)
    ensures At(mem, root, InLeft(c, t.ref, t.item, t.red, t.right), t.left)
    ensures At(mem, root, InRight(c, t.left, t.ref, t.item, t.red), t.right)
  {}

  lemma {:induction false} MoveToTop(mem: Memory, root: Ref, c: Ctx, t: Tree)
    requires At(mem, root, c, t)
    ensures At(mem, root, Top, Plug(c, t))
    ensures Refs(Plug(c, t)) == Refs(t) + CtxRefs(c)
    decreases c
  {
    if !c.Top? {
      MoveUp(mem, root, c, t);
      MoveToTop(mem, root, c.up, Zip(c, t));
    }
  }

  /** The focus is the root exactly when nothing is above it. */
  lemma {:induction false} RootIsFocus(mem: Memory, root: Ref, c: Ctx, t: Tree)
    requires At(mem, root, c, t)
    ensures root == Root(t) <==> c.Top?
    ensures !c.Top? ==> root in CtxRefs(c) && root != NULL
    decreases c
  {
    if !c.Top? {
      MoveUp(mem, root, c, t);
      RootIsFocus(mem, root, c.up, Zip(c, t));
    }
  }

  /** What the code reads around a focused node. */
  lemma FocusFacts(mem: Memory, root: Ref, c: Ctx, t: Tree)
    requires At(mem, root, c, t) && t.Node?
    ensures var x, p := t.ref, Parent(c);
      && x in mem && x != NULL && p != x
      && mem[x] == RbNode(t.item, t.red, p, Root(t.left), Root(t.right))
      && (x == root <==> c.Top?) && (c.Top? <==> p == NULL)
      && (p != NULL ==> p in mem && (mem[p].left == x <==> c.InLeft?) && (mem[p].right == x <==> c.InRight?))
  {
    RootIsFocus(mem, root, c, t);
    assert !c.Top? && c.sibling.Node? ==> c.sibling.ref in CtxRefs(c);
  }

  // ---------------------------------------------------------------- framing

  lemma {:induction false} NoNull(mem: Memory, t: Tree, parent: Ref)
    requires TreeAt(mem, t, parent)
    ensures NULL !in Refs(t) && forall n :: n in Refs(t) ==> n in mem
  {
    if t.Node? {
      NoNull(mem, t.left, t.ref);
      NoNull(mem, t.right, t.ref);
    }
  }

  lemma {:induction false} NoNullCtx(mem: Memory, c: Ctx, child: Ref)
    requires CtxAt(mem, c, child)
    ensures NULL !in CtxRefs(c) && forall n :: n in CtxRefs(c) ==> n in mem
  {
    if !c.Top? {
      NoNull(mem, c.sibling, c.ref);
      NoNullCtx(mem, c.up, c.ref);
    }
  }

  /** The two memories hold the same nodes at `refs`. */
  predicate Same(mem: Memory, mem': Memory, refs: set<Ref>) {
    forall x :: x in refs && x in mem ==> x in mem' && mem'[x] == mem[x]
  }

  lemma {:induction false} TreeFrame(mem: Memory, mem': Memory, t: Tree, parent: Ref)
    requires TreeAt(mem, t, parent) && Same(mem, mem', Refs(t))
    ensures TreeAt(mem', t, parent)
  {
    if t.Node? {
      TreeFrame(mem, mem', t.left, t.ref);
      TreeFrame(mem, mem', t.right, t.ref);
    }
  }

  lemma {:induction false} CtxFrame(mem: Memory, mem': Memory, c: Ctx, child: Ref)
    requires CtxAt(mem, c, child) && Same(mem, mem', CtxRefs(c))
    ensures CtxAt(mem', c, child)
  {
    if !c.Top? {
      TreeFrame(mem, mem', c.sibling, c.ref);
      CtxFrame(mem, mem', c.up, c.ref);
    }
  }

  /** Only the root of `t` has changed, and only its parent link. */
  lemma Reparented(mem: Memory, mem': Memory, t: Tree, was: Ref, parent: Ref)
    requires Unique(t) && TreeAt(mem, t, was) && Same(mem, mem', Refs(t) - {Root(t)})
    requires t.Node? ==> t.ref in mem' && mem'[t.ref] == mem[t.ref].(parent := parent)
    ensures TreeAt(mem', t, parent)
  {
    if t.Node? {
      TreeFrame(mem, mem', t.left, t.ref);
      TreeFrame(mem, mem', t.right, t.ref);
    }
  }

  /** Only the link into the hole has changed. */
  lemma Rehung(mem: Memory, mem': Memory, c: Ctx, was: Ref, child: Ref)
    requires UniqueCtx(c) && CtxAt(mem, c, was) && Same(mem, mem', CtxRefs(c) - {Parent(c)})
    requires !c.Top? ==> c.ref in mem'
    requires !c.Top? ==>
      mem'[c.ref] == (if c.InLeft? then mem[c.ref].(left := child) else mem[c.ref].(right := child))
    ensures CtxAt(mem', c, child)
  {
    if !c.Top? {
      TreeFrame(mem, mem', c.sibling, c.ref);
      CtxFrame(mem, mem', c.up, c.ref);
    }
  }

  // ---------------------------------------------------------------- updates

  /** `set_red` and `set_black` on the focus. */
  method SetColour(mem0: Memory, node: Ref, red: bool, ghost root: Ref, ghost c: Ctx, ghost t: Tree)
    returns (mem: Memory)
    requires At(mem0, root, c, t) && node == Root(t)
    ensures At(mem, root, c, Paint(t, red)) && Items(mem) == Items(mem0)
  {
    mem := mem0;
    if node != NULL {
      mem := mem[node := mem[node].(red := red)];
      TreeFrame(mem0, mem, t.left, node);
      TreeFrame(mem0, mem, t.right, node);
    }
    CtxFrame(mem0, mem, c, node);
    ItemsKept(mem0, mem);
  }

  /** `set_red` and `set_black` on a child of the focus. */
  method PaintLeft(mem0: Memory, node: Ref, red: bool, ghost root: Ref, ghost c: Ctx, ghost t: Tree)
    returns (mem: Memory)
    requires At(mem0, root, c, t) && t.Node? && node == Root(t.left)
    ensures At(mem, root, c, t.(left := Paint(t.left, red))) && Items(mem) == Items(mem0)
  {
    MoveDown(mem0, root, c, t);
    ghost var c' := InLeft(c, t.ref, t.item, t.red, t.right);
    mem := SetColour(mem0, node, red, root, c', t.left);
    MoveUp(mem, root, c', Paint(t.left, red));
  }

  method PaintRight(mem0: Memory, node: Ref, red: bool, ghost root: Ref, ghost c: Ctx, ghost t: Tree)
    returns (mem: Memory)
    requires At(mem0, root, c, t) && t.Node? && node == Root(t.right)
    ensures At(mem, root, c, t.(right := Paint(t.right, red))) && Items(mem) == Items(mem0)
  {
    MoveDown(mem0, root, c, t);
    ghost var c' := InRight(c, t.left, t.ref, t.item, t.red);
    mem := SetColour(mem0, node, red, root, c', t.right);
    MoveUp(mem, root, c', Paint(t.right, red));
  }

  method RotateLeft(mem0: Memory, root0: Ref, nodex: Ref, ghost c: Ctx, ghost t: Tree)
    returns (mem: Memory, root: Ref)
    requires At(mem0, root0, c, t) && t.Node? && nodex == t.ref && t.right.Node?
    ensures At(mem, root, c, RotatedLeft(t)) && Items(mem) == Items(mem0)
  {
    FocusFacts(mem0, root0, c, t);
    RightFacts(mem0, root0, c, t);
    mem, root := RotateLeftLinks(mem0, root0, nodex);
    RotateLeftAt(mem0, mem, root0, root, c, t);
  }

  /** `rotate_left`, link by link. */
  method RotateLeftLinks(mem0: Memory, root0: Ref, nodex: Ref) returns (mem: Memory, root: Ref)
    requires nodex in mem0 && mem0[nodex].right in mem0
    requires var y, b, p := mem0[nodex].right, mem0[mem0[nodex].right].left, mem0[nodex].parent;
      && nodex != y && y != NULL && p != nodex && p != y
      && (b != NULL ==> b in mem0 && b != nodex && b != y && b != p) && (nodex != root0 ==> p in mem0)
    ensures LinksRotatedLeft(mem0, mem, nodex) && Items(mem) == Items(mem0)
    ensures var y, p := mem0[nodex].right, mem0[nodex].parent;
      if nodex == root0 then root == y && (p in mem ==> mem[p] == mem0[p])
      else
        && root == root0 && p in mem
        && mem[p] == if nodex == mem0[p].left then mem0[p].(left := y) else mem0[p].(right := y)
  {
    mem, root := mem0, root0;
    var nodey := mem[nodex].right;

    mem := mem[nodex := mem[nodex].(right := mem[nodey].left)];
    if mem[nodey].left != NULL {
      mem := mem[mem[nodey].left := mem[mem[nodey].left].(parent := nodex)];
    }

    mem := mem[nodey := mem[nodey].(parent := mem[nodex].parent)];

    var p := mem[nodex].parent;
    if nodex == root {
      root := nodey;
    } else if nodex == mem[p].left {
      mem := mem[p := mem[p].(left := nodey)];
    } else {
      mem := mem[p := mem[p].(right := nodey)];
    }

    mem := mem[nodey := mem[nodey].(left := nodex)];
    mem := mem[nodex := mem[nodex].(parent := nodey)];
    ItemsKept(mem0, mem);
  }

  /** Every link but the one from above has been rewritten as `rotate_left` does. */
  ghost predicate LinksRotatedLeft(mem: Memory, mem': Memory, x: Ref) {
    && x in mem && mem[x].right in mem && mem'.Keys == mem.Keys
    && var y, p := mem[x].right, mem[x].parent;
       var b := mem[y].left;
       && mem'[x] == mem[x].(right := b, parent := y)
       && mem'[y] == mem[y].(left := x, parent := p)
       && (b != NULL ==> b in mem && mem'[b] == mem[b].(parent := x))
       && (forall n :: n in mem && n != NULL && n !in {x, y, b, p} ==> mem'[n] == mem[n])
  }

  lemma RightFacts(mem: Memory, root: Ref, c: Ctx, t: Tree)
    requires At(mem, root, c, t) && t.Node? && t.right.Node?
    ensures var x, y, b, p := t.ref, t.right.ref, Root(t.right.left), Parent(c);
      && y in mem && x != y && y != NULL && p != y
      && mem[y] == RbNode(t.right.item, t.right.red, x, b, Root(t.right.right))
      && (b != NULL ==> b in mem && b != x && b != y && b != p && mem[b].parent == y)
  {
    assert TreeAt(mem, t.right, t.ref) && Unique(t.right);
    assert Refs(t.right) <= Refs(t);
    var b := t.right.left;
    assert TreeAt(mem, b, t.right.ref);
    assert b.Node? ==> b.ref in Refs(b) && b.ref in Refs(t.right);
  }

  /** The subtrees around a rotation are left alone. */
  lemma RotateLeftFrame(mem: Memory, mem': Memory, root: Ref, c: Ctx, t: Tree)
    requires At(mem, root, c, t) && t.Node? && t.right.Node?
    requires LinksRotatedLeft(mem, mem', t.ref)
    ensures var a, b, d := t.left, t.right.left, t.right.right;
      && Same(mem, mem', Refs(a)) && Same(mem, mem', Refs(d))
      && Same(mem, mem', Refs(b) - {Root(b)}) && Same(mem, mem', CtxRefs(c) - {Parent(c)})
  {
    NoNull(mem, t, Parent(c));
    NoNullCtx(mem, c, t.ref);
    var y, b := t.right, t.right.left;
    assert TreeAt(mem, y, t.ref) && Unique(y) && Refs(y) == Refs(b) + {y.ref} + Refs(y.right);
    assert b.Node? ==> b.ref in Refs(b);
  }

  lemma RotateLeftAt(mem: Memory, mem': Memory, root: Ref, root': Ref, c: Ctx, t: Tree)
    requires At(mem, root, c, t) && t.Node? && t.right.Node?
    requires LinksRotatedLeft(mem, mem', t.ref)
    requires root' == if c.Top? then t.right.ref else root
    requires !c.Top? ==> c.ref in mem
    requires c.InLeft? ==> mem'[c.ref] == mem[c.ref].(left := t.right.ref)
    requires c.InRight? ==> mem'[c.ref] == mem[c.ref].(right := t.right.ref)
    ensures At(mem', root', c, RotatedLeft(t))
  {
    var a, y, b, d := t.left, t.right, t.right.left, t.right.right;
    RotateLeftFrame(mem, mem', root, c, t);
    RotatedLeftRefs(t);
    assert TreeAt(mem, y, t.ref) && Unique(y);
    TreeFrame(mem, mem', a, t.ref);
    TreeFrame(mem, mem', d, y.ref);
    Reparented(mem, mem', b, y.ref, t.ref);
    Rehung(mem, mem', c, t.ref, y.ref);
  }

  method RotateRight(mem0: Memory, root0: Ref, nodex: Ref, ghost c: Ctx, ghost t: Tree)
    returns (mem: Memory, root: Ref)
    requires At(mem0, root0, c, t) && t.Node? && nodex == t.ref && t.left.Node?
    ensures At(mem, root, c, RotatedRight(t)) && Items(mem) == Items(mem0)
  {
    FocusFacts(mem0, root0, c, t);
    LeftFacts(mem0, root0, c, t);
    mem, root := RotateRightLinks(mem0, root0, nodex);
    RotateRightAt(mem0, mem, root0, root, c, t);
  }

  /** `rotate_right`, link by link. */
  method RotateRightLinks(mem0: Memory, root0: Ref, nodex: Ref) returns (mem: Memory, root: Ref)
    requires nodex in mem0 && mem0[nodex].left in mem0
    requires var y, b, p := mem0[nodex].left, mem0[mem0[nodex].left].right, mem0[nodex].parent;
      && nodex != y && y != NULL && p != nodex && p != y
      && (b != NULL ==> b in mem0 && b != nodex && b != y && b != p) && (nodex != root0 ==> p in mem0)
    ensures LinksRotatedRight(mem0, mem, nodex) && Items(mem) == Items(mem0)
    ensures var y, p := mem0[nodex].left, mem0[nodex].parent;
      if nodex == root0 then root == y && (p in mem ==> mem[p] == mem0[p])
      else
        && root == root0 && p in mem
        && mem[p] == if nodex == mem0[p].left then mem0[p].(left := y) else mem0[p].(right := y)
  {
    mem, root := mem0, root0;
    var nodey := mem[nodex].left;

    mem := mem[nodex := mem[nodex].(left := mem[nodey].right)];
    if mem[nodey].right != NULL {
      mem := mem[mem[nodey].right := mem[mem[nodey].right].(parent := nodex)];
    }

    mem := mem[nodey := mem[nodey].(parent := mem[nodex].parent)];

    var p := mem[nodex].parent;
    if nodex == root {
      root := nodey;
    } else if nodex == mem[p].left {
      mem := mem[p := mem[p].(left := nodey)];
    } else {
      mem := mem[p := mem[p].(right := nodey)];
    }

    mem := mem[nodey := mem[nodey].(right := nodex)];
    mem := mem[nodex := mem[nodex].(parent := nodey)];
    ItemsKept(mem0, mem);
  }

  /** Every link but the one from above has been rewritten as `rotate_right` does. */
  ghost predicate LinksRotatedRight(mem: Memory, mem': Memory, x: Ref) {
    && x in mem && mem[x].left in mem && mem'.Keys == mem.Keys
    && var y, p := mem[x].left, mem[x].parent;
       var b := mem[y].right;
       && mem'[x] == mem[x].(left := b, parent := y)
       && mem'[y] == mem[y].(right := x, parent := p)
       && (b != NULL ==> b in mem && mem'[b] == mem[b].(parent := x))
       && (forall n :: n in mem && n != NULL && n !in {x, y, b, p} ==> mem'[n] == mem[n])
  }

  lemma LeftFacts(mem: Memory, root: Ref, c: Ctx, t: Tree)
    requires At(mem, root, c, t) && t.Node? && t.left.Node?
    ensures var x, y, b, p := t.ref, t.left.ref, Root(t.left.right), Parent(c);
      && y in mem && x != y && y != NULL && p != y
      && mem[y] == RbNode(t.left.item, t.left.red, x, Root(t.left.left), b)
      && (b != NULL ==> b in mem && b != x && b != y && b != p && mem[b].parent == y)
  {
    assert TreeAt(mem, t.left, t.ref) && Unique(t.left);
    assert Refs(t.left) <= Refs(t);
    var b := t.left.right;
    assert TreeAt(mem, b, t.left.ref);
    assert b.Node? ==> b.ref in Refs(b) && b.ref in Refs(t.left);
  }

  /** The subtrees around a rotation are left alone. */
  lemma RotateRightFrame(mem: Memory, mem': Memory, root: Ref, c: Ctx, t: Tree)
    requires At(mem, root, c, t) && t.Node? && t.left.Node?
    requires LinksRotatedRight(mem, mem', t.ref)
    ensures var a, b, d := t.right, t.left.right, t.left.left;
      && Same(mem, mem', Refs(a)) && Same(mem, mem', Refs(d))
      && Same(mem, mem', Refs(b) - {Root(b)}) && Same(mem, mem', CtxRefs(c) - {Parent(c)})
  {
    NoNull(mem, t, Parent(c));
    NoNullCtx(mem, c, t.ref);
    var y, b := t.left, t.left.right;
    assert TreeAt(mem, y, t.ref) && Unique(y) && Refs(y) == Refs(b) + {y.ref} + Refs(y.left);
    assert b.Node? ==> b.ref in Refs(b);
  }

  lemma RotateRightAt(mem: Memory, mem': Memory, root: Ref, root': Ref, c: Ctx, t: Tree)
    requires At(mem, root, c, t) && t.Node? && t.left.Node?
    requires LinksRotatedRight(mem, mem', t.ref)
    requires root' == if c.Top? then t.left.ref else root
    requires !c.Top? ==> c.ref in mem
    requires c.InRight? ==> mem'[c.ref] == mem[c.ref].(right := t.left.ref)
    requires c.InLeft? ==> mem'[c.ref] == mem[c.ref].(left := t.left.ref)
    ensures At(mem', root', c, RotatedRight(t))
  {
    var a, y, b, d := t.right, t.left, t.left.right, t.left.left;
    RotateRightFrame(mem, mem', root, c, t);
    RotatedRightRefs(t);
    assert TreeAt(mem, y, t.ref) && Unique(y);
    TreeFrame(mem, mem', a, t.ref);
    TreeFrame(mem, mem', d, y.ref);
    Reparented(mem, mem', b, y.ref, t.ref);
    Rehung(mem, mem', c, t.ref, y.ref);
  }
}
