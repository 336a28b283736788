/** The shape of a red-black interval tree as a value: the tree that a linked structure of
    nodes spells out, the zipper that the fixup loops walk, and the red-black and ordering
    facts about both. */
module RbShape {

  /** The address of a node; `NULL` is no node. */
  type Ref = nat
  const NULL: Ref := 0

  /** What a node stores: a closed range of keys and a value. */
  datatype Item = Item(start: nat, end: nat, value: nat)

  datatype Tree = Leaf | Node(left: Tree, ref: Ref, item: Item, red: bool, right: Tree)

  /** A tree with a hole, from the hole up to the root. */
  datatype Ctx =
    | Top
    | InLeft(up: Ctx, ref: Ref, item: Item, red: bool, sibling: Tree)
    | InRight(up: Ctx, sibling: Tree, ref: Ref, item: Item, red: bool)

  /** The tree one level up, with `t` in the hole. */
  function Zip(c: Ctx, t: Tree): Tree
    requires !c.Top?
  {
    match c
    case InLeft(_, p, item, red, right) => Node(t, p, item, red, right)
    case InRight(_, left, p, item, red) => Node(left, p, item, red, t)
  }

  function Plug(c: Ctx, t: Tree): Tree
    decreases c
  {
    if c.Top? then t else Plug(c.up, Zip(c, t))
  }

  function Refs(t: Tree): set<Ref> {
    match t
    case Leaf => {}
    case Node(l, x, _, _, r) => Refs(l) + {x} + Refs(r)
  }

  function CtxRefs(c: Ctx): set<Ref> {
    if c.Top? then {} else CtxRefs(c.up) + {c.ref} + Refs(c.sibling)
  }

  /** No node occurs twice. */
  predicate Unique(t: Tree) {
    match t
    case Leaf => true
    case Node(l, x, _, _, r) =>
      Unique(l) && Unique(r) && x !in Refs(l) && x !in Refs(r) && Refs(l) !! Refs(r)
  }

  predicate UniqueCtx(c: Ctx) {
    c.Top? ||
    (&& UniqueCtx(c.up) && Unique(c.sibling)
     && c.ref !in CtxRefs(c.up) && c.ref !in Refs(c.sibling) && CtxRefs(c.up) !! Refs(c.sibling))
  }

  // ---------------------------------------------------------------- in-order contents

  function Inorder(t: Tree): seq<Item> {
    match t
    case Leaf => []
    case Node(l, _, item, _, r) => Inorder(l) + [item] + Inorder(r)
  }

  /** What comes before and after the hole in the in-order sequence. */
  function Before(c: Ctx): seq<Item> {
    match c
    case Top => []
    case InLeft(up, _, _, _, _) => Before(up)
    case InRight(up, left, _, item, _) => Before(up) + Inorder(left) + [item]
  }

  function After(c: Ctx): seq<Item> {
    match c
    case Top => []
    case InLeft(up, _, item, _, right) => [item] + Inorder(right) + After(up)
    case InRight(up, _, _, _, _) => After(up)
  }

  lemma Regroup(b: seq<Item>, l: seq<Item>, x: seq<Item>, r: seq<Item>, a: seq<Item>)
    ensures b + (l + x + r) + a == b + l + (x + r + a) == (b + l + x) + r + a
    ensures b + l + (x + r + a) == b + l + ((x + r) + a)
  {}

  lemma RegroupMid(b: seq<Item>, l: seq<Item>, x: seq<Item>, r: seq<Item>, a: seq<Item>)
    ensures b + (l + x + r) + a == (b + l) + x + (r + a)
  {}

  lemma {:induction false} InorderPlug(c: Ctx, t: Tree)
    ensures Inorder(Plug(c, t)) == Before(c) + Inorder(t) + After(c)
    decreases c
  {
    if !c.Top? {
      InorderPlug(c.up, Zip(c, t));
      if c.InLeft? {
        Regroup(Before(c.up), Inorder(t), [c.item], Inorder(c.sibling), After(c.up));
      } else {
        Regroup(Before(c.up), Inorder(c.sibling), [c.item], Inorder(t), After(c.up));
      }
    }
  }

  /** The contents around the node in focus. */
  lemma InorderSplit(c: Ctx, t: Tree)
    requires t.Node?
    ensures Inorder(Plug(c, t)) == (Before(c) + Inorder(t.left)) + [t.item] + (Inorder(t.right) + After(c))
  {
    InorderPlug(c, t);
    RegroupMid(Before(c), Inorder(t.left), [t.item], Inorder(t.right), After(c));
  }

  /** The stored ranges are well formed, pairwise disjoint and ascending. */
  predicate Sorted(s: seq<Item>) {
    && (forall i :: 0 <= i < |s| ==> s[i].start <= s[i].end)
    && (forall i, j :: 0 <= i < j < |s| ==> s[i].end < s[j].start)
  }

  // ---------------------------------------------------------------- rotations

  function RotatedLeft(t: Tree): Tree
    requires t.Node? && t.right.Node?
  {
    var y := t.right;
    Node(Node(t.left, t.ref, t.item, t.red, y.left), y.ref, y.item, y.red, y.right)
  }

  function RotatedRight(t: Tree): Tree
    requires t.Node? && t.left.Node?
  {
    var y := t.left;
    Node(y.left, y.ref, y.item, y.red, Node(y.right, t.ref, t.item, t.red, t.right))
  }

  lemma RotatedLeftInorder(t: Tree)
    requires t.Node? && t.right.Node?
    ensures Inorder(RotatedLeft(t)) == Inorder(t)
  {
    var a, y, b, d := t.left, t.right, t.right.left, t.right.right;
    Regroup(Inorder(a), [t.item], Inorder(b), [y.item], Inorder(d));
  }

  lemma RotatedRightInorder(t: Tree)
    requires t.Node? && t.left.Node?
    ensures Inorder(RotatedRight(t)) == Inorder(t)
  {
    var y, b, d, e := t.left, t.left.left, t.left.right, t.right;
    Regroup(Inorder(b), [y.item], Inorder(d), [t.item], Inorder(e));
  }

  lemma RotatedLeftRefs(t: Tree)
    requires t.Node? && t.right.Node? && Unique(t)
    ensures Refs(RotatedLeft(t)) == Refs(t) && Unique(RotatedLeft(t))
  {
    assert Unique(t.right) && Unique(Node(t.left, t.ref, t.item, t.red, t.right.left));
  }

  lemma RotatedRightRefs(t: Tree)
    requires t.Node? && t.left.Node? && Unique(t)
    ensures Refs(RotatedRight(t)) == Refs(t) && Unique(RotatedRight(t))
  {
    assert Unique(t.left) && Unique(Node(t.left.right, t.ref, t.item, t.red, t.right));
  }

  // ---------------------------------------------------------------- red-black invariants

  predicate IsRed(t: Tree) { t.Node? && t.red }

  function Paint(t: Tree, red: bool): Tree {
    if t.Node? then t.(red := red) else t
  }

  /** No red node has a red child. */
  predicate RedOk(t: Tree) {
    match t
    case Leaf => true
    case Node(l, _, _, red, r) => RedOk(l) && RedOk(r) && !(red && (IsRed(l) || IsRed(r)))
  }

  /** Number of black nodes on the leftmost path; on every path when `Balanced`. */
  function BlackHeight(t: Tree): nat {
    match t
    case Leaf => 0
    case Node(l, _, _, red, _) => BlackHeight(l) + if red then 0 else 1
  }

  predicate Balanced(t: Tree) {
    match t
    case Leaf => true
    case Node(l, _, _, _, r) => Balanced(l) && Balanced(r) && BlackHeight(l) == BlackHeight(r)
  }

  /** Black root, no red-red edge, equal black heights. */
  predicate RedBlack(t: Tree) { !IsRed(t) && RedOk(t) && Balanced(t) }

  /** The hole must be filled by a tree of black height `h`. */
  predicate CtxBalanced(c: Ctx, h: nat) {
    c.Top? ||
    (&& Balanced(c.sibling) && BlackHeight(c.sibling) == h
     && CtxBalanced(c.up, h + if c.red then 0 else 1))
  }

  /** No red-red edge around the hole, when the hole's own root is red as given. */
  predicate CtxRedOk(c: Ctx, hole: bool) {
    c.Top? ||
    (RedOk(c.sibling) && !(c.red && (hole || IsRed(c.sibling))) && CtxRedOk(c.up, c.red))
  }

  /** The root is black, or it is in the hole. */
  predicate CtxRootBlack(c: Ctx) {
    c.Top? || (if c.up.Top? then !c.red else CtxRootBlack(c.up))
  }

  lemma {:induction false} PlugRedBlack(c: Ctx, t: Tree)
    requires Balanced(t) && CtxBalanced(c, BlackHeight(t))
    requires RedOk(t) && CtxRedOk(c, IsRed(t))
    ensures Balanced(Plug(c, t)) && RedOk(Plug(c, t))
    ensures CtxRootBlack(c) && (c.Top? ==> !IsRed(t)) ==> RedBlack(Plug(c, t))
    decreases c
  {
    if !c.Top? {
      PlugRedBlack(c.up, Zip(c, t));
    }
  }

  /** The parts of a red-black tree are in order around any focus. */
  lemma {:induction false} PlugRedBlackParts(c: Ctx, t: Tree)
    requires RedBlack(Plug(c, t))
    ensures Balanced(t) && RedOk(t)
    ensures CtxBalanced(c, BlackHeight(t)) && CtxRedOk(c, IsRed(t)) && CtxRootBlack(c)
    decreases c
  {
    if !c.Top? {
      PlugRedBlackParts(c.up, Zip(c, t));
    }
  }
}
