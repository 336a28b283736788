/** What follows for any tree the operations maintain: the runtime validator accepts it, its
    height is logarithmic, and iteration visits the ranges in order. */
module RbFacts {
  import opened Bits
  import opened RbShape
  import opened RbLinks
  import opened RbInsert
  import opened RbSpec
  import opened RbTree

  // ---------------------------------------------------------------- the validator

  /** The downward links from `node` spell out `t`; parent links may be anything. */
  ghost predicate Below(mem: Memory, node: Ref, t: Tree)
    decreases t
  {
    match t
    case Leaf => node == NULL
    case Node(l, x, item, red, r) =>
      && node == x && x != NULL && x in mem && mem[x].item == item && mem[x].red == red
      && Below(mem, mem[x].left, l) && Below(mem, mem[x].right, r)
  }

  /** `node_validate`: whether none of its assertions fires. */
  predicate NodePasses(mem: Memory, node: Ref)
    requires node != NULL && node in mem
    requires mem[node].left == NULL || mem[node].left in mem
    requires mem[node].right == NULL || mem[node].right in mem
  {
    var n := mem[node];
    && (n.left != NULL ==> n.item.start > mem[n.left].item.end && mem[n.left].parent == node)
    && (n.right != NULL ==> n.item.end < mem[n.right].item.start && mem[n.right].parent == node)
    && !(n.red && IsRedAt(mem, n.left)) && !(n.red && IsRedAt(mem, n.right))
  }

  datatype Verdict = Fires | Passes(blacks: nat)

  /** `tree_validate`: fires, or counts the black nodes on a path. */
  ghost function TreeValidate(mem: Memory, node: Ref, t: Tree): Verdict
    requires Below(mem, node, t)
    decreases t
  {
    if node == NULL then Passes(0)
    else
    assert Below(mem, mem[node].left, t.left) && Below(mem, mem[node].right, t.right);
    if !NodePasses(mem, node) then Fires
    else
      match (TreeValidate(mem, mem[node].left, t.left), TreeValidate(mem, mem[node].right, t.right))
      case (Passes(l), Passes(r)) => if l == r then Passes(l + if mem[node].red then 0 else 1) else Fires
      case _ => Fires
  }

  /** The order that the validator checks, between each node and its children only. */
  predicate ChildOrder(t: Tree) {
    t.Leaf? ||
    (&& ChildOrder(t.left) && ChildOrder(t.right)
     && (t.left.Node? ==> t.left.item.end < t.item.start)
     && (t.right.Node? ==> t.item.end < t.right.item.start))
  }

  /** Exactly what the validator accepts. */
  lemma {:induction false} ValidateIff(mem: Memory, node: Ref, t: Tree, parent: Ref)
    requires Below(mem, node, t) && (t.Node? ==> mem[node].parent == parent)
    ensures TreeValidate(mem, node, t).Passes? <==>
      TreeAt(mem, t, parent) && ChildOrder(t) && RedOk(t) && Balanced(t)
    ensures TreeValidate(mem, node, t).Passes? ==> TreeValidate(mem, node, t).blacks == BlackHeight(t)
    decreases t
  {
    if t.Node? {
      ValidateIff(mem, mem[node].left, t.left, if t.left.Node? then mem[t.left.ref].parent else NULL);
      ValidateIff(mem, mem[node].right, t.right, if t.right.Node? then mem[t.right.ref].parent else NULL);
    }
  }

  lemma {:induction false} SortedChildOrder(c: Ctx, t: Tree)
    requires Sorted(Inorder(Plug(c, t)))
    ensures ChildOrder(t)
    decreases t
  {
    if t.Node? {
      SortedChildOrder(InLeft(c, t.ref, t.item, t.red, t.right), t.left);
      SortedChildOrder(InRight(c, t.left, t.ref, t.item, t.red), t.right);
      InorderSplit(c, t);
      SortedMid(Before(c) + Inorder(t.left), t.item, Inorder(t.right) + After(c));
      assert t.left.Node? ==> t.left.item in Inorder(t.left);
      assert t.right.Node? ==> t.right.item in Inorder(t.right);
    }
  }

  lemma {:induction false} AtBelow(mem: Memory, t: Tree, parent: Ref)
    requires TreeAt(mem, t, parent)
    ensures Below(mem, Root(t), t) && (t.Node? ==> mem[t.ref].parent == parent)
  {
    if t.Node? {
      AtBelow(mem, t.left, t.ref);
      AtBelow(mem, t.right, t.ref);
    }
  }

  /** `rb_tree_validate` after any insertion or removal: the root is black and nothing fires. */
  lemma ValidatorNeverFires(mem: Memory, root: Ref, shape: Tree)
    requires TreeOk(mem, root, shape)
    ensures !IsRedAt(mem, root) && Below(mem, root, shape) && TreeValidate(mem, root, shape).Passes?
  {
    AtBelow(mem, shape, NULL);
    SortedChildOrder(Top, shape);
    ValidateIff(mem, root, shape, NULL);
  }

  /** The validator does not see all of the order: it accepts a tree in which the range
      `[20, 20]` hangs to the left of `[10, 10]`, where a search for 20 cannot find it. */
  lemma ValidatorIsLocal() returns (mem: Memory, t: Tree)
    ensures At(mem, Root(t), Top, t) && RedBlack(t)
    ensures Below(mem, Root(t), t) && TreeValidate(mem, Root(t), t).Passes?
    ensures !Sorted(Inorder(t))
  {
    var n4 := Node(Leaf, 4, Item(20, 20, 0), true, Leaf);
    var n2 := Node(Leaf, 2, Item(1, 1, 0), false, n4);
    var n3 := Node(Leaf, 3, Item(30, 30, 0), false, Leaf);
    t := Node(n2, 1, Item(10, 10, 0), false, n3);
    mem := map[1 := RbNode(Item(10, 10, 0), false, NULL, 2, 3), 2 := RbNode(Item(1, 1, 0), false, 1, NULL, 4),
               3 := RbNode(Item(30, 30, 0), false, 1, NULL, NULL), 4 := RbNode(Item(20, 20, 0), true, 2, NULL, NULL)];
    assert TreeAt(mem, n4, 2);
    assert TreeAt(mem, n2, 1) && TreeAt(mem, n3, 1);
    assert Refs(n4) == {4} && Refs(n2) == {2, 4} && Refs(n3) == {3};
    assert Inorder(n2) == [Item(1, 1, 0), Item(20, 20, 0)];
    assert Inorder(t)[1] == Item(20, 20, 0) && Inorder(t)[2] == Item(10, 10, 0);
    AtBelow(mem, t, NULL);
    ValidateIff(mem, 1, t, NULL);
  }

  // ---------------------------------------------------------------- height

  lemma {:induction false} HeightBlack(t: Tree)
    requires RedOk(t) && Balanced(t)
    ensures Height(t) <= 2 * BlackHeight(t) + if IsRed(t) then 1 else 0
    ensures Pow2(BlackHeight(t)) <= |Inorder(t)| + 1
  {
    if t.Node? {
      HeightBlack(t.left);
      HeightBlack(t.right);
    }
  }

  /** Height at most `2 * log2(n + 1)`, said without logarithms. */
  lemma HeightBound(t: Tree)
    requires RedBlack(t)
    ensures Pow2(Height(t)) <= (|Inorder(t)| + 1) * (|Inorder(t)| + 1)
  {
    var h, n := BlackHeight(t), |Inorder(t)| + 1;
    HeightBlack(t);
    Pow2Monotone(Height(t), h + h);
    Pow2Sum(h, h);
    MulMonotone(Pow2(h), Pow2(h), n, n);
  }

  // ---------------------------------------------------------------- iteration

  /** A callback: from an item and the caller's state to a return code and a new state. */
  type Callback<!S> = (Item, S) -> (int, S)

  /** Calling back on each item of a sequence up to the first non-zero return. */
  function IterateSeq<S>(items: seq<Item>, f: Callback<S>, priv: S): (int, S) {
    if items == [] then (0, priv)
    else
      var (ret, s) := f(items[0], priv);
      if ret != 0 then (ret, s) else IterateSeq(items[1..], f, s)
  }

  /** The caller's state after calling back on every item. */
  function Fold<S>(items: seq<Item>, f: Callback<S>, priv: S): S {
    if items == [] then priv else Fold(items[1..], f, f(items[0], priv).1)
  }

  /** What the callback answers for item `k`, after all items before it. */
  function AnswerAt<S>(items: seq<Item>, f: Callback<S>, priv: S, k: nat): (int, S)
    requires k < |items|
  {
    f(items[k], Fold(items[..k], f, priv))
  }

  /** The answer is that of the first callback that does not return zero; it is zero, and every item
      has been seen, if there is none. */
  lemma {:induction false} FirstAnswer<S>(items: seq<Item>, f: Callback<S>, priv: S, k: nat)
    requires k <= |items| && forall i :: 0 <= i < k ==> AnswerAt(items, f, priv, i).0 == 0
    ensures k == |items| ==> IterateSeq(items, f, priv) == (0, Fold(items, f, priv))
    ensures k < |items| && AnswerAt(items, f, priv, k).0 != 0 ==> IterateSeq(items, f, priv) == AnswerAt(items, f, priv, k)
    decreases items
  {
    if items != [] && k > 0 {
      var s := f(items[0], priv).1;
      assert AnswerAt(items, f, priv, 0).0 == 0 && items[..0] == [];
      forall i | 0 <= i < |items| - 1 ensures AnswerAt(items[1..], f, s, i) == AnswerAt(items, f, priv, i + 1) {
        assert items[..i + 1][1..] == items[1..][..i];
      }
      FirstAnswer(items[1..], f, s, k - 1);
    } else {
      assert items != [] ==> items[..0] == [];
    }
  }

  lemma {:induction false} IterateSeqJoin<S>(x: seq<Item>, y: seq<Item>, f: Callback<S>, priv: S)
    ensures var (ret, s) := IterateSeq(x, f, priv);
      IterateSeq(x + y, f, priv) == if ret != 0 then (ret, s) else IterateSeq(y, f, s)
  {
    if x == [] {
      assert x + y == y;
    } else {
      var (ret, s) := f(x[0], priv);
      assert (x + y)[1..] == x[1..] + y;
      IterateSeqJoin(x[1..], y, f, s);
    }
  }

  /** `tree_iterate`, along the links: the ranges in order up to and including the first that the
      callback answers with something other than zero, and that answer. */
  method TreeIterate<S>(mem: Memory, node: Ref, f: Callback<S>, priv: S, ghost t: Tree) returns (ret: int, s: S)
    requires Below(mem, node, t)
    ensures (ret, s) == IterateSeq(Inorder(t), f, priv)
    decreases t
  {
    if node == NULL {
      return 0, priv;
    }
    ghost var l, r := Inorder(t.left), Inorder(t.right);
    IterateSeqJoin(l, [t.item] + r, f, priv);
    assert l + [t.item] + r == l + ([t.item] + r) && ([t.item] + r)[1..] == r;
    ret, s := TreeIterate(mem, mem[node].left, f, priv, t.left);
    if ret != 0 {
      return;
    }
    var answer := f(mem[node].item, s);
    ret, s := answer.0, answer.1;
    if ret != 0 {
      return;
    }
    ret, s := TreeIterate(mem, mem[node].right, f, s, t.right);
  }

  /** `rb_tree_iterate`: on a tree that the operations maintain, the order is ascending. */
  method Iterate<S>(mem: Memory, root: Ref, f: Callback<S>, priv: S, ghost shape: Tree) returns (ret: int, s: S)
    requires TreeOk(mem, root, shape)
    ensures (ret, s) == IterateSeq(Inorder(shape), f, priv) && Sorted(Inorder(shape))
  {
    AtBelow(mem, shape, NULL);
    ret, s := TreeIterate(mem, root, f, priv, shape);
  }
}
