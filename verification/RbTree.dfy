/** `struct rb_tree` and its operations. */
module RbTree {
  import opened RbShape
  import opened RbLinks
  import opened RbSpec
  import opened RbInsert
  import opened RbDelete

  /** `rb_tree_search`, with the number of nodes it visits. */
  method Search(mem: Memory, root: Ref, key: nat, ghost shape: Tree)
    returns (node: Ref, ghost steps: nat, ghost c: Ctx, ghost t: Tree)
    requires At(mem, root, Top, shape) && Sorted(Inorder(shape))
    ensures At(mem, root, c, t) && node == Root(t) && Plug(c, t) == shape
    ensures steps <= Height(shape)
    ensures node != NULL <==> Scan(Inorder(shape), key) < |Inorder(shape)|
    ensures node != NULL ==> node in mem && mem[node].item == Inorder(shape)[Scan(Inorder(shape), key)]
    ensures node != NULL ==> t.Node? && Contains(t.item, key)
  {
    node, steps, c, t := root, 0, Top, shape;
    while node != NULL
      invariant At(mem, root, c, t) && node == Root(t) && Plug(c, t) == shape
      invariant forall y :: y in Before(c) ==> y.end < key
      invariant forall y :: y in After(c) ==> key < y.start
      invariant steps + Height(t) <= Height(shape)
      decreases t
    {
      FocusFacts(mem, root, c, t);
      MoveDown(mem, root, c, t);
      steps := steps + 1;
      if key < mem[node].item.start {
        node := mem[node].left;
        BelowAfter(c, t, key);
        c, t := InLeft(c, t.ref, t.item, t.red, t.right), t.left;
      } else if key > mem[node].item.end {
        node := mem[node].right;
        AboveBefore(c, t, key);
        c, t := InRight(c, t.left, t.ref, t.item, t.red), t.right;
      } else {
        Found(c, t, key);
        return;
      }
    }
    NotFound(c, key);
  }

  function Height(t: Tree): nat {
    if t.Leaf? then 0 else 1 + if Height(t.left) < Height(t.right) then Height(t.right) else Height(t.left)
  }

  /** Going left, everything to the right of the new focus starts above `key`. */
  lemma BelowAfter(c: Ctx, t: Tree, key: nat)
    requires t.Node? && Sorted(Inorder(Plug(c, t))) && key < t.item.start
    ensures forall y :: y in After(InLeft(c, t.ref, t.item, t.red, t.right)) ==> key < y.start
  {
    InorderSplit(c, t);
    SortedMid(Before(c) + Inorder(t.left), t.item, Inorder(t.right) + After(c));
  }

  /** Going right, everything to the left of the new focus ends below `key`. */
  lemma AboveBefore(c: Ctx, t: Tree, key: nat)
    requires t.Node? && Sorted(Inorder(Plug(c, t))) && t.item.end < key
    ensures forall y :: y in Before(InRight(c, t.left, t.ref, t.item, t.red)) ==> y.end < key
  {
    InorderSplit(c, t);
    SortedMid(Before(c) + Inorder(t.left), t.item, Inorder(t.right) + After(c));
  }

  lemma Found(c: Ctx, t: Tree, key: nat)
    requires t.Node? && Sorted(Inorder(Plug(c, t))) && Contains(t.item, key)
    ensures var s, b, a := Inorder(Plug(c, t)), Before(c) + Inorder(t.left), Inorder(t.right) + After(c);
      s == b + [t.item] + a && Scan(s, key) == |b| && Removed(s, key) == b + a
  {
    var b, a := Before(c) + Inorder(t.left), Inorder(t.right) + After(c);
    InorderSplit(c, t);
    ScanFinds(b, t.item, a, key);
    RemovedMid(b, t.item, a, key);
  }

  lemma NotFound(c: Ctx, key: nat)
    requires forall y :: y in Before(c) ==> y.end < key
    requires forall y :: y in After(c) ==> key < y.start
    ensures Scan(Inorder(Plug(c, Leaf)), key) == |Inorder(Plug(c, Leaf))|
  {
    var s := Inorder(Plug(c, Leaf));
    InorderPlug(c, Leaf);
    assert forall i :: 0 <= i < |s| ==> s[i] in Before(c) || s[i] in After(c);
    assert forall i :: 0 <= i < |s| ==> !Contains(s[i], key);
  }

  // ---------------------------------------------------------------- insertion

  /** The descent of `rb_tree_insert`: the node under which a new range goes, unless a
      stored range overlaps it. */
  method FindSlot(mem: Memory, root: Ref, item: Item, ghost shape: Tree)
    returns (overlap: bool, parent: Ref, ghost c: Ctx)
    requires item.start <= item.end && At(mem, root, Top, shape) && Sorted(Inorder(shape))
    ensures overlap <==> AnyOverlap(Inorder(shape), item.start, item.end)
    ensures !overlap ==> At(mem, root, c, Leaf) && Plug(c, Leaf) == shape && parent == Parent(c)
    ensures !overlap && c.InLeft? ==> item.end < c.item.start
    ensures !overlap && c.InRight? ==> c.item.end < item.start
    ensures !overlap ==> Inserted(Inorder(shape), item) == Before(c) + [item] + After(c)
  {
    var node := root;
    parent, c := NULL, Top;
    ghost var t := shape;
    while node != NULL
      invariant At(mem, root, c, t) && node == Root(t) && parent == Parent(c) && Plug(c, t) == shape
      invariant forall y :: y in Before(c) ==> y.end < item.start
      invariant forall y :: y in After(c) ==> item.end < y.start
      invariant c.InLeft? ==> item.end < c.item.start
      invariant c.InRight? ==> c.item.end < item.start
      decreases t
    {
      FocusFacts(mem, root, c, t);
      MoveDown(mem, root, c, t);
      parent := node;
      if item.start > mem[node].item.end {
        node := mem[node].right;
        AboveBefore(c, t, item.start);
        c, t := InRight(c, t.left, t.ref, t.item, t.red), t.right;
      } else if item.end < mem[node].item.start {
        node := mem[node].left;
        BelowAfter(c, t, item.end);
        c, t := InLeft(c, t.ref, t.item, t.red, t.right), t.left;
      } else {
        InorderSplit(c, t);
        assert Inorder(shape)[|Before(c) + Inorder(t.left)|] == t.item;
        return true, NULL, c;
      }
    }
    SlotFound(c, item);
    overlap := false;
  }

  lemma SlotFound(c: Ctx, item: Item)
    requires item.start <= item.end && Sorted(Inorder(Plug(c, Leaf)))
    requires forall y :: y in Before(c) ==> y.end < item.start
    requires forall y :: y in After(c) ==> item.end < y.start
    ensures var s := Inorder(Plug(c, Leaf));
      !AnyOverlap(s, item.start, item.end) && Inserted(s, item) == Before(c) + [item] + After(c)
  {
    var b, a := Before(c), After(c);
    InorderPlug(c, Leaf);
    assert Inorder(Plug(c, Leaf)) == b + a;
    forall y | y in b ensures y.start <= y.end {
      assert y in b + a;
      SortedItem(b + a, y);
    }
    InsertedBetween(b, a, item);
    NoneOverlaps(b, a, item);
  }

  /** Linking a new red node into the hole. */
  lemma HungAt(mem: Memory, mem': Memory, root: Ref, root': Ref, c: Ctx, x: Ref, item: Item)
    requires At(mem, root, c, Leaf) && x != NULL && x !in mem && x in mem'
    requires mem'[x] == RbNode(item, true, Parent(c), NULL, NULL)
    requires root' == if c.Top? then x else root
    requires !c.Top? ==> c.ref in mem && c.ref in mem'
    requires !c.Top? ==> mem'[c.ref] == (if c.InLeft? then mem[c.ref].(left := x) else mem[c.ref].(right := x))
    requires forall n :: n in mem && n != Parent(c) ==> n in mem' && mem'[n] == mem[n]
    ensures At(mem', root', c, Node(Leaf, x, item, true, Leaf))
  {
    NoNullCtx(mem, c, NULL);
    Rehung(mem, mem', c, NULL, x);
  }

  lemma HungContents(c: Ctx, t: Tree, s: seq<Item>)
    requires t.Node? && t.left.Leaf? && t.right.Leaf? && Inserted(s, t.item) == Before(c) + [t.item] + After(c)
    requires Sorted(s) && t.item.start <= t.item.end && !AnyOverlap(s, t.item.start, t.item.end)
    ensures Inorder(Plug(c, t)) == Inserted(s, t.item) && Sorted(Inserted(s, t.item))
  {
    InsertedSorted(s, t.item);
    InorderPlug(c, t);
    assert Inorder(t) == [t.item];
  }

  lemma HungInv(c: Ctx, x: Ref, item: Item)
    requires RedBlack(Plug(c, Leaf))
    ensures InsertInv(c, Node(Leaf, x, item, true, Leaf))
  {
    PlugRedBlackParts(c, Leaf);
  }

  lemma MoveUpFacts(mem: Memory, root: Ref, c: Ctx)
    requires At(mem, root, c, Leaf)
    ensures !c.Top? ==> c.ref != NULL && c.ref in mem && mem[c.ref].item == c.item
    ensures CtxRefs(c) == Refs(Plug(c, Leaf))
  {
    MoveToTop(mem, root, c, Leaf);
  }

  /** Fills in the new node and hangs it under `parent`. */
  method Hang(mem0: Memory, root0: Ref, parent: Ref, item: Item, newNode: Ref, ghost c: Ctx)
    returns (mem: Memory, root: Ref)
    requires At(mem0, root0, c, Leaf) && parent == Parent(c) && newNode != NULL && newNode !in mem0
    requires item.start <= item.end
    requires c.InLeft? ==> item.end < c.item.start
    requires c.InRight? ==> c.item.end < item.start && c.item.start <= c.item.end
    ensures At(mem, root, c, Node(Leaf, newNode, item, true, Leaf)) && Items(mem) == Items(mem0)[newNode := item]
  {
    mem, root := mem0, root0;
    MoveUpFacts(mem, root, c);
    mem := mem[newNode := RbNode(item, true, parent, NULL, NULL)];
    if parent != NULL {
      if item.end < mem[parent].item.start {
        mem := mem[parent := mem[parent].(left := newNode)];
      } else {
        // the source's third branch, an overlap with the parent, cannot be reached
        assert item.start > mem[parent].item.end;
        mem := mem[parent := mem[parent].(right := newNode)];
      }
    } else {
      root := newNode;
    }
    ItemsAdded(mem0, mem, newNode, item);
    HungAt(mem0, mem, root0, root, c, newNode, item);
  }

  /** Memory holds exactly the nodes of a sorted red-black tree. */
  ghost predicate TreeOk(mem: Memory, root: Ref, shape: Tree) {
    && At(mem, root, Top, shape) && mem.Keys == Refs(shape)
    && RedBlack(shape) && Sorted(Inorder(shape))
  }

  /** `rb_tree_insert`; `newNode` is what `kmalloc` answers. */
  method InsertRange(mem0: Memory, root0: Ref, item: Item, newNode: Ref, ghost shape0: Tree)
    returns (r: Ref, mem: Memory, root: Ref, ghost shape: Tree)
    requires TreeOk(mem0, root0, shape0) && newNode !in mem0
    ensures TreeOk(mem, root, shape) && Items(mem) == if r == NULL then Items(mem0) else Items(mem0)[r := item]
    ensures r == NULL <==> item.start > item.end || AnyOverlap(Inorder(shape0), item.start, item.end) || newNode == NULL
    ensures r == NULL ==> root == root0 && mem == mem0 && shape == shape0
    ensures r != NULL ==> r == newNode && Inorder(shape) == Inserted(Inorder(shape0), item)
  {
    r, mem, root, shape := NULL, mem0, root0, shape0;
    if item.start > item.end {
      return;
    }
    var overlap, parent;
    ghost var c;
    overlap, parent, c := FindSlot(mem, root, item, shape);
    if overlap || newNode == NULL {
      return;
    }
    ghost var t := Node(Leaf, newNode, item, true, Leaf);
    PlugItem(c, shape0);
    MoveUpFacts(mem, root, c);
    mem, root := Hang(mem, root, parent, item, newNode, c);
    HungInv(c, newNode, item);
    HungContents(c, t, Inorder(shape));
    mem, root, shape := InsertFixup(mem, root, newNode, c, t);
    r := newNode;
  }

  /** The node above a hole holds a well-formed range. */
  lemma PlugItem(c: Ctx, shape: Tree)
    requires Plug(c, Leaf) == shape && Sorted(Inorder(shape))
    ensures !c.Top? ==> c.item.start <= c.item.end
  {
    if !c.Top? {
      var t := Zip(c, Leaf);
      InorderSplit(c.up, t);
      assert c.item in Inorder(shape);
      SortedItem(Inorder(shape), c.item);
    }
  }

  // ---------------------------------------------------------------- removal

  const EINVAL: int := 22

  /** `rb_tree_remove`. */
  method RemoveKey(mem0: Memory, root0: Ref, key: nat, ghost shape0: Tree)
    returns (ret: int, mem: Memory, root: Ref, ghost shape: Tree)
    requires TreeOk(mem0, root0, shape0)
    ensures TreeOk(mem, root, shape) && mem.Keys <= mem0.Keys
    ensures ret == 0 ==> exists z :: z in mem0 && Contains(mem0[z].item, key) && Items(mem) == Items(mem0) - {z}
    ensures ret == if Scan(Inorder(shape0), key) < |Inorder(shape0)| then 0 else -EINVAL
    ensures ret != 0 ==> mem == mem0 && root == root0 && shape == shape0
    ensures Inorder(shape) == Removed(Inorder(shape0), key)
  {
    ret, mem, root, shape := -EINVAL, mem0, root0, shape0;
    var nodez;
    ghost var steps, c, t;
    nodez, steps, c, t := Search(mem, root, key, shape);
    if nodez == NULL {
      return;
    }
    Found(c, t, key);
    SortedWithout(Inorder(shape0), Scan(Inorder(shape0), key));
    MoveToTop(mem, root, c, t);
    mem, root, shape := RemoveNode(mem, root, nodez, c, t);
    ret := 0;
  }

  class RbTree {
    var root: Ref
    var mem: Memory
    ghost var shape: Tree

    ghost predicate Valid()
      reads this
    {
      TreeOk(mem, root, shape)
    }

    /** The stored ranges, in ascending order. */
    ghost function Contents(): seq<Item>
      reads this
    {
      Inorder(shape)
    }

    /** `rb_tree_create`. */
    constructor ()
      ensures Valid() && Contents() == []
    {
      root, mem, shape := NULL, map[], Leaf;
    }

    method Insert(start: nat, end: nat, value: nat, newNode: Ref) returns (r: Ref)
      requires Valid() && newNode !in mem
      modifies this
      ensures Valid() && Items(mem) == if r == NULL then Items(old(mem)) else Items(old(mem))[r := Item(start, end, value)]
      ensures r == NULL <==> start > end || AnyOverlap(old(Contents()), start, end) || newNode == NULL
      ensures r == NULL ==> root == old(root) && mem == old(mem) && Contents() == old(Contents())
      ensures r != NULL ==> r == newNode && Contents() == Inserted(old(Contents()), Item(start, end, value))
    {
      var mem1, root1;
      r, mem1, root1, shape := InsertRange(mem, root, Item(start, end, value), newNode, shape);
      mem, root := mem1, root1;
    }

    method Remove(key: nat) returns (ret: int)
      requires Valid()
      modifies this
      ensures Valid() && mem.Keys <= old(mem).Keys
      ensures ret == 0 ==> exists z :: z in old(mem) && Contains(old(mem)[z].item, key) && Items(mem) == Items(old(mem)) - {z}
      ensures ret == if Scan(old(Contents()), key) < |old(Contents())| then 0 else -EINVAL
      ensures ret != 0 ==> root == old(root) && mem == old(mem)
      ensures Contents() == Removed(old(Contents()), key)
    {
      var mem1, root1;
      ret, mem1, root1, shape := RemoveKey(mem, root, key, shape);
      mem, root := mem1, root1;
    }

    /** `rb_tree_search` and `rb_node_value`; the answer of a linear scan. */
    method Find(key: nat) returns (node: Ref, value: nat)
      requires Valid()
      ensures node != NULL <==> Scan(Contents(), key) < |Contents()|
      ensures node != NULL ==> value == Contents()[Scan(Contents(), key)].value
    {
      ghost var steps, c, t;
      node, steps, c, t := Search(mem, root, key, shape);
      value := if node != NULL then mem[node].item.value else 0;
    }
  }
}
