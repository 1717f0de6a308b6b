/** Hanging a new red leaf below the node where the search for its key ends. */
module RbAttach {
  import opened RbShape
  import opened RbLinks
  import opened RbInsert

  /** The hole left of, or right of, the top of the shape in focus. */
  ghost function Hole(p: Spine, t: Shape, left: bool): Spine
    requires t.Fork?
  {
    if left then InLeft(p, t.node, t.key, t.red, t.right) else InRight(p, t.left, t.node, t.key, t.red)
  }

  ghost function Child(t: Shape, left: bool): Shape
    requires t.Fork?
  {
    if left then t.left else t.right
  }

  ghost function NewLeaf(node: Node, key: nat): Shape {
    Fork(Leaf, node, key, true, Leaf)
  }

  /** Everything left of the hole is at most `key`, everything right of it is greater. */
  ghost predicate Brackets(p: Spine, key: nat) {
    && (forall e :: e in Before(p) ==> e.key <= key)
    && (forall e :: e in After(p) ==> key < e.key)
  }

  lemma Regroup(a: seq<Entry>, l: seq<Entry>, e: Entry, r: seq<Entry>, b: seq<Entry>)
    ensures a + (l + [e] + r) + b == (a + l) + [e] + (r + b)
  {
  }

  lemma Descend(p: Spine, t: Shape, key: nat)
    requires t.Fork? && Sorted(Items(Plug(p, t))) && Brackets(p, key)
    ensures Plug(Hole(p, t, key < t.key), Child(t, key < t.key)) == Plug(p, t)
    ensures Brackets(Hole(p, t, key < t.key), key)
  {
    PlugItems(p, t);
    var here := Entry(t.node, t.key);
    Regroup(Before(p), Items(t.left), here, Items(t.right), After(p));
    SortedAround(Before(p) + Items(t.left), here, Items(t.right) + After(p));
  }

  /** The pointer `hole` of `x` now leads to the new node, which is red, childless and knows its parent. */
  ghost predicate Attached(h: Heap, h': Heap, x: Node, left: bool, node: Node, key: nat) {
    && h'.root == h.root && h'.nil == h.nil && node !in h.cells && x in h.cells && x != h.nil
    && h'.cells.Keys == h.cells.Keys + {node}
    && h'.cells[node] == Cell(key, true, h.nil, h.nil, x)
    && h'.cells[x] == (if left then h.cells[x].(left := node) else h.cells[x].(right := node))
    && forall n :: n in h.cells && n != x ==> Same(h, h', n)
  }

  lemma AttachLinks(h: Heap, h': Heap, p: Spine, t: Shape, left: bool, node: Node, key: nat)
    requires t.Fork? && Focus(h, p, t) && Child(t, left).Leaf? && Attached(h, h', t.node, left, node, key)
    requires node !in Nodes(t) && node !in SpineNodes(p)
    ensures Focus(h', Hole(p, t, left), NewLeaf(node, key))
  {
    var other := Child(t, !left);
    assert t.node in Nodes(t);
    forall n | n in Nodes(other) || n in SpineNodes(p)
      ensures Same(h, h', n)
    {
    }
    assert other.Fork? ==> other.node in Nodes(other);
    LinkedKept(h, h', other);
    SpineKept(h, h', p, t.node);
  }

  lemma {:induction false} LinkedInCells(h: Heap, t: Shape)
    requires Linked(h, t)
    ensures Nodes(t) <= h.cells.Keys
  {
    if t.Fork? { LinkedInCells(h, t.left); LinkedInCells(h, t.right); }
  }

  /** After the new leaf is hung, it is all that is left to repair. */
  lemma AttachStep(h: Heap, h': Heap, p: Spine, t: Shape, left: bool, node: Node, key: nat)
    requires t.Fork? && Focus(h, p, t) && Child(t, left).Leaf? && Attached(h, h', t.node, left, node, key)
    requires node !in Nodes(Plug(p, t)) && RedBlack(Plug(p, t))
    requires Sorted(Items(Plug(p, t))) && Brackets(Hole(p, t, left), key)
    ensures Fixing(h', Hole(p, t, left), NewLeaf(node, key), 0, Nodes(Plug(p, t)) + {node},
                   InsertAfterEquals(Items(Plug(p, t)), Entry(node, key)))
  {
    PlugNodes(p, t);
    AttachLinks(h, h', p, t, left, node, key);
    AttachDue(p, t, left, node, key);
  }

  lemma AttachDue(p: Spine, t: Shape, left: bool, node: Node, key: nat)
    requires t.Fork? && Child(t, left).Leaf? && RedBlack(Plug(p, t))
    requires Brackets(Hole(p, t, left), key)
    ensures InsertDue(Hole(p, t, left), NewLeaf(node, key), 0)
    ensures Nodes(Plug(Hole(p, t, left), NewLeaf(node, key))) == Nodes(Plug(p, t)) + {node}
    ensures Items(Plug(Hole(p, t, left), NewLeaf(node, key))) == InsertAfterEquals(Items(Plug(p, t)), Entry(node, key))
  {
    var q := Hole(p, t, left);
    assert Plug(q, Leaf) == Plug(p, t);
    LeafDue(q, node, key);
    LeafFills(q, node, key);
  }

  lemma LeafDue(q: Spine, node: Node, key: nat)
    requires RedBlack(Plug(q, Leaf))
    ensures InsertDue(q, NewLeaf(node, key), 0)
  {
    var b := UnplugRedBlack(q, Leaf);
  }

  lemma LeafFills(q: Spine, node: Node, key: nat)
    requires Brackets(q, key)
    ensures Nodes(Plug(q, NewLeaf(node, key))) == Nodes(Plug(q, Leaf)) + {node}
    ensures Items(Plug(q, NewLeaf(node, key))) == InsertAfterEquals(Items(Plug(q, Leaf)), Entry(node, key))
  {
    PlugNodes(q, Leaf);
    PlugNodes(q, NewLeaf(node, key));
    assert Nodes(NewLeaf(node, key)) == {node};
    LeafOrder(q, Entry(node, key));
  }

  lemma LeafOrder(q: Spine, e: Entry)
    requires Brackets(q, e.key)
    ensures Items(Plug(q, NewLeaf(e.node, e.key))) == InsertAfterEquals(Items(Plug(q, Leaf)), e)
  {
    PlugItems(q, Leaf);
    PlugItems(q, NewLeaf(e.node, e.key));
    var a, b := Before(q), After(q);
    assert Items(NewLeaf(e.node, e.key)) == [e];
    assert a + [] + b == a + b;
    UpperBoundUnique(a, b, e);
  }

  /** One step of the search: the child it moves to, unless that is the sentinel. */
  lemma NextDown(h: Heap, p: Spine, t: Shape, left: bool, owned: set<Node>)
    requires t.Fork? && Focus(h, p, t) && Nodes(Plug(p, t)) == owned
    ensures t.node in h.cells && h.cells[t.node].left == Top(t.left, h.nil) && h.cells[t.node].right == Top(t.right, h.nil)
    ensures Child(t, left).Leaf? <==> Top(Child(t, left), h.nil) == h.nil
    ensures Child(t, left).Fork? ==>
      Focus(h, Hole(p, t, left), Child(t, left)) && Child(t, left).node in owned && Child(t, left).node in h.cells
      && h.cells[Child(t, left).node].key == Child(t, left).key
  {
    PlugNodes(p, t);
    if Child(t, left).Fork? {
      assert Child(t, left).node in Nodes(Child(t, left));
      if left { GoLeft(h, p, t); } else { GoRight(h, p, t); }
    }
  }

  /** A single black node is a tree. */
  lemma OneNode(h: Heap, t: Shape)
    requires t.Fork? && t.left.Leaf? && t.right.Leaf? && !t.red
    requires Linked(h, t) && h.root == t.node && h.nil != t.node && h.nil in h.cells && !h.cells[h.nil].red
    ensures Focus(h, Root, t) && RedBlack(t) && Sorted(Items(t)) && Nodes(t) == {t.node}
    ensures Items(t) == InsertAfterEquals([], Entry(t.node, t.key))
  {
    assert Balanced(t, 1);
  }
}
