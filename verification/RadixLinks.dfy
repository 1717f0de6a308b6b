/** The pointer side of the radix tree, over snapshots of the heap. */
module RadixLinks {
  import opened RadixShape

  /** The fields of one node. */
  datatype Cell = Cell(right: Node?, left: Node?, parent: Node?, value: nat)

  /** A snapshot: the root pointer and the fields of every node that was ever handed out. */
  datatype Heap = Heap(root: Node, cells: map<Node, Cell>)

  ghost function Top(t: Trie): Node? {
    if t.Nil? then null else t.node
  }

  ghost function UpNode(p: Spine): Node? {
    if p.Root? then null else p.node
  }

  /** The cells of the nodes of t spell out t, below the node `up`. */
  ghost predicate Linked(h: Heap, t: Trie, up: Node?) {
    t.Branch? ==>
      && t.node in h.cells && h.cells[t.node] == Cell(Top(t.right), Top(t.left), up, t.value)
      && Linked(h, t.left, t.node) && Linked(h, t.right, t.node)
  }

  /** The cells of the nodes on the spine spell out the spine, with the pointer `hole` in the hole. */
  ghost predicate SpineLinked(h: Heap, p: Spine, hole: Node?) {
    if p.Root? then h.root == hole
    else
      && p.node in h.cells
      && h.cells[p.node] == Cell(if p.InRight? then hole else Top(p.sib), if p.InLeft? then hole else Top(p.sib), UpNode(p.up), p.value)
      && Linked(h, p.sib, p.node) && SpineLinked(h, p.up, p.node)
  }

  /** The snapshot spells out Plug(p, t). */
  ghost predicate Focus(h: Heap, p: Spine, t: Trie) {
    && SpineApart(p) && Apart(t) && Nodes(t) !! SpineNodes(p)
    && Linked(h, t, UpNode(p)) && SpineLinked(h, p, Top(t))
  }

  // ---- frames ----

  ghost predicate Same(h: Heap, h': Heap, n: Node) {
    n in h.cells ==> n in h'.cells && h'.cells[n] == h.cells[n]
  }

  lemma {:induction false} LinkedKept(h: Heap, h': Heap, t: Trie, up: Node?)
    requires Linked(h, t, up) && forall n :: n in Nodes(t) ==> Same(h, h', n)
    ensures Linked(h', t, up)
  {
    if t.Branch? {
      assert Same(h, h', t.node);
      LinkedKept(h, h', t.left, t.node);
      LinkedKept(h, h', t.right, t.node);
    }
  }

  lemma {:induction false} SpineKept(h: Heap, h': Heap, p: Spine, hole: Node?)
    requires SpineLinked(h, p, hole) && h'.root == h.root && forall n :: n in SpineNodes(p) ==> Same(h, h', n)
    ensures SpineLinked(h', p, hole)
  {
    if !p.Root? {
      assert Same(h, h', p.node);
      LinkedKept(h, h', p.sib, p.node);
      SpineKept(h, h', p.up, p.node);
    }
  }

  lemma {:induction false} LinkedInCells(h: Heap, t: Trie, up: Node?)
    requires Linked(h, t, up)
    ensures Nodes(t) <= h.cells.Keys
  {
    if t.Branch? { LinkedInCells(h, t.left, t.node); LinkedInCells(h, t.right, t.node); }
  }

  // ---- moving the focus ----

  ghost function Child(t: Trie, right: bool): Trie
    requires t.Branch?
  {
    if right then t.right else t.left
  }

  /** The hole right of, or left of, the top of the trie in focus. */
  ghost function Hole(p: Spine, t: Trie, right: bool): Spine
    requires t.Branch?
  {
    if right then InRight(p, t.left, t.node, t.value) else InLeft(p, t.node, t.value, t.right)
  }

  lemma GoDown(h: Heap, p: Spine, t: Trie, right: bool)
    requires Focus(h, p, t) && t.Branch?
    ensures Focus(h, Hole(p, t, right), Child(t, right))
    ensures Plug(Hole(p, t, right), Child(t, right)) == Plug(p, t)
    ensures PathOf(Hole(p, t, right)) == PathOf(p) + [right]
    ensures t.node in h.cells && Top(Child(t, right)) == if right then h.cells[t.node].right else h.cells[t.node].left
  {
  }

  ghost function Raised(p: Spine, t: Trie): Trie
    requires !p.Root?
  {
    if p.InLeft? then Branch(t, p.node, p.value, p.sib) else Branch(p.sib, p.node, p.value, t)
  }

  lemma {:induction false} GoTop(h: Heap, p: Spine, t: Trie)
    requires Focus(h, p, t)
    ensures Focus(h, Root, Plug(p, t))
  {
    if !p.Root? { GoTop(h, p.up, Raised(p, t)); }
  }

  // ---- writes ----

  /** The value of a node is replaced. */
  lemma ValueSet(h: Heap, h': Heap, p: Spine, t: Trie, v: nat)
    requires Focus(h, p, t) && t.Branch?
    requires h'.root == h.root && t.node in h.cells && t.node in h'.cells && h'.cells[t.node] == h.cells[t.node].(value := v)
    requires forall n :: n in h.cells && n != t.node ==> Same(h, h', n)
    ensures Focus(h', p, t.(value := v))
  {
    assert t.node in Nodes(t);
    LinkedKept(h, h', t.left, t.node);
    LinkedKept(h, h', t.right, t.node);
    SpineKept(h, h', p, t.node);
  }

  /** A new node without value and children takes an empty place below the top. */
  lemma Attached(h: Heap, h': Heap, p: Spine, t: Trie, right: bool, next: Node)
    requires Focus(h, p, t) && t.Branch? && Child(t, right).Nil? && next !in Nodes(t) && next !in SpineNodes(p)
    requires h'.root == h.root && t.node in h.cells && t.node in h'.cells && next in h'.cells
    requires h'.cells[t.node] == if right then h.cells[t.node].(right := next) else h.cells[t.node].(left := next)
    requires h'.cells[next] == Cell(null, null, t.node, NO_VALUE)
    requires forall n :: n in h.cells && n != t.node && n != next ==> Same(h, h', n)
    ensures Focus(h', Hole(p, t, right), Branch(Nil, next, NO_VALUE, Nil))
  {
    assert t.node in Nodes(t);
    LinkedKept(h, h', Child(t, !right), t.node);
    SpineKept(h, h', p, t.node);
  }

  /** The parent drops its child. */
  lemma Detached(h: Heap, h': Heap, p: Spine, t: Trie)
    requires Focus(h, p, t) && Childless(t) && !p.Root?
    requires h'.root == h.root && p.node in h.cells && p.node in h'.cells
    requires h'.cells[p.node] == if p.InRight? then h.cells[p.node].(right := null) else h.cells[p.node].(left := null)
    requires forall n :: n in h.cells && n != p.node && n != t.node ==> Same(h, h', n)
    ensures Focus(h', p.up, Raised(p, Nil))
  {
    assert t.node in Nodes(t);
    LinkedKept(h, h', p.sib, p.node);
    SpineKept(h, h', p.up, p.node);
  }

  // ---- the free list ----

  /** From the first free node on the right pointers run through exactly the nodes of the list. */
  ghost predicate Pooled(h: Heap, first: Node?, list: seq<Node>) {
    if list == [] then first == null
    else first == list[0] && list[0] in h.cells && Pooled(h, h.cells[list[0]].right, list[1..])
  }

  ghost predicate Distinct(list: seq<Node>) {
    forall i, j :: 0 <= i < j < |list| ==> list[i] != list[j]
  }

  lemma {:induction false} PooledKept(h: Heap, h': Heap, first: Node?, list: seq<Node>)
    requires Pooled(h, first, list) && forall n :: n in list ==> Same(h, h', n)
    ensures Pooled(h', first, list)
  {
    if list != [] {
      assert Same(h, h', list[0]);
      PooledKept(h, h', h.cells[list[0]].right, list[1..]);
    }
  }

  ghost function Members(list: seq<Node>): set<Node> {
    set n | n in list
  }

  /** Every node that was ever handed out is in the tree, or on the free list exactly once, and never both. */
  ghost predicate Parted(owned: set<Node>, used: set<Node>, idle: seq<Node>) {
    owned == used + Members(idle) && used !! Members(idle) && Distinct(idle)
  }
}
