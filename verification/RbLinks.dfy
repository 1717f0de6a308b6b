/**
 The pointer side of the red-black tree, over snapshots of the heap: when the fields of a set of nodes spell out
 a shape, and what each group of pointer writes does to the shape they spell out.
 */
module RbLinks {
  import opened RbShape

  /** The fields of one node. */
  datatype Cell = Cell(key: nat, red: bool, left: Node?, right: Node?, parent: Node?)

  /** A snapshot: the root and sentinel pointers and the fields of every node the tree may touch. */
  datatype Heap = Heap(root: Node, nil: Node, cells: map<Node, Cell>)

  ghost function Top(t: Shape, nil: Node): Node {
    if t.Leaf? then nil else t.node
  }

  /** Node `n` of the snapshot is the fork of `t`; its parent field is somebody else's business. */
  ghost predicate Spells(h: Heap, n: Node, key: nat, red: bool, left: Node, right: Node) {
    n in h.cells && h.cells[n].key == key && h.cells[n].red == red && h.cells[n].left == left && h.cells[n].right == right
  }

  ghost predicate Under(h: Heap, t: Shape, n: Node) {
    t.Fork? ==> t.node in h.cells && h.cells[t.node].parent == n
  }

  /** The cells of the nodes of `t` spell out `t`. Nothing is said about the parent of the topmost node. */
  ghost predicate Linked(h: Heap, t: Shape) {
    t.Fork? ==>
      && Spells(h, t.node, t.key, t.red, Top(t.left, h.nil), Top(t.right, h.nil))
      && Under(h, t.left, t.node) && Under(h, t.right, t.node)
      && Linked(h, t.left) && Linked(h, t.right)
  }

  /** The cells of the nodes on the spine spell out the spine, with the pointer `hole` in the hole. */
  ghost predicate SpineLinked(h: Heap, p: Spine, hole: Node) {
    if p.Root? then h.root == hole else
      && (p.InLeft? ==> Spells(h, p.node, p.key, p.red, hole, Top(p.sib, h.nil)))
      && (p.InRight? ==> Spells(h, p.node, p.key, p.red, Top(p.sib, h.nil), hole))
      && Under(h, p.sib, p.node) && Linked(h, p.sib)
      && (!p.up.Root? ==> h.cells[p.node].parent == p.up.node)
      && SpineLinked(h, p.up, p.node)
  }

  ghost predicate Separate(h: Heap, p: Spine, t: Shape) {
    && SpineApart(p) && Apart(t) && Nodes(t) !! SpineNodes(p)
    && h.nil !in Nodes(t) && h.nil !in SpineNodes(p)
    && h.nil in h.cells && !h.cells[h.nil].red
  }

  /**
   The snapshot spells out Plug(p, t), and the top of `t` is what fills the hole. When `t` is empty that is the
   sentinel, whose parent field the delete fix-up uses to find its way up. The parent field of the root is not
   constrained: it may be stale.
   */
  ghost predicate Focus(h: Heap, p: Spine, t: Shape) {
    && Separate(h, p, t)
    && Linked(h, t) && SpineLinked(h, p, Top(t, h.nil))
    && (!p.Root? ==> Top(t, h.nil) in h.cells && h.cells[Top(t, h.nil)].parent == p.node)
  }

  // ---- single writes ----

  ghost function Dyed(h: Heap, n: Node, red: bool): Heap
    requires n in h.cells
  {
    h.(cells := h.cells[n := h.cells[n].(red := red)])
  }

  ghost function Hung(h: Heap, n: Node, up: Node?): Heap
    requires n in h.cells
  {
    h.(cells := h.cells[n := h.cells[n].(parent := up)])
  }

  /** Parent `up` has `m` instead of `n` for a child. */
  ghost function Rechilded(h: Heap, up: Node, n: Node, m: Node): Heap
    requires up in h.cells
  {
    h.(cells := h.cells[up := if h.cells[up].left == n then h.cells[up].(left := m) else h.cells[up].(right := m)])
  }

  /** `m` is where `n` was: below the same parent, or at the root. */
  ghost function Reseated(h: Heap, n: Node, m: Node): Heap
    requires n in h.cells && (n != h.root ==> h.cells[n].parent != null && h.cells[n].parent in h.cells)
  {
    if n == h.root then h.(root := m) else Rechilded(h, h.cells[n].parent, n, m)
  }

  /** `m` has the children, the parent and the colour of `n`. */
  ghost function Copied(h: Heap, m: Node, n: Node): Heap
    requires m in h.cells && n in h.cells
  {
    h.(cells := h.cells[m := h.cells[n].(key := h.cells[m].key)])
  }

  ghost function Forgotten(h: Heap, n: Node): Heap {
    h.(cells := h.cells - {n})
  }

  // ---- frames ----

  /** The nodes of a shape except the topmost one. */
  ghost function Below(t: Shape): set<Node> {
    if t.Leaf? then {} else Nodes(t.left) + Nodes(t.right)
  }

  lemma BelowIsLess(t: Shape)
    requires Apart(t)
    ensures t.Fork? ==> Nodes(t) == Below(t) + {t.node} && t.node !in Below(t)
  {
  }

  /** `n` has the same fields in both snapshots, except perhaps its parent. */
  ghost predicate SameButParent(h: Heap, h': Heap, n: Node) {
    n in h.cells ==> n in h'.cells && h'.cells[n].(parent := h.cells[n].parent) == h.cells[n]
  }

  ghost predicate Same(h: Heap, h': Heap, n: Node) {
    n in h.cells ==> n in h'.cells && h'.cells[n] == h.cells[n]
  }

  lemma {:induction false} LinkedKept(h: Heap, h': Heap, t: Shape)
    requires Linked(h, t) && Apart(t) && h'.nil == h.nil
    requires t.Fork? ==> SameButParent(h, h', t.node)
    requires forall n :: n in Below(t) ==> Same(h, h', n)
    ensures Linked(h', t)
  {
    if t.Fork? {
      assert t.left.Fork? ==> t.left.node in Below(t) && Same(h, h', t.left.node);
      assert t.right.Fork? ==> t.right.node in Below(t) && Same(h, h', t.right.node);
      LinkedKept(h, h', t.left);
      LinkedKept(h, h', t.right);
    }
  }

  lemma {:induction false} SpineKept(h: Heap, h': Heap, p: Spine, hole: Node)
    requires SpineLinked(h, p, hole) && SpineApart(p) && h'.nil == h.nil && h'.root == h.root
    requires forall n :: n in SpineNodes(p) ==> Same(h, h', n)
    ensures SpineLinked(h', p, hole)
  {
    if !p.Root? {
      if p.sib.Fork? { assert p.sib.node in SpineNodes(p); assert Same(h, h', p.sib.node); }
      assert Same(h, h', p.node);
      LinkedKept(h, h', p.sib);
      SpineKept(h, h', p.up, p.node);
    }
  }

  lemma {:induction false} RootOnSpine(h: Heap, p: Spine, hole: Node)
    requires !p.Root? && SpineLinked(h, p, hole)
    ensures h.root in SpineNodes(p)
  {
    if !p.up.Root? { RootOnSpine(h, p.up, p.node); }
  }

  // ---- moving the focus ----

  lemma GoLeft(h: Heap, p: Spine, t: Shape)
    requires t.Fork? && Focus(h, p, t)
    requires t.left.Leaf? ==> h.cells[h.nil].parent == t.node
    ensures Focus(h, InLeft(p, t.node, t.key, t.red, t.right), t.left)
  {
  }

  lemma GoRight(h: Heap, p: Spine, t: Shape)
    requires t.Fork? && Focus(h, p, t)
    requires t.right.Leaf? ==> h.cells[h.nil].parent == t.node
    ensures Focus(h, InRight(p, t.left, t.node, t.key, t.red), t.right)
  {
  }

  ghost function Raised(p: Spine, t: Shape): Shape
    requires !p.Root?
  {
    if p.InLeft? then Fork(t, p.node, p.key, p.red, p.sib) else Fork(p.sib, p.node, p.key, p.red, t)
  }

  lemma GoUp(h: Heap, p: Spine, t: Shape)
    requires !p.Root? && Focus(h, p, t)
    ensures Focus(h, p.up, Raised(p, t))
  {
  }

  lemma {:induction false} GoTop(h: Heap, p: Spine, t: Shape)
    requires Focus(h, p, t)
    ensures Focus(h, Root, Plug(p, t))
  {
    if !p.Root? {
      GoUp(h, p, t);
      GoTop(h, p.up, Raised(p, t));
    }
  }

  lemma {:induction false} RootBlack(h: Heap, p: Spine, hole: Node)
    requires !p.Root? && SpineLinked(h, p, hole) && TopBlack(p)
    ensures h.root in h.cells && !h.cells[h.root].red
  {
    if !p.up.Root? { RootBlack(h, p.up, p.node); }
  }

  // ---- rotations ----

  ghost function RotatedLeft(t: Shape): Shape
    requires t.Fork? && t.right.Fork?
  {
    var w := t.right;
    Fork(Fork(t.left, t.node, t.key, t.red, w.left), w.node, w.key, w.red, w.right)
  }

  ghost function RotatedRight(t: Shape): Shape
    requires t.Fork? && t.left.Fork?
  {
    var w := t.left;
    Fork(w.left, w.node, w.key, w.red, Fork(w.right, t.node, t.key, t.red, t.right))
  }

  /** The two nodes a rotation turns and the three subtrees it moves do not overlap. */
  ghost predicate Parts(t: Shape, a: Shape, x: Node, b: Shape, w: Node, c: Shape) {
    && x != w && x in Nodes(t) && w in Nodes(t)
    && x !in Nodes(a) && x !in Nodes(b) && x !in Nodes(c)
    && w !in Nodes(a) && w !in Nodes(b) && w !in Nodes(c)
    && Nodes(a) <= Nodes(t) && Nodes(b) <= Nodes(t) && Nodes(c) <= Nodes(t)
    && Nodes(a) !! Nodes(b) && Nodes(b) !! Nodes(c) && Nodes(a) !! Nodes(c)
    && Apart(a) && Apart(b) && Apart(c)
  }

  lemma PartsOfRight(t: Shape)
    requires t.Fork? && t.right.Fork? && Apart(t)
    ensures Parts(t, t.left, t.node, t.right.left, t.right.node, t.right.right)
  {
    assert Apart(t.right);
    assert Nodes(t.right) == Nodes(t.right.left) + {t.right.node} + Nodes(t.right.right);
  }

  lemma PartsOfLeft(t: Shape)
    requires t.Fork? && t.left.Fork? && Apart(t)
    ensures Parts(t, t.left.left, t.node, t.left.right, t.left.node, t.right)
  {
    assert Apart(t.left);
    assert Nodes(t.left) == Nodes(t.left.left) + {t.left.node} + Nodes(t.left.right);
  }

  lemma RotatedLeftSame(t: Shape)
    requires t.Fork? && t.right.Fork?
    ensures Nodes(RotatedLeft(t)) == Nodes(t) && Items(RotatedLeft(t)) == Items(t)
  {
    var w := t.right;
    assert Items(w) == Items(w.left) + ([Entry(w.node, w.key)] + Items(w.right));
    assert Items(RotatedLeft(t).left) == Items(t.left) + [Entry(t.node, t.key)] + Items(w.left);
  }

  lemma RotatedRightSame(t: Shape)
    requires t.Fork? && t.left.Fork?
    ensures Nodes(RotatedRight(t)) == Nodes(t) && Items(RotatedRight(t)) == Items(t)
    ensures RotatedLeft(RotatedRight(t)) == t
  {
    RotatedLeftSame(RotatedRight(t));
  }

  lemma RotatedLeftApart(t: Shape)
    requires t.Fork? && t.right.Fork? && Apart(t)
    ensures Apart(RotatedLeft(t))
  {
    PartsOfRight(t);
    var r := RotatedLeft(t);
    assert Nodes(r.left) == Nodes(t.left) + {t.node} + Nodes(t.right.left);
    assert Apart(r.left);
  }

  lemma RotatedRightApart(t: Shape)
    requires t.Fork? && t.left.Fork? && Apart(t)
    ensures Apart(RotatedRight(t))
  {
    PartsOfLeft(t);
    var r := RotatedRight(t);
    assert Nodes(r.right) == Nodes(t.left.right) + {t.node} + Nodes(t.right);
    assert Apart(r.right);
  }

  /** `x` may be rotated with its child `w`, whose inner child is `b`: the cells involved exist and are distinct. */
  ghost predicate Turnable(h: Heap, x: Node, w: Node, b: Node) {
    && h.nil != x && h.nil != w && x != w && b != x && b != w
    && x in h.cells && w in h.cells && b in h.cells
    && (x != h.root ==>
         var up := h.cells[x].parent;
         up != null && up in h.cells && up != x && up != w && up != b && up != h.nil)
  }

  ghost predicate CanTurnLeft(h: Heap, x: Node) {
    && x in h.cells && h.cells[x].right != null
    && h.cells[x].right in h.cells && h.cells[h.cells[x].right].left != null
    && Turnable(h, x, h.cells[x].right, h.cells[h.cells[x].right].left)
  }

  ghost predicate CanTurnRight(h: Heap, x: Node) {
    && x in h.cells && h.cells[x].left != null
    && h.cells[x].left in h.cells && h.cells[h.cells[x].left].right != null
    && Turnable(h, x, h.cells[x].left, h.cells[h.cells[x].left].right)
  }

  /** The cell of `n` once x hangs below its former right child. */
  ghost function LeftTurned(h: Heap, x: Node, n: Node): Cell
    requires CanTurnLeft(h, x) && n in h.cells
  {
    var w := h.cells[x].right;
    var b := h.cells[w].left;
    var c := h.cells[n];
    if n == x then c.(right := b, parent := w)
    else if n == w then c.(left := x, parent := h.cells[x].parent)
    else if n == b && b != h.nil then c.(parent := x)
    else if x != h.root && n == h.cells[x].parent then (if c.left == x then c.(left := w) else c.(right := w))
    else c
  }

  /** The cell of `n` once x hangs below its former left child. */
  ghost function RightTurned(h: Heap, x: Node, n: Node): Cell
    requires CanTurnRight(h, x) && n in h.cells
  {
    var w := h.cells[x].left;
    var b := h.cells[w].right;
    var c := h.cells[n];
    if n == x then c.(left := b, parent := w)
    else if n == w then c.(right := x, parent := h.cells[x].parent)
    else if n == b && b != h.nil then c.(parent := x)
    else if x != h.root && n == h.cells[x].parent then (if c.right == x then c.(right := w) else c.(left := w))
    else c
  }

  /** The child pointer that led to the hole, redirected to `w`. */
  ghost function Redirected(p: Spine, c: Cell, n: Node, w: Node): Cell {
    if p.InLeft? && n == p.node then c.(left := w)
    else if p.InRight? && n == p.node then c.(right := w)
    else c
  }

  /** The spine is linked to its new hole once its lowest node (or the root pointer) is redirected. */
  lemma SpineRedirected(h: Heap, h': Heap, p: Spine, hole: Node, hole': Node)
    requires SpineLinked(h, p, hole) && SpineApart(p) && h'.nil == h.nil
    requires h'.root == if p.Root? then hole' else h.root
    requires forall n :: n in SpineNodes(p) && n in h.cells ==>
      n in h'.cells && h'.cells[n] == Redirected(p, h.cells[n], n, hole')
    ensures SpineLinked(h', p, hole')
  {
    if !p.Root? {
      forall n | n in Nodes(p.sib) || n in SpineNodes(p.up)
        ensures Same(h, h', n)
      {
        assert n in SpineNodes(p) && n != p.node;
      }
      assert p.node in SpineNodes(p);
      if p.sib.Fork? { assert p.sib.node in Nodes(p.sib); }
      LinkedKept(h, h', p.sib);
      SpineKept(h, h', p.up, p.node);
    }
  }

  /** What a rotation leaves alone: the three subtrees it moves and everything on the spine but the redirected pointer. */
  lemma TurnFrame(h: Heap, h': Heap, p: Spine, t: Shape, a: Shape, x: Node, b: Shape, w: Node, c: Shape)
    requires Parts(t, a, x, b, w, c) && Nodes(t) !! SpineNodes(p) && SpineApart(p)
    requires Linked(h, a) && Linked(h, b) && Linked(h, c) && SpineLinked(h, p, x)
    requires h'.nil == h.nil && h'.root == if p.Root? then w else h.root
    requires forall n :: n in h.cells && n != x && n != w ==>
      n in h'.cells && (if b.Fork? && n == b.node then SameButParent(h, h', n)
                        else h'.cells[n] == Redirected(p, h.cells[n], n, w))
    ensures Linked(h', a) && Linked(h', b) && Linked(h', c) && SpineLinked(h', p, w)
    ensures a.Fork? ==> Same(h, h', a.node)
    ensures c.Fork? ==> Same(h, h', c.node)
  {
    BelowIsLess(a);
    BelowIsLess(b);
    BelowIsLess(c);
    assert !p.Root? ==> p.node in SpineNodes(p);
    forall n | n in Nodes(a) || n in Nodes(c) || n in Below(b)
      ensures Same(h, h', n)
    {
      assert n in Nodes(t);
    }
    LinkedKept(h, h', a);
    LinkedKept(h, h', b);
    LinkedKept(h, h', c);
    forall n | n in SpineNodes(p) && n in h.cells
      ensures n in h'.cells && h'.cells[n] == Redirected(p, h.cells[n], n, w)
    {
      assert n !in Nodes(t);
    }
    SpineRedirected(h, h', p, x, w);
  }

  /** Where the node in focus hangs: its parent is on the spine, and it is the child the spine says it is. */
  lemma Hangs(h: Heap, p: Spine, t: Shape)
    requires t.Fork? && Focus(h, p, t)
    ensures p.Root? <==> h.root == t.node
    ensures !p.Root? ==> p.node in h.cells && h.cells[t.node].parent == p.node && p.node !in Nodes(t) && p.node != h.nil
    ensures p.InLeft? ==> h.cells[p.node].left == t.node
    ensures p.InRight? ==> h.cells[p.node].right == t.node && h.cells[p.node].left != t.node
  {
    if !p.Root? {
      RootOnSpine(h, p, t.node);
      assert p.node in SpineNodes(p) && t.node in Nodes(t);
      assert p.sib.Fork? ==> p.sib.node in Nodes(p.sib) && p.sib.node in SpineNodes(p);
    }
  }

  lemma CanTurnLeftAt(h: Heap, p: Spine, t: Shape)
    requires t.Fork? && t.right.Fork? && Focus(h, p, t)
    ensures CanTurnLeft(h, t.node)
    ensures h.cells[t.node].right == t.right.node && h.cells[t.right.node].left == Top(t.right.left, h.nil)
  {
    Hangs(h, p, t);
    PartsOfRight(t);
    assert Linked(h, t.right);
  }

  lemma CanTurnRightAt(h: Heap, p: Spine, t: Shape)
    requires t.Fork? && t.left.Fork? && Focus(h, p, t)
    ensures CanTurnRight(h, t.node)
    ensures h.cells[t.node].left == t.left.node && h.cells[t.left.node].right == Top(t.left.right, h.nil)
  {
    Hangs(h, p, t);
    PartsOfLeft(t);
    assert Linked(h, t.left);
  }

  ghost predicate TurnedLeft(h: Heap, h': Heap, x: Node) {
    && CanTurnLeft(h, x)
    && h'.nil == h.nil && h'.root == (if x == h.root then h.cells[x].right else h.root)
    && h'.cells.Keys == h.cells.Keys
    && forall n :: n in h.cells ==> h'.cells[n] == LeftTurned(h, x, n)
  }

  ghost predicate TurnedRight(h: Heap, h': Heap, x: Node) {
    && CanTurnRight(h, x)
    && h'.nil == h.nil && h'.root == (if x == h.root then h.cells[x].left else h.root)
    && h'.cells.Keys == h.cells.Keys
    && forall n :: n in h.cells ==> h'.cells[n] == RightTurned(h, x, n)
  }

  lemma LeftTurnLinks(h: Heap, h': Heap, p: Spine, t: Shape)
    requires t.Fork? && t.right.Fork? && Focus(h, p, t) && TurnedLeft(h, h', t.node)
    ensures Linked(h', RotatedLeft(t)) && SpineLinked(h', p, t.right.node)
  {
    CanTurnLeftAt(h, p, t);
    Hangs(h, p, t);
    PartsOfRight(t);
    assert Linked(h, t.right);
    TurnFrame(h, h', p, t, t.left, t.node, t.right.left, t.right.node, t.right.right);
    assert Linked(h', RotatedLeft(t).left);
  }

  /** A left rotation at the node in focus turns the shape in focus and nothing else. */
  lemma LeftTurn(h: Heap, h': Heap, p: Spine, t: Shape)
    requires t.Fork? && t.right.Fork? && Focus(h, p, t) && TurnedLeft(h, h', t.node)
    ensures Focus(h', p, RotatedLeft(t)) && h'.cells[h.nil] == h.cells[h.nil]
  {
    LeftTurnLinks(h, h', p, t);
    CanTurnLeftAt(h, p, t);
    Hangs(h, p, t);
    RotatedLeftSame(t);
    RotatedLeftApart(t);
  }

  lemma RightTurnLinks(h: Heap, h': Heap, p: Spine, t: Shape)
    requires t.Fork? && t.left.Fork? && Focus(h, p, t) && TurnedRight(h, h', t.node)
    ensures Linked(h', RotatedRight(t)) && SpineLinked(h', p, t.left.node)
  {
    CanTurnRightAt(h, p, t);
    Hangs(h, p, t);
    PartsOfLeft(t);
    assert Linked(h, t.left);
    TurnFrame(h, h', p, t, t.left.left, t.node, t.left.right, t.left.node, t.right);
    assert Linked(h', RotatedRight(t).right);
  }

  lemma RightTurn(h: Heap, h': Heap, p: Spine, t: Shape)
    requires t.Fork? && t.left.Fork? && Focus(h, p, t) && TurnedRight(h, h', t.node)
    ensures Focus(h', p, RotatedRight(t)) && h'.cells[h.nil] == h.cells[h.nil]
  {
    RightTurnLinks(h, h', p, t);
    CanTurnRightAt(h, p, t);
    Hangs(h, p, t);
    RotatedRightSame(t);
    RotatedRightApart(t);
  }

  // ---- colours ----

  ghost function Paint(h: Heap, n: Node, red: bool): bool {
    if n in h.cells then h.cells[n].red else red
  }

  /** The same tree with the colours read off a snapshot. */
  ghost function Painted(h: Heap, t: Shape): Shape {
    match t
    case Leaf => Leaf
    case Fork(l, n, k, c, r) => Fork(Painted(h, l), n, k, Paint(h, n, c), Painted(h, r))
  }

  ghost function PaintedSpine(h: Heap, p: Spine): Spine {
    match p
    case Root => Root
    case InLeft(up, n, k, c, sib) => InLeft(PaintedSpine(h, up), n, k, Paint(h, n, c), Painted(h, sib))
    case InRight(up, sib, n, k, c) => InRight(PaintedSpine(h, up), Painted(h, sib), n, k, Paint(h, n, c))
  }

  /** Only colours of tree nodes differ between the two snapshots. */
  ghost predicate Repaints(h: Heap, h': Heap) {
    && h'.root == h.root && h'.nil == h.nil && h'.cells.Keys == h.cells.Keys
    && Same(h, h', h.nil)
    && forall n :: n in h.cells ==> h'.cells[n].(red := h.cells[n].red) == h.cells[n]
  }

  lemma {:induction false} PaintedSame(h: Heap, t: Shape)
    ensures Nodes(Painted(h, t)) == Nodes(t) && Items(Painted(h, t)) == Items(t)
    ensures Apart(t) ==> Apart(Painted(h, t))
  {
    if t.Fork? { PaintedSame(h, t.left); PaintedSame(h, t.right); }
  }

  lemma {:induction false} PaintedSpineSame(h: Heap, p: Spine)
    ensures SpineNodes(PaintedSpine(h, p)) == SpineNodes(p)
    ensures Before(PaintedSpine(h, p)) == Before(p) && After(PaintedSpine(h, p)) == After(p)
    ensures SpineApart(p) ==> SpineApart(PaintedSpine(h, p))
  {
    if !p.Root? { PaintedSame(h, p.sib); PaintedSpineSame(h, p.up); }
  }

  lemma {:induction false} PaintedLinked(h: Heap, h': Heap, t: Shape)
    requires Repaints(h, h') && Linked(h, t)
    ensures Linked(h', Painted(h', t))
  {
    if t.Fork? { PaintedLinked(h, h', t.left); PaintedLinked(h, h', t.right); }
  }

  lemma {:induction false} PaintedSpineLinked(h: Heap, h': Heap, p: Spine, hole: Node)
    requires Repaints(h, h') && SpineLinked(h, p, hole)
    ensures SpineLinked(h', PaintedSpine(h', p), hole)
  {
    if !p.Root? { PaintedLinked(h, h', p.sib); PaintedSpineLinked(h, h', p.up, p.node); }
  }

  lemma {:induction false} PaintedKept(h: Heap, h': Heap, t: Shape)
    requires Linked(h, t)
    requires forall n :: n in Nodes(t) ==> Same(h, h', n)
    ensures Painted(h', t) == t
  {
    if t.Fork? {
      assert Same(h, h', t.node);
      PaintedKept(h, h', t.left);
      PaintedKept(h, h', t.right);
    }
  }

  lemma {:induction false} PaintedSpineKept(h: Heap, h': Heap, p: Spine, hole: Node)
    requires SpineLinked(h, p, hole)
    requires forall n :: n in SpineNodes(p) ==> Same(h, h', n)
    ensures PaintedSpine(h', p) == p
  {
    if !p.Root? {
      assert Same(h, h', p.node);
      PaintedKept(h, h', p.sib);
      PaintedSpineKept(h, h', p.up, p.node);
    }
  }

  lemma Repainted(h: Heap, h': Heap, p: Spine, t: Shape)
    requires Focus(h, p, t) && Repaints(h, h')
    ensures Focus(h', PaintedSpine(h', p), Painted(h', t))
  {
    PaintedSame(h', t);
    PaintedSpineSame(h', p);
    PaintedLinked(h, h', t);
    PaintedSpineLinked(h, h', p, Top(t, h.nil));
  }
}
