/** The shapes the insert fix-up goes through. */
module RbInsert {
  import opened RbShape
  import opened RbLinks

  /** What is left to repair: the red shape in focus may hang below a red node, and nothing else is wrong. */
  ghost predicate InsertDue(p: Spine, t: Shape, h: nat) {
    && Red(t) && NoRedRed(t) && SpineNoRedRed(p, false) && TopBlack(p)
    && Balanced(t, h) && SpineBalanced(p, h)
  }

  /** A red parent is not the root, so there is a grandparent, and it is black. */
  lemma GrandparentBlack(p: Spine, t: Shape, h: nat)
    requires InsertDue(p, t, h) && !p.Root? && p.red
    ensures !p.up.Root? && !p.up.red && TopBlack(p.up.up)
    ensures Balanced(p.sib, h) && Balanced(p.up.sib, h) && SpineBalanced(p.up.up, h + 1)
    ensures !Red(p.sib) && NoRedRed(p.sib) && NoRedRed(p.up.sib) && SpineNoRedRed(p.up.up, false)
  {
    assert TopBlack(p.up) && SpineNoRedRed(p.up, true) && SpineBalanced(p.up, h);
  }

  /** Red uncle: parent and uncle turn black, the grandparent red, and the grandparent is the next focus. */
  ghost function PushedUp(p: Spine, t: Shape): Shape
    requires !p.Root? && !p.up.Root?
  {
    Raised(p.up.(red := true, sib := Blacken(p.up.sib)), Raised(p.(red := false), t))
  }

  lemma PushUp(p: Spine, t: Shape, h: nat)
    requires InsertDue(p, t, h) && !p.Root? && p.red && !p.up.Root? && Red(p.up.sib)
    ensures InsertDue(p.up.up, PushedUp(p, t), h + 1)
  {
    GrandparentBlack(p, t, h);
    var inner := Raised(p.(red := false), t);
    assert Balanced(inner, h + 1) && NoRedRed(inner);
    assert Balanced(Blacken(p.up.sib), h + 1);
  }

  /** Repainting keeps the nodes and their order. */
  lemma PushUpSame(p: Spine, t: Shape)
    requires !p.Root? && !p.up.Root?
    ensures Items(Plug(p.up.up, PushedUp(p, t))) == Items(Plug(p, t))
    ensures Nodes(Plug(p.up.up, PushedUp(p, t))) == Nodes(Plug(p, t))
  {
    var old', new' := Raised(p.up, Raised(p, t)), PushedUp(p, t);
    assert Items(Blacken(p.up.sib)) == Items(p.up.sib) && Nodes(Blacken(p.up.sib)) == Nodes(p.up.sib);
    assert Items(Raised(p.(red := false), t)) == Items(Raised(p, t));
    assert Nodes(Raised(p.(red := false), t)) == Nodes(Raised(p, t));
    assert Items(new') == Items(old') && Nodes(new') == Nodes(old');
    SameContents(p.up.up, old', new');
  }

  /** An inner red child is turned outwards; its former parent becomes the focus. */
  lemma TurnOut(p: Spine, t: Shape, h: nat)
    requires InsertDue(p, t, h) && !p.Root? && p.red && !p.up.Root?
    ensures p.InRight? ==>
      InsertDue(InLeft(p.up, t.node, t.key, true, t.right), Fork(p.sib, p.node, p.key, true, t.left), h)
    ensures p.InLeft? ==>
      InsertDue(InRight(p.up, t.left, t.node, t.key, true), Fork(t.right, p.node, p.key, true, p.sib), h)
  {
    GrandparentBlack(p, t, h);
  }

  ghost function DownSpine(p: Spine): Spine
    requires !p.Root? && !p.up.Root?
  {
    var g := p.up;
    if p.InLeft? then InLeft(g.up, p.node, p.key, false, Fork(p.sib, g.node, g.key, true, g.sib))
    else InRight(g.up, Fork(g.sib, g.node, g.key, true, p.sib), p.node, p.key, false)
  }

  /** Outer red child and black uncle: the parent takes the grandparent's place, in black, and nothing is left to repair. */
  lemma TurnDown(p: Spine, t: Shape, h: nat)
    requires InsertDue(p, t, h) && !p.Root? && p.red && !p.up.Root? && !Red(p.up.sib)
    ensures InsertDue(DownSpine(p), t, h)
  {
    GrandparentBlack(p, t, h);
    var g := p.up;
    var s := if p.InLeft? then Fork(p.sib, g.node, g.key, true, g.sib) else Fork(g.sib, g.node, g.key, true, p.sib);
    assert Balanced(s, h) && NoRedRed(s);
  }

  /** The end of the loop: the root is blackened. */
  lemma InsertDone(p: Spine, t: Shape, h: nat) returns (t': Shape, h': nat)
    requires InsertDue(p, t, h) && (p.Root? || !p.red)
    ensures t' == if p.Root? then Blacken(t) else t
    ensures RedBlack(Plug(p, t')) && Items(Plug(p, t')) == Items(Plug(p, t))
  {
    if p.Root? {
      t', h' := Blacken(t), h + 1;
      assert Balanced(t', h + 1);
    } else {
      t', h' := t, h;
    }
    PlugRedBlack(p, t', h');
    PlugItems(p, t);
    PlugItems(p, t');
  }

  /** The red-uncle branch repaints three cells; this is what the repainted cells spell. */
  lemma PushUpPaint(h: Heap, h': Heap, p: Spine, t: Shape)
    requires Focus(h, p, t) && !p.Root? && !p.up.Root? && p.up.sib.Fork? && Repaints(h, h')
    requires p.node in h.cells && p.up.node in h.cells && p.up.sib.node in h.cells
    requires !h'.cells[p.node].red && !h'.cells[p.up.sib.node].red && h'.cells[p.up.node].red
    requires forall n :: n in h.cells && n !in {p.node, p.up.sib.node, p.up.node} ==> Same(h, h', n)
    ensures Painted(h', t) == t
    ensures PaintedSpine(h', p) == p.(red := false, up := p.up.(red := true, sib := Blacken(p.up.sib)))
  {
    var g := p.up;
    var u := g.sib;
    assert SpineLinked(h, g, p.node);
    assert Linked(h, u);
    SpinePartsApart(p, t);
    PaintedKept(h, h', t);
    PaintedKept(h, h', p.sib);
    PaintedKept(h, h', u.left);
    PaintedKept(h, h', u.right);
    PaintedSpineKept(h, h', g.up, g.node);
  }

  lemma PushUpLinks(h: Heap, h': Heap, p: Spine, t: Shape)
    requires Focus(h, p, t) && !p.Root? && !p.up.Root? && p.up.sib.Fork? && Repaints(h, h')
    requires p.node in h.cells && p.up.node in h.cells && p.up.sib.node in h.cells
    requires !h'.cells[p.node].red && !h'.cells[p.up.sib.node].red && h'.cells[p.up.node].red
    requires forall n :: n in h.cells && n !in {p.node, p.up.sib.node, p.up.node} ==> Same(h, h', n)
    ensures Focus(h', p.up.up, PushedUp(p, t))
  {
    PushUpPaint(h, h', p, t);
    Repainted(h, h', p, t);
    var q := p.(red := false, up := p.up.(red := true, sib := Blacken(p.up.sib)));
    GoUp(h', q, t);
    GoUp(h', q.up, Raised(q, t));
  }

  /** The pieces two steps up the spine do not overlap. */
  lemma SpinePartsApart(p: Spine, t: Shape)
    requires !p.Root? && !p.up.Root? && SpineApart(p) && Nodes(t) !! SpineNodes(p)
    ensures p.node != p.up.node && p.node !in Nodes(p.up.sib) && p.up.node !in Nodes(p.up.sib)
    ensures {p.node, p.up.node} + Nodes(p.up.sib) !! Nodes(t)
    ensures {p.node, p.up.node} + Nodes(p.up.sib) !! Nodes(p.sib)
    ensures {p.node, p.up.node} + Nodes(p.up.sib) !! SpineNodes(p.up.up)
    ensures p.up.sib.Fork? ==> p.up.sib.node in Nodes(p.up.sib)
    ensures p.up.sib.Fork? ==> p.up.sib.node !in Nodes(p.up.sib.left) && p.up.sib.node !in Nodes(p.up.sib.right)
    ensures p.up.sib.Fork? ==> Nodes(p.up.sib.left) <= Nodes(p.up.sib) && Nodes(p.up.sib.right) <= Nodes(p.up.sib)
  {
    assert SpineApart(p.up);
    assert SpineNodes(p) == {p.node} + Nodes(p.sib) + SpineNodes(p.up);
    assert SpineNodes(p.up) == {p.up.node} + Nodes(p.up.sib) + SpineNodes(p.up.up);
  }

  /** The black-uncle branch repaints two cells before its last rotation. */
  lemma TurnDownPaint(h: Heap, h': Heap, p: Spine, t: Shape)
    requires Focus(h, p, t) && !p.Root? && !p.up.Root? && Repaints(h, h')
    requires p.node in h.cells && p.up.node in h.cells
    requires !h'.cells[p.node].red && h'.cells[p.up.node].red
    requires forall n :: n in h.cells && n !in {p.node, p.up.node} ==> Same(h, h', n)
    ensures Painted(h', t) == t
    ensures PaintedSpine(h', p) == p.(red := false, up := p.up.(red := true))
  {
    var g := p.up;
    assert SpineLinked(h, g, p.node);
    SpinePartsApart(p, t);
    PaintedKept(h, h', t);
    PaintedKept(h, h', p.sib);
    PaintedKept(h, h', g.sib);
    PaintedSpineKept(h, h', g.up, g.node);
  }

  lemma TurnDownLinks(h: Heap, h': Heap, p: Spine, t: Shape)
    requires Focus(h, p, t) && !p.Root? && !p.up.Root? && Repaints(h, h')
    requires p.node in h.cells && p.up.node in h.cells
    requires !h'.cells[p.node].red && h'.cells[p.up.node].red
    requires forall n :: n in h.cells && n !in {p.node, p.up.node} ==> Same(h, h', n)
    ensures Focus(h', p.up.up, Raised(p.up.(red := true), Raised(p.(red := false), t)))
  {
    TurnDownPaint(h, h', p, t);
    Repainted(h, h', p, t);
    var q := p.(red := false, up := p.up.(red := true));
    GoUp(h', q, t);
    GoUp(h', q.up, Raised(q, t));
  }

  /** The cells of two snapshots agree except that the nodes of `reds` became red and those of `blacks` black. */
  ghost predicate Coloured(h: Heap, h': Heap, reds: set<Node>, blacks: set<Node>) {
    && h'.root == h.root && h'.nil == h.nil && h'.cells.Keys == h.cells.Keys
    && h.nil !in reds && h.nil !in blacks && reds !! blacks
    && forall n :: n in h.cells ==>
      h'.cells[n] == h.cells[n].(red := if n in reds then true else if n in blacks then false else h.cells[n].red)
  }

  /** The way up from the node in focus, pointer by pointer. */
  lemma WayUp(h: Heap, p: Spine, t: Shape)
    requires Focus(h, p, t) && t.Fork? && !p.Root?
    ensures t.node in h.cells && h.cells[t.node].parent == p.node && p.node in h.cells
    ensures h.root != t.node && p.node != h.nil
    ensures h.cells[p.node].red == p.red
    ensures p.InLeft? ==> h.cells[p.node].left == t.node && h.cells[p.node].right == Top(p.sib, h.nil)
    ensures p.InRight? ==> h.cells[p.node].right == t.node && h.cells[p.node].left == Top(p.sib, h.nil)
    ensures Top(p.sib, h.nil) != t.node
    ensures Top(p.sib, h.nil) in h.cells && h.cells[Top(p.sib, h.nil)].red == Red(p.sib)
    ensures !p.up.Root? ==> h.cells[p.node].parent == p.up.node
  {
    Hangs(h, p, t);
    assert p.sib.Fork? ==> p.sib.node in Nodes(p.sib) && p.sib.node in SpineNodes(p);
    assert t.node in Nodes(t) && p.node in SpineNodes(p);
  }

  /** Where the insert fix-up stands: the shape in focus, its spine, and the entries the whole tree must keep. */
  ghost predicate Fixing(h: Heap, p: Spine, t: Shape, b: nat, owned: set<Node>, items: seq<Entry>) {
    && Focus(h, p, t) && InsertDue(p, t, b)
    && owned == Nodes(Plug(p, t)) && Items(Plug(p, t)) == items
  }

  lemma PushUpFocus(h: Heap, h': Heap, p: Spine, t: Shape)
    requires Focus(h, p, t) && t.Fork? && !p.Root? && !p.up.Root? && Red(p.up.sib)
    requires Coloured(h, h', {p.up.node}, {p.node, p.up.sib.node})
    ensures Focus(h', p.up.up, PushedUp(p, t))
  {
    WayUp(h, p, t);
    GoUp(h, p, t);
    WayUp(h, p.up, Raised(p, t));
    PushUpLinks(h, h', p, t);
  }

  lemma PushUpStep(h: Heap, h': Heap, p: Spine, t: Shape, b: nat, owned: set<Node>, items: seq<Entry>)
    requires Fixing(h, p, t, b, owned, items) && !p.Root? && p.red && !p.up.Root? && Red(p.up.sib)
    requires Coloured(h, h', {p.up.node}, {p.node, p.up.sib.node})
    ensures Fixing(h', p.up.up, PushedUp(p, t), b + 1, owned, items)
  {
    PushUpFocus(h, h', p, t);
    PushUp(p, t, b);
    PushUpSame(p, t);
  }

  /** The focus after an inner child was turned outwards. */
  ghost function OutSpine(p: Spine, t: Shape): Spine
    requires !p.Root? && t.Fork?
  {
    if p.InRight? then InLeft(p.up, t.node, t.key, true, t.right) else InRight(p.up, t.left, t.node, t.key, true)
  }

  ghost function OutShape(p: Spine, t: Shape): Shape
    requires !p.Root? && t.Fork?
  {
    if p.InRight? then Fork(p.sib, p.node, p.key, true, t.left) else Fork(t.right, p.node, p.key, true, p.sib)
  }

  ghost function Rotated(p: Spine, t: Shape): Shape
    requires !p.Root? && t.Fork?
  {
    if p.InRight? then RotatedLeft(Raised(p, t)) else RotatedRight(Raised(p, t))
  }

  lemma TurnOutStep(h: Heap, h': Heap, p: Spine, t: Shape, b: nat, owned: set<Node>, items: seq<Entry>)
    requires Fixing(h, p, t, b, owned, items) && !p.Root? && p.red && !p.up.Root?
    requires Focus(h', p.up, Rotated(p, t))
    ensures Fixing(h', OutSpine(p, t), OutShape(p, t), b, owned, items)
  {
    TurnOut(p, t, b);
    if p.InRight? {
      RotatedLeftSame(Raised(p, t));
      GoLeft(h', p.up, Rotated(p, t));
    } else {
      RotatedRightSame(Raised(p, t));
      GoRight(h', p.up, Rotated(p, t));
    }
    SameContents(p.up, Raised(p, t), Rotated(p, t));
  }

  /** Parent and grandparent repainted, and the focus moved up to the grandparent, ready for the last rotation. */
  ghost function Repainting(p: Spine, t: Shape): Shape
    requires !p.Root? && !p.up.Root?
  {
    Raised(p.up.(red := true), Raised(p.(red := false), t))
  }

  lemma TurnDownFocus(h: Heap, h': Heap, p: Spine, t: Shape)
    requires Focus(h, p, t) && t.Fork? && !p.Root? && !p.up.Root?
    requires Coloured(h, h', {p.up.node}, {p.node})
    ensures Focus(h', p.up.up, Repainting(p, t))
  {
    WayUp(h, p, t);
    GoUp(h, p, t);
    WayUp(h, p.up, Raised(p, t));
    TurnDownLinks(h, h', p, t);
  }

  lemma RepaintingSame(p: Spine, t: Shape)
    requires !p.Root? && !p.up.Root?
    ensures Items(Plug(p.up.up, Repainting(p, t))) == Items(Plug(p, t))
    ensures Nodes(Plug(p.up.up, Repainting(p, t))) == Nodes(Plug(p, t))
  {
    var old', new' := Raised(p.up, Raised(p, t)), Repainting(p, t);
    assert Items(Raised(p.(red := false), t)) == Items(Raised(p, t));
    assert Nodes(Raised(p.(red := false), t)) == Nodes(Raised(p, t));
    assert Items(new') == Items(old') && Nodes(new') == Nodes(old');
    SameContents(p.up.up, old', new');
  }

  /** The grandparent is rotated away from the focus, which is on the same side as its parent. */
  ghost function Lowered(p: Spine, t: Shape): Shape
    requires !p.Root? && !p.up.Root? && (p.InLeft? <==> p.up.InLeft?)
  {
    if p.InLeft? then RotatedRight(Repainting(p, t)) else RotatedLeft(Repainting(p, t))
  }

  lemma TurnDownStep(h: Heap, h': Heap, p: Spine, t: Shape, b: nat, owned: set<Node>, items: seq<Entry>)
    requires Fixing(h, p, t, b, owned, items) && !p.Root? && p.red && !p.up.Root? && !Red(p.up.sib)
    requires p.InLeft? <==> p.up.InLeft?
    requires Focus(h', p.up.up, Lowered(p, t))
    ensures Fixing(h', DownSpine(p), t, b, owned, items)
  {
    TurnDown(p, t, b);
    RepaintingSame(p, t);
    if p.InLeft? {
      RotatedRightSame(Repainting(p, t));
      GoLeft(h', p.up.up, Lowered(p, t));
    } else {
      RotatedLeftSame(Repainting(p, t));
      GoRight(h', p.up.up, Lowered(p, t));
    }
    SameContents(p.up.up, Repainting(p, t), Lowered(p, t));
  }

  /** The pointers the fix-up follows, and that they stay inside the tree. */
  lemma Ancestors(h: Heap, p: Spine, t: Shape, b: nat, owned: set<Node>, items: seq<Entry>)
    requires Fixing(h, p, t, b, owned, items) && !p.Root? && p.red
    ensures t.node in h.cells && h.cells[t.node].parent == p.node && h.root != t.node && t.node in owned
    ensures p.node in h.cells && h.cells[p.node].red && p.node in owned && p.node != t.node
    ensures p.InLeft? <==> h.cells[p.node].left == t.node
    ensures p.InRight? <==> h.cells[p.node].right == t.node
    ensures !p.up.Root? && h.cells[p.node].parent == p.up.node && p.up.node in h.cells && p.up.node in owned
    ensures p.up.node != p.node && h.root != p.node
    ensures p.up.InLeft? <==> h.cells[p.up.node].left == p.node
    ensures p.up.InRight? <==> h.cells[p.up.node].right == p.node
    ensures Top(p.up.sib, h.nil) in h.cells && h.cells[Top(p.up.sib, h.nil)].red == Red(p.up.sib)
    ensures p.up.InLeft? ==> h.cells[p.up.node].right == Top(p.up.sib, h.nil)
    ensures p.up.InRight? ==> h.cells[p.up.node].left == Top(p.up.sib, h.nil)
    ensures p.up.sib.Fork? ==> p.up.sib.node in owned && p.up.sib.node !in {t.node, p.node, p.up.node}
  {
    GrandparentBlack(p, t, b);
    WayUp(h, p, t);
    GoUp(h, p, t);
    WayUp(h, p.up, Raised(p, t));
    PlugNodes(p, t);
    SpinePartsApart(p, t);
    assert t.node in Nodes(t) && p.node in SpineNodes(p) && p.up.node in SpineNodes(p.up);
    assert SpineNodes(p.up) <= SpineNodes(p);
  }

  /** What the loop guard reads. */
  lemma Standing(h: Heap, p: Spine, t: Shape, b: nat, owned: set<Node>, items: seq<Entry>)
    requires Fixing(h, p, t, b, owned, items)
    ensures t.node in h.cells && t.node in owned && (p.Root? <==> h.root == t.node)
    ensures !p.Root? ==> h.cells[t.node].parent == p.node && p.node in h.cells && h.cells[p.node].red == p.red
    ensures h.root in h.cells && h.root in owned && (!p.Root? ==> !h.cells[h.root].red)
  {
    Hangs(h, p, t);
    PlugNodes(p, t);
    assert t.node in Nodes(t);
    if !p.Root? {
      WayUp(h, p, t);
      RootOnSpine(h, p, t.node);
      RootBlack(h, p, t.node);
    }
  }

  lemma FinishStep(h: Heap, h': Heap, p: Spine, t: Shape, b: nat, owned: set<Node>, items: seq<Entry>)
    requires Fixing(h, p, t, b, owned, items) && (p.Root? || !p.red)
    requires Coloured(h, h', {}, {h.root})
    ensures var s := if p.Root? then Blacken(t) else t;
            Focus(h', Root, Plug(p, s)) && RedBlack(Plug(p, s)) && Items(Plug(p, s)) == items && Nodes(Plug(p, s)) == owned
  {
    Standing(h, p, t, b, owned, items);
    var _, _ := InsertDone(p, t, b);
    if p.Root? {
      Hangs(h, p, t);
      Repainted(h, h', p, t);
      PaintedKept(h, h', t.left);
      PaintedKept(h, h', t.right);
      assert Painted(h', t) == Blacken(t);
      assert Nodes(Blacken(t)) == Nodes(t);
    } else {
      assert h'.cells == h.cells;
      assert h' == h;
      GoTop(h, p, t);
    }
  }
}
