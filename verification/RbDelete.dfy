/** The shapes the delete fix-up goes through. */
module RbDelete {
  import opened RbShape
  import opened RbLinks
  import opened RbInsert

  /**
   What is left to repair after a black node was removed: the shape in focus is one black node short of what its
   spine expects. Its top may be red below a red node; blackening it repairs both.
   */
  ghost predicate DeleteDue(p: Spine, t: Shape, b: nat) {
    && NoRedRed(Blacken(t)) && SpineNoRedRed(p, false) && TopBlack(p)
    && Balanced(t, b) && SpineBalanced(p, b + 1)
  }

  /** The sibling of a shape that is short of a black node is never the sentinel. */
  lemma SiblingExists(p: Spine, t: Shape, b: nat)
    requires DeleteDue(p, t, b) && !p.Root?
    ensures p.sib.Fork? && NoRedRed(p.sib) && Balanced(p.sib, b + 1)
    ensures SpineBalanced(p.up, if p.red then b + 1 else b + 2) && SpineNoRedRed(p.up, p.red)
    ensures p.red ==> !Red(p.sib)
    ensures p.up.Root? ==> !p.red
    ensures !p.up.Root? ==> TopBlack(p.up)
  {
  }

  ghost function WithSib(p: Spine, s: Shape): Spine
    requires !p.Root?
  {
    p.(sib := s)
  }

  ghost function Near(s: Shape, left: bool): Shape requires s.Fork? { if left then s.left else s.right }

  ghost function Far(s: Shape, left: bool): Shape requires s.Fork? { if left then s.right else s.left }

  // ---- red sibling ----

  /** The sibling takes the parent's place, in black; the parent, now red, keeps the focus and gets a black sibling. */
  ghost function RedSibSpine(p: Spine): Spine
    requires !p.Root? && p.sib.Fork?
  {
    var w := p.sib;
    if p.InLeft? then InLeft(InLeft(p.up, w.node, w.key, false, w.right), p.node, p.key, true, w.left)
    else InRight(InRight(p.up, w.left, w.node, w.key, false), w.right, p.node, p.key, true)
  }

  lemma RedSib(p: Spine, t: Shape, b: nat)
    requires DeleteDue(p, t, b) && !p.Root? && Red(p.sib)
    ensures DeleteDue(RedSibSpine(p), t, b) && !Red(RedSibSpine(p).sib)
  {
    SiblingExists(p, t, b);
  }

  // ---- black sibling with black children ----

  /** The sibling turns red and the shortage moves one level up. */
  ghost function BlackSibShape(p: Spine, t: Shape): Shape
    requires !p.Root? && p.sib.Fork?
  {
    Raised(p.(sib := p.sib.(red := true)), t)
  }

  lemma BlackSib(p: Spine, t: Shape, b: nat)
    requires DeleteDue(p, t, b) && !p.Root? && !Red(t) && p.sib.Fork? && !p.sib.red
    requires !Red(p.sib.left) && !Red(p.sib.right)
    ensures DeleteDue(p.up, BlackSibShape(p, t), if p.red then b else b + 1)
    ensures Red(BlackSibShape(p, t)) == p.red
  {
    SiblingExists(p, t, b);
    assert Balanced(p.sib.(red := true), b);
  }

  // ---- black sibling with a red inner child ----

  /** The inner child takes the sibling's place, in black. */
  ghost function InnerRedSib(p: Spine): Shape
    requires !p.Root? && p.sib.Fork? && Near(p.sib, p.InLeft?).Fork?
  {
    var w := p.sib;
    if p.InLeft? then Fork(w.left.left, w.left.node, w.left.key, false, Fork(w.left.right, w.node, w.key, true, w.right))
    else Fork(Fork(w.left, w.node, w.key, true, w.right.left), w.right.node, w.right.key, false, w.right.right)
  }

  lemma InnerRed(p: Spine, t: Shape, b: nat)
    requires DeleteDue(p, t, b) && !p.Root? && p.sib.Fork? && !p.sib.red
    requires Red(Near(p.sib, p.InLeft?)) && !Red(Far(p.sib, p.InLeft?))
    ensures DeleteDue(WithSib(p, InnerRedSib(p)), t, b) && Red(Far(InnerRedSib(p), p.InLeft?))
  {
    SiblingExists(p, t, b);
    assert NoRedRed(Near(p.sib, p.InLeft?)) && Balanced(Near(p.sib, p.InLeft?), b);
    assert Balanced(InnerRedSib(p), b + 1) && NoRedRed(InnerRedSib(p));
  }

  // ---- black sibling with a red outer child ----

  /** The sibling takes the parent's place and colour; parent and outer child turn black; nothing is short any more. */
  ghost function OuterRedShape(p: Spine, t: Shape): Shape
    requires !p.Root? && p.sib.Fork?
  {
    var w := p.sib;
    if p.InLeft? then Fork(Fork(t, p.node, p.key, false, w.left), w.node, w.key, p.red, Blacken(w.right))
    else Fork(Blacken(w.left), w.node, w.key, p.red, Fork(w.right, p.node, p.key, false, t))
  }

  lemma OuterRed(p: Spine, t: Shape, b: nat)
    requires DeleteDue(p, t, b) && !p.Root? && !Red(t) && p.sib.Fork? && !p.sib.red && Red(Far(p.sib, p.InLeft?))
    ensures RedBlack(Plug(p.up, OuterRedShape(p, t)))
  {
    SiblingExists(p, t, b);
    var s := OuterRedShape(p, t);
    assert Balanced(Blacken(Far(p.sib, p.InLeft?)), b + 1) && Balanced(Near(p.sib, p.InLeft?), b);
    PlugRedBlack(p.up, s, if p.red then b + 1 else b + 2);
  }

  /** A finished tree, as a focus at the root, is a state of the loop. */
  lemma WholeDue(t: Shape) returns (b: nat)
    requires RedBlack(t)
    ensures DeleteDue(Root, t, b)
  {
    b :| Balanced(t, b);
  }

  lemma DeleteDone(p: Spine, t: Shape, b: nat)
    requires DeleteDue(p, t, b) && (p.Root? || Red(t))
    ensures RedBlack(Plug(p, Blacken(t)))
  {
    var b' := if Red(t) then b + 1 else b;
    assert Balanced(Blacken(t), b');
    PlugRedBlack(p, Blacken(t), b');
  }

  // ---- what the loop keeps ----

  /** Where the delete fix-up stands. */
  ghost predicate Mending(h: Heap, p: Spine, t: Shape, b: nat, owned: set<Node>, items: seq<Entry>) {
    && Focus(h, p, t) && DeleteDue(p, t, b)
    && owned == Nodes(Plug(p, t)) && Items(Plug(p, t)) == items
  }

  /** The pointers the loop follows from the focus, which may be the sentinel. */
  lemma Siblings(h: Heap, p: Spine, t: Shape, b: nat, owned: set<Node>, items: seq<Entry>)
    requires Mending(h, p, t, b, owned, items) && !p.Root?
    ensures var n := Top(t, h.nil);
            n in h.cells && h.cells[n].parent == p.node && p.node in h.cells && p.node in owned
            && h.cells[n].red == Red(t) && n != h.root
    ensures p.sib.Fork? && p.sib.node in h.cells && p.sib.node in owned && p.sib.node != p.node
    ensures h.cells[p.sib.node].red == Red(p.sib) && h.cells[p.node].red == p.red
    ensures p.InLeft? ==> h.cells[p.node].left == Top(t, h.nil) && h.cells[p.node].right == p.sib.node
    ensures p.InRight? ==> h.cells[p.node].right == Top(t, h.nil) && h.cells[p.node].left == p.sib.node
    ensures p.sib.node != Top(t, h.nil)
    ensures h.cells[p.sib.node].left == Top(p.sib.left, h.nil) && Top(p.sib.left, h.nil) in h.cells
    ensures h.cells[p.sib.node].right == Top(p.sib.right, h.nil) && Top(p.sib.right, h.nil) in h.cells
    ensures h.cells[Top(p.sib.left, h.nil)].red == Red(p.sib.left)
    ensures h.cells[Top(p.sib.right, h.nil)].red == Red(p.sib.right)
    ensures Red(p.sib.left) ==> p.sib.left.node in owned && p.sib.left.node !in {p.node, p.sib.node}
    ensures Red(p.sib.right) ==> p.sib.right.node in owned && p.sib.right.node !in {p.node, p.sib.node}
  {
    SiblingExists(p, t, b);
    PlugNodes(p, t);
    assert Linked(h, p.sib) && Linked(h, p.sib.left) && Linked(h, p.sib.right);
    assert p.node in SpineNodes(p) && p.sib.node in Nodes(p.sib);
    RootOnSpine(h, p, Top(t, h.nil));
    SibChildren(p);
    assert t.Fork? ==> t.node in Nodes(t);
  }

  lemma SibChildren(p: Spine)
    requires !p.Root? && p.sib.Fork? && SpineApart(p)
    ensures p.sib.left.Fork? ==> p.sib.left.node in SpineNodes(p) && p.sib.left.node !in {p.node, p.sib.node}
    ensures p.sib.right.Fork? ==> p.sib.right.node in SpineNodes(p) && p.sib.right.node !in {p.node, p.sib.node}
  {
    assert Apart(p.sib);
    assert p.sib.left.Fork? ==> p.sib.left.node in Nodes(p.sib.left);
    assert p.sib.right.Fork? ==> p.sib.right.node in Nodes(p.sib.right);
    assert Nodes(p.sib) == Nodes(p.sib.left) + {p.sib.node} + Nodes(p.sib.right);
  }

  // ---- what the repainted and rotated cells spell ----

  ghost function Recap(h: Heap, s: Shape): Shape {
    if s.Leaf? then s else s.(red := Paint(h, s.node, s.red))
  }

  /** The four nodes around the focus that one turn of the loop may repaint. */
  ghost predicate Neighbour(p: Spine, n: Node)
    requires !p.Root? && p.sib.Fork?
  {
    n == p.node || n == p.sib.node || (p.sib.left.Fork? && n == p.sib.left.node) || (p.sib.right.Fork? && n == p.sib.right.node)
  }

  ghost function Repaintable(h: Heap, p: Spine): Spine
    requires !p.Root? && p.sib.Fork?
  {
    var w := p.sib;
    p.(red := Paint(h, p.node, p.red), sib := Fork(Recap(h, w.left), w.node, w.key, Paint(h, w.node, w.red), Recap(h, w.right)))
  }

  lemma RecapIsPainted(h: Heap, h': Heap, s: Shape)
    requires Linked(h, s) && Apart(s) && forall n :: n in Below(s) ==> Same(h, h', n)
    ensures Painted(h', s) == Recap(h', s)
  {
    BelowIsLess(s);
    if s.Fork? {
      PaintedKept(h, h', s.left);
      PaintedKept(h, h', s.right);
    }
  }

  lemma NearApart(p: Spine, t: Shape)
    requires !p.Root? && p.sib.Fork? && SpineApart(p) && Apart(t) && Nodes(t) !! SpineNodes(p)
    ensures forall n :: n in Nodes(t) || n in SpineNodes(p.up) || n in Below(p.sib.left) || n in Below(p.sib.right) ==>
      !Neighbour(p, n)
  {
    SibChildren(p);
    assert Apart(p.sib);
    BelowIsLess(p.sib.left);
    BelowIsLess(p.sib.right);
    assert Nodes(p.sib) == Nodes(p.sib.left) + {p.sib.node} + Nodes(p.sib.right);
    assert p.node in SpineNodes(p) && p.sib.node in SpineNodes(p);
    assert p.sib.node in Nodes(p.sib);
  }

  lemma PaintNear(h: Heap, h': Heap, p: Spine, t: Shape)
    requires Focus(h, p, t) && !p.Root? && p.sib.Fork? && Repaints(h, h')
    requires forall n :: n in h.cells && !Neighbour(p, n) ==> Same(h, h', n)
    ensures Focus(h', Repaintable(h', p), t)
  {
    NearApart(p, t);
    assert Apart(p.sib) && Linked(h, p.sib);
    PaintedKept(h, h', t);
    PaintedSpineKept(h, h', p.up, p.node);
    RecapIsPainted(h, h', p.sib.left);
    RecapIsPainted(h, h', p.sib.right);
    Repainted(h, h', p, t);
  }

  ghost function Hue(reds: set<Node>, blacks: set<Node>, n: Node, red: bool): bool {
    if n in reds then true else if n in blacks then false else red
  }

  ghost function Recoloured(s: Shape, reds: set<Node>, blacks: set<Node>): Shape {
    if s.Leaf? then s else s.(red := Hue(reds, blacks, s.node, s.red))
  }

  /** The spine with the colours of the four neighbours changed. */
  ghost function Tinted(p: Spine, reds: set<Node>, blacks: set<Node>): Spine
    requires !p.Root? && p.sib.Fork?
  {
    var w := p.sib;
    p.(red := Hue(reds, blacks, p.node, p.red),
       sib := Fork(Recoloured(w.left, reds, blacks), w.node, w.key, Hue(reds, blacks, w.node, w.red),
                   Recoloured(w.right, reds, blacks)))
  }

  lemma Tint(h: Heap, h': Heap, p: Spine, t: Shape, reds: set<Node>, blacks: set<Node>)
    requires Focus(h, p, t) && !p.Root? && p.sib.Fork? && Coloured(h, h', reds, blacks)
    requires forall n :: n in reds || n in blacks ==> Neighbour(p, n)
    ensures Focus(h', Tinted(p, reds, blacks), t) && Same(h, h', h.nil)
  {
    assert Linked(h, p.sib) && Linked(h, p.sib.left) && Linked(h, p.sib.right);
    PaintNear(h, h', p, t);
    assert Repaintable(h', p) == Tinted(p, reds, blacks);
  }

  lemma KidsApart(p: Spine)
    requires !p.Root? && p.sib.Fork? && SpineApart(p)
    ensures p.sib.node != p.node
    ensures p.sib.left.Fork? ==> p.sib.left.node !in {p.node, p.sib.node}
    ensures p.sib.right.Fork? ==> p.sib.right.node !in {p.node, p.sib.node}
    ensures p.sib.left.Fork? && p.sib.right.Fork? ==> p.sib.left.node != p.sib.right.node
  {
    SibChildren(p);
    assert Apart(p.sib) && p.sib.node in Nodes(p.sib);
    assert p.sib.left.Fork? ==> p.sib.left.node in Nodes(p.sib.left);
    assert p.sib.right.Fork? ==> p.sib.right.node in Nodes(p.sib.right);
  }

  /** The sentinel still remembers the parent of an empty focus. */
  ghost predicate Remembers(h: Heap, p: Spine, t: Shape)
    requires !p.Root?
  {
    t.Leaf? ==> h.nil in h.cells && h.cells[h.nil].parent == p.node
  }

  ghost function TurnedTo(left: bool, s: Shape): Shape
    requires s.Fork? && (if left then s.right.Fork? else s.left.Fork?)
  {
    if left then RotatedLeft(s) else RotatedRight(s)
  }

  lemma TurnedSame(left: bool, s: Shape)
    requires s.Fork? && (if left then s.right.Fork? else s.left.Fork?)
    ensures Nodes(TurnedTo(left, s)) == Nodes(s) && Items(TurnedTo(left, s)) == Items(s)
  {
    if left { RotatedLeftSame(s); } else { RotatedRightSame(s); }
  }

  /** Raising a spine whose sibling was replaced by one with the same entries. */
  lemma RaisedSame(p: Spine, q: Spine, t: Shape, s: Shape)
    requires !p.Root? && !q.Root? && p.up == q.up && p.node == q.node && p.key == q.key && (p.InLeft? <==> q.InLeft?)
    requires Items(p.sib) == Items(q.sib) && Nodes(p.sib) == Nodes(q.sib)
    requires Items(t) == Items(s) && Nodes(t) == Nodes(s)
    ensures Items(Plug(p, t)) == Items(Plug(q, s)) && Nodes(Plug(p, t)) == Nodes(Plug(q, s))
  {
    assert Items(Raised(p, t)) == Items(Raised(q, s)) && Nodes(Raised(p, t)) == Nodes(Raised(q, s));
    SameContents(p.up, Raised(p, t), Raised(q, s));
  }

  // red sibling

  ghost function RedSibPainted(p: Spine): Spine
    requires !p.Root? && p.sib.Fork?
  {
    p.(red := true, sib := p.sib.(red := false))
  }

  lemma RedSibPaint(h: Heap, h': Heap, p: Spine, t: Shape)
    requires Focus(h, p, t) && !p.Root? && Red(p.sib) && Coloured(h, h', {p.node}, {p.sib.node})
    ensures Focus(h', p.up, Raised(RedSibPainted(p), t))
  {
    KidsApart(p);
    Tint(h, h', p, t, {p.node}, {p.sib.node});
    assert Tinted(p, {p.node}, {p.sib.node}) == RedSibPainted(p);
    GoUp(h', RedSibPainted(p), t);
  }

  lemma RedSibStep(h: Heap, h': Heap, p: Spine, t: Shape, b: nat, owned: set<Node>, items: seq<Entry>)
    requires Mending(h, p, t, b, owned, items) && !p.Root? && Red(p.sib)
    requires Focus(h', p.up, TurnedTo(p.InLeft?, Raised(RedSibPainted(p), t))) && Remembers(h', p, t)
    ensures Mending(h', RedSibSpine(p), t, b, owned, items) && !Red(RedSibSpine(p).sib)
    ensures Depth(RedSibSpine(p)) == Depth(p) + 1 && RedSibSpine(p).red && (p.InLeft? <==> RedSibSpine(p).InLeft?)
  {
    RedSib(p, t, b);
    var s := TurnedTo(p.InLeft?, Raised(RedSibPainted(p), t));
    var q := RedSibSpine(p);
    if p.InLeft? {
      GoLeft(h', p.up, s);
      GoLeft(h', q.up, s.left);
    } else {
      GoRight(h', p.up, s);
      GoRight(h', q.up, s.right);
    }
    RaisedSame(p, RedSibPainted(p), t, t);
    TurnedSame(p.InLeft?, Raised(RedSibPainted(p), t));
    SameContents(p.up, Raised(RedSibPainted(p), t), s);
    assert Plug(q, t) == Plug(p.up, s);
  }

  // black sibling with black children

  lemma BlackSibPaint(h: Heap, h': Heap, p: Spine, t: Shape)
    requires Focus(h, p, t) && !p.Root? && p.sib.Fork? && Coloured(h, h', {p.sib.node}, {})
    ensures Focus(h', p.up, BlackSibShape(p, t))
  {
    KidsApart(p);
    Tint(h, h', p, t, {p.sib.node}, {});
    var q := p.(sib := p.sib.(red := true));
    assert Tinted(p, {p.sib.node}, {}) == q;
    GoUp(h', q, t);
  }

  lemma BlackSibStep(h: Heap, h': Heap, p: Spine, t: Shape, b: nat, owned: set<Node>, items: seq<Entry>)
    requires Mending(h, p, t, b, owned, items) && !p.Root? && !Red(t) && p.sib.Fork? && !p.sib.red
    requires !Red(p.sib.left) && !Red(p.sib.right) && Coloured(h, h', {p.sib.node}, {})
    ensures Mending(h', p.up, BlackSibShape(p, t), if p.red then b else b + 1, owned, items)
  {
    var q := p.(sib := p.sib.(red := true));
    BlackSib(p, t, b);
    BlackSibPaint(h, h', p, t);
    RaisedSame(p, q, t, t);
  }

  // black sibling with a red inner child

  ghost function InnerPainted(p: Spine): Shape
    requires !p.Root? && p.sib.Fork?
  {
    if p.InLeft? then p.sib.(red := true, left := Blacken(p.sib.left))
    else p.sib.(red := true, right := Blacken(p.sib.right))
  }

  /** The spine of the sibling. */
  ghost function Across(p: Spine, t: Shape): Spine
    requires !p.Root?
  {
    if p.InLeft? then InRight(p.up, t, p.node, p.key, p.red) else InLeft(p.up, p.node, p.key, p.red, t)
  }

  lemma GoAcross(h: Heap, p: Spine, t: Shape)
    requires Focus(h, p, t) && !p.Root? && p.sib.Fork?
    ensures Focus(h, Across(p, t), p.sib)
  {
    GoUp(h, p, t);
    if p.InLeft? { GoRight(h, p.up, Raised(p, t)); } else { GoLeft(h, p.up, Raised(p, t)); }
  }

  lemma GoBack(h: Heap, p: Spine, t: Shape, s: Shape)
    requires !p.Root? && Focus(h, Across(p, t), s) && Remembers(h, p, t)
    ensures Focus(h, WithSib(p, s), t)
  {
    GoUp(h, Across(p, t), s);
    if p.InLeft? { GoLeft(h, p.up, Raised(Across(p, t), s)); } else { GoRight(h, p.up, Raised(Across(p, t), s)); }
  }

  lemma InnerPaint(h: Heap, h': Heap, p: Spine, t: Shape)
    requires Focus(h, p, t) && !p.Root? && p.sib.Fork? && !p.sib.red
    requires Red(Near(p.sib, p.InLeft?)) && !Red(Far(p.sib, p.InLeft?))
    requires Coloured(h, h', {p.sib.node}, {Near(p.sib, p.InLeft?).node})
    ensures Focus(h', Across(p, t), InnerPainted(p)) && Same(h, h', h.nil)
  {
    KidsApart(p);
    Tint(h, h', p, t, {p.sib.node}, {Near(p.sib, p.InLeft?).node});
    var q := WithSib(p, InnerPainted(p));
    assert Tinted(p, {p.sib.node}, {Near(p.sib, p.InLeft?).node}) == q;
    GoAcross(h', q, t);
  }

  lemma InnerStep(h: Heap, h': Heap, p: Spine, t: Shape, b: nat, owned: set<Node>, items: seq<Entry>)
    requires Mending(h, p, t, b, owned, items) && !p.Root? && p.sib.Fork? && !p.sib.red
    requires Red(Near(p.sib, p.InLeft?)) && !Red(Far(p.sib, p.InLeft?))
    requires Focus(h', Across(p, t), TurnedTo(!p.InLeft?, InnerPainted(p))) && Remembers(h', p, t)
    ensures Mending(h', WithSib(p, InnerRedSib(p)), t, b, owned, items) && Red(Far(InnerRedSib(p), p.InLeft?))
  {
    InnerRed(p, t, b);
    assert TurnedTo(!p.InLeft?, InnerPainted(p)) == InnerRedSib(p);
    GoBack(h', p, t, InnerRedSib(p));
    TurnedSame(!p.InLeft?, InnerPainted(p));
    assert Items(InnerPainted(p)) == Items(p.sib) && Nodes(InnerPainted(p)) == Nodes(p.sib);
    RaisedSame(p, WithSib(p, InnerRedSib(p)), t, t);
  }

  // black sibling with a red outer child

  ghost function OuterPainted(p: Spine): Spine
    requires !p.Root? && p.sib.Fork?
  {
    var w := p.sib;
    p.(red := false, sib := if p.InLeft? then w.(red := p.red, right := Blacken(w.right))
                            else w.(red := p.red, left := Blacken(w.left)))
  }

  lemma OuterTint(p: Spine)
    requires !p.Root? && p.sib.Fork? && SpineApart(p) && Far(p.sib, p.InLeft?).Fork?
    ensures var f := Far(p.sib, p.InLeft?).node;
            OuterPainted(p) == if p.red then Tinted(p, {p.sib.node}, {p.node, f}) else Tinted(p, {}, {p.sib.node, p.node, f})
  {
    KidsApart(p);
  }

  lemma OuterPaint(h: Heap, h': Heap, p: Spine, t: Shape)
    requires Focus(h, p, t) && !p.Root? && p.sib.Fork? && !p.sib.red && Red(Far(p.sib, p.InLeft?))
    requires var f := Far(p.sib, p.InLeft?).node;
             if p.red then Coloured(h, h', {p.sib.node}, {p.node, f}) else Coloured(h, h', {}, {p.sib.node, p.node, f})
    ensures Focus(h', p.up, Raised(OuterPainted(p), t))
  {
    var f := Far(p.sib, p.InLeft?).node;
    OuterTint(p);
    if p.red {
      Tint(h, h', p, t, {p.sib.node}, {p.node, f});
    } else {
      Tint(h, h', p, t, {}, {p.sib.node, p.node, f});
    }
    GoUp(h', OuterPainted(p), t);
  }

  lemma OuterStep(h: Heap, h': Heap, p: Spine, t: Shape, b: nat, owned: set<Node>, items: seq<Entry>) returns (b': nat)
    requires Mending(h, p, t, b, owned, items) && !p.Root? && !Red(t) && p.sib.Fork? && !p.sib.red
    requires Red(Far(p.sib, p.InLeft?))
    requires Focus(h', p.up, TurnedTo(p.InLeft?, Raised(OuterPainted(p), t)))
    ensures Mending(h', Root, Plug(p.up, OuterRedShape(p, t)), b', owned, items)
  {
    OuterRed(p, t, b);
    var s := OuterRedShape(p, t);
    assert TurnedTo(p.InLeft?, Raised(OuterPainted(p), t)) == s;
    b' := WholeDue(Plug(p.up, s));
    GoTop(h', p.up, s);
    assert Items(OuterPainted(p).sib) == Items(p.sib) && Nodes(OuterPainted(p).sib) == Nodes(p.sib);
    RaisedSame(p, OuterPainted(p), t, t);
    TurnedSame(p.InLeft?, Raised(OuterPainted(p), t));
    SameContents(p.up, Raised(OuterPainted(p), t), s);
  }

  // ---- termination and the end of the loop ----

  ghost function Fuel(p: Spine, t: Shape): nat {
    2 * Depth(p) + (if Red(t) then 0 else 1)
  }

  lemma BlackSibFuel(p: Spine, t: Shape)
    requires !p.Root? && p.sib.Fork?
    ensures Fuel(p.up, BlackSibShape(p, t)) == 2 * Depth(p) - 2 + (if p.red then 0 else 1)
  {
  }

  /** What the loop guard reads. */
  lemma Guard(h: Heap, p: Spine, t: Shape, b: nat, owned: set<Node>, items: seq<Entry>)
    requires Mending(h, p, t, b, owned, items)
    ensures Top(t, h.nil) in h.cells && h.cells[Top(t, h.nil)].red == Red(t)
    ensures p.Root? <==> h.root == Top(t, h.nil)
    ensures t.Fork? ==> t.node in owned
  {
    PlugNodes(p, t);
    if !p.Root? { RootOnSpine(h, p, Top(t, h.nil)); }
    assert t.Fork? ==> t.node in Nodes(t);
  }

  lemma MendFinish(h: Heap, h': Heap, p: Spine, t: Shape, b: nat, owned: set<Node>, items: seq<Entry>)
    requires Mending(h, p, t, b, owned, items) && (p.Root? || Red(t))
    requires Top(t, h.nil) in h.cells && h' == Dyed(h, Top(t, h.nil), false)
    ensures var s := Plug(p, Blacken(t));
            Focus(h', Root, s) && RedBlack(s) && Items(s) == items && Nodes(s) == owned
  {
    DeleteDone(p, t, b);
    SameContents(p, t, Blacken(t));
    if t.Leaf? {
      assert h'.cells == h.cells;
      assert h' == h;
    } else {
      Repainted(h, h', p, t);
      DyedTop(h, h', p, t);
    }
    GoTop(h', p, Blacken(t));
  }

  lemma DyedTop(h: Heap, h': Heap, p: Spine, t: Shape)
    requires Focus(h, p, t) && t.Fork? && t.node in h.cells && h' == Dyed(h, t.node, false)
    ensures Painted(h', t) == Blacken(t) && PaintedSpine(h', p) == p
  {
    assert t.node in Nodes(t);
    PaintedKept(h, h', t.left);
    PaintedKept(h, h', t.right);
    PaintedSpineKept(h, h', p, t.node);
  }
}
