/** What the pointers spell after the in-order successor of a node with two children has taken its place. */
module RbPromote {
  import opened RbShape
  import opened RbLinks
  import opened RbDelete
  import opened RbRemove

  /** The cell of `n` after `subst`, the left-most node right of `node`, was unhooked and put in the place of `node`. */
  ghost function ReplacedCell(h: Heap, node: Node, subst: Node, temp: Node, n: Node): Cell
    requires node in h.cells && subst in h.cells && n in h.cells
  {
    var c := h.cells[n];
    var old' := h.cells[node];
    var up := h.cells[subst].parent;
    if n == subst then Cell(c.key, old'.red, old'.left, if up == node then temp else old'.right, old'.parent)
    else if n == temp then c.(parent := if up == node then subst else up)
    else if n == old'.left then c.(parent := subst)
    else if n == up && n != node then c.(left := temp, parent := if n == old'.right then subst else c.parent)
    else if n == old'.right then c.(parent := subst)
    else if node != h.root && n == old'.parent then (if c.left == node then c.(left := subst) else c.(right := subst))
    else c
  }

  ghost predicate Replaced(h: Heap, h': Heap, node: Node, subst: Node, temp: Node) {
    && node in h.cells && subst in h.cells && temp in h.cells
    && h'.nil == h.nil && h'.root == (if node == h.root then subst else h.root)
    && h'.cells.Keys == h.cells.Keys - {node}
    && forall n :: n in h.cells && n != node ==> h'.cells[n] == ReplacedCell(h, node, subst, temp, n)
  }

  /** The writes that put `subst` in the place of `node`, in the order ngx_rbtree_delete makes them. */
  ghost predicate Replaceable(h: Heap, node: Node, subst: Node, temp: Node) {
    && {node, subst, temp} <= h.cells.Keys && node != subst && temp != node && temp != subst
    && node != h.nil && subst != h.nil
    && h.cells[subst].left == h.nil && h.cells[subst].right == temp
    && (var up := h.cells[subst].parent;
        && up != null && up in h.cells && up != subst && up != temp && up != h.nil
        && (var l, r := h.cells[node].left, h.cells[node].right;
            && l != null && l in h.cells && l !in {node, subst, temp, up, h.nil}
            && r != null && r in h.cells && r !in {node, temp, l, h.nil}
            && (up == node <==> r == subst)
            && (up == node ==> h.cells[node].left != subst)
            && (up != node ==> h.cells[up].left == subst)
            && (node != h.root ==>
                 var g := h.cells[node].parent;
                 g != null && g in h.cells && g !in {node, subst, temp, up, l, r, h.nil})))
  }

  /** The successor is unhooked, its child is hung, and it gets the fields of `node`. */
  ghost function TakenOver(h: Heap, node: Node, subst: Node, temp: Node): Heap
    requires Replaceable(h, node, subst, temp)
  {
    var up := h.cells[subst].parent;
    Copied(Hung(Rechilded(h, up, subst, temp), temp, if up == node then subst else up), subst, node)
  }

  /** The parent and the children of `node` learn about `subst`, and `node` is forgotten. */
  ghost predicate Handover(h: Heap, node: Node, subst: Node) {
    && {node, subst} <= h.cells.Keys && node != subst && node != h.nil && subst != h.nil
    && (node != h.root ==>
         && h.cells[node].parent != null && h.cells[node].parent in h.cells && h.cells[node].parent !in {node, subst, h.nil})
    && (var l, r := h.cells[subst].left, h.cells[subst].right;
        && l != null && l in h.cells && l !in {node, subst, h.nil}
        && r != null && r in h.cells && r !in {node, subst, l}
        && (node != h.root ==> h.cells[node].parent !in {l, r}))
  }

  ghost function HandedOver(h: Heap, node: Node, subst: Node): Heap
    requires Handover(h, node, subst)
  {
    var h4 := Reseated(h, node, subst);
    var h5 := Hung(h4, h.cells[subst].left, subst);
    var r := h.cells[subst].right;
    Forgotten(if r != h.nil then Hung(h5, r, subst) else h5, node)
  }

  lemma TakenOverCells(h: Heap, node: Node, subst: Node, temp: Node)
    requires Replaceable(h, node, subst, temp)
    ensures var g := TakenOver(h, node, subst, temp);
            var up := h.cells[subst].parent;
            && Handover(g, node, subst) && g.root == h.root && g.nil == h.nil && g.cells.Keys == h.cells.Keys
            && g.cells[node].parent == h.cells[node].parent
            && g.cells[subst] == Cell(h.cells[subst].key, h.cells[node].red, h.cells[node].left,
                                      if up == node then temp else h.cells[node].right, h.cells[node].parent)
            && g.cells[temp] == h.cells[temp].(parent := if up == node then subst else up)
            && (up != node ==> g.cells[up] == h.cells[up].(left := temp))
            && (forall n :: n in h.cells && n !in {node, subst, temp, up} ==> g.cells[n] == h.cells[n])
  {
  }

  lemma ReplacementReplaces(h: Heap, node: Node, subst: Node, temp: Node)
    requires Replaceable(h, node, subst, temp)
    ensures Handover(TakenOver(h, node, subst, temp), node, subst)
    ensures Replaced(h, HandedOver(TakenOver(h, node, subst, temp), node, subst), node, subst, temp)
  {
    TakenOverCells(h, node, subst, temp);
    var g := TakenOver(h, node, subst, temp);
    var h' := HandedOver(g, node, subst);
    forall n | n in h.cells && n != node
      ensures h'.cells[n] == ReplacedCell(h, node, subst, temp, n)
    {
    }
  }

  /** The node right below the base of a left-most spine. */
  ghost function TopOf(q: Spine, base: Spine): Node
    requires LeftMost(q, base) && q != base
  {
    if q.up == base then q.node else TopOf(q.up, base)
  }

  lemma {:induction false} TopOnSpine(q: Spine, base: Spine)
    requires LeftMost(q, base) && q != base && SpineApart(q)
    ensures TopOf(q, base) in SpineNodes(q) && TopOf(q, base) !in Nodes(q.sib) && TopOf(q, base) !in SpineNodes(base)
    ensures q.up != base ==> TopOf(q, base) != q.node
  {
    if q.up != base { TopOnSpine(q.up, base); }
  }

  lemma {:induction false} TopIsRight(h: Heap, q: Spine, base: Spine, hole: Node)
    requires LeftMost(q, base) && SpineLinked(h, q, hole)
    ensures base.node in h.cells
    ensures h.cells[base.node].right == if q == base then hole else TopOf(q, base)
    ensures SpineLinked(h, base, if q == base then hole else TopOf(q, base))
    ensures q != base ==> TopOf(q, base) in h.cells
  {
    if q != base { TopIsRight(h, q.up, base, q.node); }
  }

  /** The frames above the hole and below the base: only the lowest left pointer and the topmost parent pointer change. */
  ghost predicate FramesKept(h: Heap, h': Heap, q: Spine, base: Spine, m: Node, hole': Node)
    requires LeftMost(q, base)
  {
    forall n :: n in SpineNodes(q) && n !in SpineNodes(base) && n in h.cells ==>
      n in h'.cells
      && h'.cells[n] == (if n == q.node then h.cells[n].(left := hole', parent := if n == TopOf(q, base) then m else h.cells[n].parent)
                         else if n == TopOf(q, base) then h.cells[n].(parent := m)
                         else h.cells[n])
  }

  lemma {:induction false} SwapSpine(h: Heap, h': Heap, q: Spine, base: Spine, m: Node, key: nat, hole: Node, hole': Node)
    requires LeftMost(q, base) && SpineLinked(h, q, hole) && SpineApart(q) && h'.nil == h.nil
    requires Spells(h', m, key, base.red, Top(base.sib, h.nil), if q == base then hole' else TopOf(q, base))
    requires Under(h', base.sib, m) && Linked(h', base.sib)
    requires (!base.up.Root? ==> h'.cells[m].parent == base.up.node) && SpineLinked(h', base.up, m)
    requires FramesKept(h, h', q, base, m, hole')
    ensures SpineLinked(h', Promoted(q, base, m, key), hole')
  {
    if q != base {
      TopOnSpine(q, base);
      FrameApart(q, base);
      forall n | n in Nodes(q.sib)
        ensures Same(h, h', n)
      {
        assert n in SpineNodes(q);
      }
      assert q.sib.Fork? ==> q.sib.node in Nodes(q.sib);
      LinkedKept(h, h', q.sib);
      if q.up != base {
        assert Leftwards(q.up, base) && q.up.InLeft?;
        assert FramesKept(h, h', q.up, base, m, q.node) by {
          assert h.cells[q.up.node].left == q.node;
          assert q.node !in SpineNodes(q.up);
        }
      }
      SwapSpine(h, h', q.up, base, m, key, q.node, q.node);
      assert q.node in SpineNodes(q);
    }
  }

  lemma {:induction false} FrameApart(q: Spine, base: Spine)
    requires LeftMost(q, base) && SpineApart(q)
    ensures SpineNodes(base) <= SpineNodes(q)
    ensures q != base ==> q.node !in SpineNodes(base) && Nodes(q.sib) !! SpineNodes(base)
  {
    if q != base { FrameApart(q.up, base); }
  }

  // ---- the pieces of the tree around a node with two children and its successor ----

  /** The hole right of `base` is filled by something whose left-most node is the top of `s`. */
  ghost predicate Around(h: Heap, q: Spine, base: Spine, s: Shape) {
    && LeftMost(q, base) && base.sib.Fork? && s.Fork? && s.left.Leaf? && Focus(h, q, s)
  }

  lemma {:induction false} Climb(h: Heap, q: Spine, base: Spine, s: Shape) returns (r: Shape)
    requires LeftMost(q, base) && Focus(h, q, s)
    ensures Focus(h, base, r) && Plug(base, r) == Plug(q, s)
  {
    if q == base {
      r := s;
    } else {
      GoUp(h, q, s);
      r := Climb(h, q.up, base, Raised(q, s));
    }
  }

  /** The pointers `Replaced` reads, by the pieces they lead to. */
  lemma AroundPointers(h: Heap, q: Spine, base: Spine, s: Shape)
    requires Around(h, q, base, s)
    ensures base.node in h.cells && s.node in h.cells && base.sib.node in h.cells && Top(s.right, h.nil) in h.cells
    ensures h.cells[s.node].parent == q.node && h.cells[s.node].key == s.key
    ensures h.cells[s.node].left == h.nil && h.cells[s.node].right == Top(s.right, h.nil)
    ensures h.cells[base.node].left == base.sib.node && h.cells[base.node].red == base.red
    ensures h.cells[base.node].right == if q == base then s.node else TopOf(q, base)
    ensures base.up.Root? <==> h.root == base.node
    ensures !base.up.Root? ==> h.cells[base.node].parent == base.up.node && base.up.node in h.cells
    ensures base.up.InLeft? ==> h.cells[base.up.node].left == base.node
    ensures base.up.InRight? ==> h.cells[base.up.node].right == base.node && h.cells[base.up.node].left != base.node
  {
    TopIsRight(h, q, base, s.node);
    var r := Climb(h, q, base, s);
    GoUp(h, base, r);
    Hangs(h, base.up, Raised(base, r));
  }

  lemma AroundApart(q: Spine, base: Spine, s: Shape)
    requires LeftMost(q, base) && base.sib.Fork? && s.Fork?
    requires SpineApart(q) && Apart(s) && Nodes(s) !! SpineNodes(q)
    ensures s.node in Nodes(s) && s.node !in Nodes(s.right) && Nodes(s.right) <= Nodes(s)
    ensures SpineNodes(base) <= SpineNodes(q) && SpineNodes(base) == {base.node} + Nodes(base.sib) + SpineNodes(base.up)
    ensures base.node !in Nodes(base.sib) && base.node !in SpineNodes(base.up) && Nodes(base.sib) !! SpineNodes(base.up)
    ensures Apart(base.sib) && SpineApart(base.up) && base.sib.node in Nodes(base.sib)
    ensures q != base ==> TopOf(q, base) in SpineNodes(q) && TopOf(q, base) !in SpineNodes(base) && q.node !in SpineNodes(base)
    ensures q.node in SpineNodes(q)
  {
    BaseApart(q, base);
    FrameApart(q, base);
    BaseParts(q, base);
    if q != base { TopOnSpine(q, base); }
  }

  lemma {:induction false} BaseParts(q: Spine, base: Spine)
    requires LeftMost(q, base) && SpineApart(q)
    ensures SpineApart(base) && Apart(base.sib) && SpineApart(base.up)
    ensures Nodes(base.sib) !! SpineNodes(base.up)
  {
    if q != base { BaseParts(q.up, base); }
  }

  /** The nodes whose cells a replacement changes. */
  ghost predicate Touched(q: Spine, base: Spine, s: Shape, n: Node)
    requires LeftMost(q, base) && base.sib.Fork? && s.Fork?
  {
    || n == s.node || n == base.node || n == base.sib.node || n == q.node
    || (s.right.Fork? && n == s.right.node)
    || (q != base && n == TopOf(q, base))
    || (!base.up.Root? && n == base.up.node)
  }

  lemma Untouched(h: Heap, h': Heap, q: Spine, base: Spine, s: Shape)
    requires Around(h, q, base, s) && Replaced(h, h', base.node, s.node, Top(s.right, h.nil))
    ensures forall n :: !Touched(q, base, s, n) && n != h.nil ==> Same(h, h', n)
  {
    AroundPointers(h, q, base, s);
  }

  lemma PiecesUntouched(q: Spine, base: Spine, s: Shape)
    requires LeftMost(q, base) && base.sib.Fork? && s.Fork?
    requires SpineApart(q) && Apart(s) && Nodes(s) !! SpineNodes(q)
    ensures forall n :: n in Below(s.right) || n in Below(base.sib) ==> !Touched(q, base, s, n)
    ensures forall n :: n in SpineNodes(base.up) && n != base.up.node ==> !Touched(q, base, s, n)
  {
    AroundApart(q, base, s);
    BelowIsLess(s.right);
    BelowIsLess(base.sib);
    assert s.right.Fork? ==> s.right.node in Nodes(s.right);
    assert !base.up.Root? ==> base.up.node in SpineNodes(base.up);
  }

  /** The nodes the replacement touches are different nodes. */
  lemma TouchedDiffer(q: Spine, base: Spine, s: Shape)
    requires LeftMost(q, base) && base.sib.Fork? && s.Fork?
    requires SpineApart(q) && Apart(s) && Nodes(s) !! SpineNodes(q)
    ensures base.sib.node !in {s.node, base.node, q.node} && s.node !in {base.node, q.node}
    ensures s.right.Fork? ==> s.right.node !in {s.node, base.node, base.sib.node, q.node}
    ensures q != base ==> TopOf(q, base) !in {s.node, base.node, base.sib.node} && q.node != base.node
    ensures q != base && s.right.Fork? ==> s.right.node != TopOf(q, base)
    ensures !base.up.Root? ==> base.up.node !in {s.node, base.node, base.sib.node, q.node}
    ensures !base.up.Root? && s.right.Fork? ==> base.up.node != s.right.node
    ensures !base.up.Root? && q != base ==> base.up.node != TopOf(q, base)
  {
    AroundApart(q, base, s);
    assert s.right.Fork? ==> s.right.node in Nodes(s.right);
    assert !base.up.Root? ==> base.up.node in SpineNodes(base.up);
  }

  lemma ReplacedBelow(h: Heap, h': Heap, q: Spine, base: Spine, s: Shape)
    requires Around(h, q, base, s) && Replaced(h, h', base.node, s.node, Top(s.right, h.nil))
    ensures forall n :: n in Below(s.right) || n in Below(base.sib) ==> Same(h, h', n)
    ensures s.right.Fork? ==> SameButParent(h, h', s.right.node)
    ensures SameButParent(h, h', base.sib.node) && Under(h', base.sib, s.node)
  {
    AroundPointers(h, q, base, s);
    TouchedDiffer(q, base, s);
    PiecesUntouched(q, base, s);
    Untouched(h, h', q, base, s);
    NilBelow(h, q, base, s);
  }

  lemma NilBelow(h: Heap, q: Spine, base: Spine, s: Shape)
    requires Around(h, q, base, s)
    ensures h.nil !in Below(s.right) && h.nil !in Nodes(base.sib) && h.nil !in SpineNodes(base.up)
    ensures h.nil != s.node && h.nil != q.node && h.nil != base.node
  {
    AroundApart(q, base, s);
    BelowIsLess(s.right);
  }

  lemma ReplacedAbove(h: Heap, h': Heap, q: Spine, base: Spine, s: Shape)
    requires Around(h, q, base, s) && Replaced(h, h', base.node, s.node, Top(s.right, h.nil))
    ensures forall n :: n in SpineNodes(base.up) && n in h.cells ==>
      n in h'.cells && h'.cells[n] == Redirected(base.up, h.cells[n], n, s.node)
  {
    AroundPointers(h, q, base, s);
    TouchedDiffer(q, base, s);
    PiecesUntouched(q, base, s);
    Untouched(h, h', q, base, s);
    NilBelow(h, q, base, s);
    forall n | n in SpineNodes(base.up) && n in h.cells
      ensures n in h'.cells && h'.cells[n] == Redirected(base.up, h.cells[n], n, s.node)
    {
      if n != base.up.node {
        assert Same(h, h', n);
      }
    }
  }

  lemma ReplacedFrames(h: Heap, h': Heap, q: Spine, base: Spine, s: Shape)
    requires Around(h, q, base, s) && Replaced(h, h', base.node, s.node, Top(s.right, h.nil))
    ensures FramesKept(h, h', q, base, s.node, Top(s.right, h.nil))
  {
    AroundPointers(h, q, base, s);
    TouchedDiffer(q, base, s);
    AroundApart(q, base, s);
    Untouched(h, h', q, base, s);
    assert s.right.Fork? ==> s.right.node in Nodes(s.right);
    assert !base.up.Root? ==> base.up.node in SpineNodes(base.up);
    forall n | n in SpineNodes(q) && n !in SpineNodes(base) && n != q.node && n != TopOf(q, base)
      ensures Same(h, h', n)
    {
      assert !Touched(q, base, s, n);
    }
  }

  lemma PromoteLinks(h: Heap, h': Heap, q: Spine, base: Spine, s: Shape)
    requires Around(h, q, base, s) && Replaced(h, h', base.node, s.node, Top(s.right, h.nil))
    ensures Linked(h', s.right) && SpineLinked(h', Promoted(q, base, s.node, s.key), Top(s.right, h.nil))
  {
    AroundPointers(h, q, base, s);
    AroundApart(q, base, s);
    ReplacedBelow(h, h', q, base, s);
    ReplacedAbove(h, h', q, base, s);
    ReplacedFrames(h, h', q, base, s);
    LinkedKept(h, h', s.right);
    TopIsRight(h, q, base, s.node);
    LinkedKept(h, h', base.sib);
    SpineRedirected(h, h', base.up, base.node, s.node);
    SwapSpine(h, h', q, base, s.node, s.key, s.node, Top(s.right, h.nil));
  }

  lemma PromotedApart(q: Spine, base: Spine, s: Shape, nil: Node)
    requires LeftMost(q, base) && base.sib.Fork? && s.Fork?
    requires SpineApart(q) && Apart(s) && Nodes(s) !! SpineNodes(q) && nil !in Nodes(s) && nil !in SpineNodes(q)
    ensures var q' := Promoted(q, base, s.node, s.key);
            SpineApart(q') && Apart(s.right) && Nodes(s.right) !! SpineNodes(q')
            && nil !in Nodes(s.right) && nil !in SpineNodes(q')
  {
    AroundApart(q, base, s);
    PromotedSpine(q, base, s.node, s.key);
  }

  /** The replacement, seen from the hole the successor left behind. */
  lemma PromoteFocus(h: Heap, h': Heap, q: Spine, base: Spine, s: Shape)
    requires Around(h, q, base, s) && Replaced(h, h', base.node, s.node, Top(s.right, h.nil))
    ensures Focus(h', Promoted(q, base, s.node, s.key), s.right)
  {
    PromoteLinks(h, h', q, base, s);
    PromotedApart(q, base, s, h.nil);
    PromoteParent(h, h', q, base, s);
  }

  lemma PromoteParent(h: Heap, h': Heap, q: Spine, base: Spine, s: Shape)
    requires Around(h, q, base, s) && Replaced(h, h', base.node, s.node, Top(s.right, h.nil))
    ensures var q' := Promoted(q, base, s.node, s.key);
            Top(s.right, h.nil) in h'.cells && h'.cells[Top(s.right, h.nil)].parent == q'.node
    ensures h.nil in h'.cells && !h'.cells[h.nil].red
  {
    AroundPointers(h, q, base, s);
    TouchedDiffer(q, base, s);
    NilBelow(h, q, base, s);
  }

  /** A node with two children and its successor are as the replacement expects them. */
  lemma AroundReplaceable(h: Heap, q: Spine, base: Spine, s: Shape)
    requires Around(h, q, base, s)
    ensures Replaceable(h, base.node, s.node, Top(s.right, h.nil))
  {
    AroundPointers(h, q, base, s);
    TouchedDiffer(q, base, s);
    NilBelow(h, q, base, s);
    SuccessorPlace(h, q, base, s);
  }

  lemma SuccessorPlace(h: Heap, q: Spine, base: Spine, s: Shape)
    requires Around(h, q, base, s)
    ensures base.node in h.cells && q.node in h.cells
    ensures q.node == base.node <==> h.cells[base.node].right == s.node
    ensures q.node != base.node ==> h.cells[q.node].left == s.node
    ensures h.cells[base.node].right in h.cells && h.cells[base.node].right != null
    ensures h.cells[base.node].right != h.nil
    ensures q != base ==> q.node != base.node
  {
    TopIsRight(h, q, base, s.node);
    AroundPointers(h, q, base, s);
    AroundApart(q, base, s);
  }

  /** What is left to do after a node left the tree: nothing if the unhooked node was red, the fix-up if it was black. */
  ghost predicate Departed(h: Heap, p: Spine, t: Shape, red: bool, b: nat, owned: set<Node>, items: seq<Entry>) {
    && Focus(h, p, t) && Sorted(items) && owned == Nodes(Plug(p, t)) && items == Items(Plug(p, t))
    && (if red then RedBlack(Plug(p, t)) else Mending(h, p, t, b, owned, items))
  }

  lemma PromoteStep(h: Heap, h': Heap, q: Spine, base: Spine, s: Shape) returns (b: nat)
    requires Around(h, q, base, s) && Replaced(h, h', base.node, s.node, Top(s.right, h.nil))
    requires RedBlack(Plug(q, s)) && Sorted(Items(Plug(q, s)))
    ensures Departed(h', Promoted(q, base, s.node, s.key), s.right, s.red, b,
                     Nodes(Plug(q, s)) - {base.node}, Removed(Items(Plug(q, s)), base.node))
  {
    PlugApart(q, s);
    PromoteOrder(q, base, s);
    RemovedSorted(Items(Plug(q, s)), base.node);
    b := PromoteRemoved(q, base, s);
    PromoteFocus(h, h', q, base, s);
  }

  lemma SpliceStep(h: Heap, h': Heap, p: Spine, t: Shape) returns (b: nat)
    requires HalfEmpty(t) && Focus(h, p, t) && !p.Root? && Spliced(h, h', t.node, Top(OnlyChild(t), h.nil))
    requires RedBlack(Plug(p, t)) && Sorted(Items(Plug(p, t)))
    ensures Departed(h', p, OnlyChild(t), t.red, b, Nodes(Plug(p, t)) - {t.node}, Removed(Items(Plug(p, t)), t.node))
  {
    PlugApart(p, t);
    HalfOrder(p, t);
    RemovedSorted(Items(Plug(p, t)), t.node);
    b := HalfRemoved(p, t);
    SpliceLinks(h, h', p, t);
  }

  lemma UnrootStep(h: Heap, h': Heap, t: Shape)
    requires HalfEmpty(t) && Focus(h, Root, t) && Unrooted(h, h', t.node, Top(OnlyChild(t), h.nil))
    requires RedBlack(t) && Sorted(Items(t))
    ensures Departed(h', Root, Blacken(OnlyChild(t)), true, 0, Nodes(t) - {t.node}, Removed(Items(t), t.node))
  {
    HalfOrder(Root, t);
    RemovedSorted(Items(t), t.node);
    var _ := HalfRemoved(Root, t);
    UnrootLinks(h, h', t);
    SameContents(Root, OnlyChild(t), Blacken(OnlyChild(t)));
  }
}
