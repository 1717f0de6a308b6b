/** Taking a node out of the tree before the delete fix-up starts. */
module RbRemove {
  import opened RbShape
  import opened RbLinks
  import opened RbDelete

  // ---- the order ----

  /** The sequence without its first entry for `n`. */
  ghost function Removed(s: seq<Entry>, n: Node): seq<Entry> {
    if s == [] then [] else if s[0].node == n then s[1..] else [s[0]] + Removed(s[1..], n)
  }

  lemma {:induction false} RemovedAt(a: seq<Entry>, e: Entry, b: seq<Entry>)
    requires forall x :: x in a ==> x.node != e.node
    ensures Removed(a + [e] + b, e.node) == a + b
  {
    var s := a + [e] + b;
    if a == [] {
      assert s[1..] == b && a + b == b;
    } else {
      assert s[0] == a[0] && a[0] in a;
      assert s[1..] == a[1..] + [e] + b;
      RemovedAt(a[1..], e, b);
      assert [a[0]] + (a[1..] + b) == a + b;
    }
  }

  lemma {:induction false} RemovedSorted(s: seq<Entry>, n: Node)
    requires Sorted(s)
    ensures Sorted(Removed(s, n)) && forall e :: e in Removed(s, n) ==> e in s
  {
    if s != [] && s[0].node != n {
      RemovedSorted(s[1..], n);
      forall e | e in s[1..] ensures s[0].key <= e.key {
        var i :| 0 <= i < |s[1..]| && s[1..][i] == e;
        assert s[i + 1] == e;
      }
    }
  }

  lemma {:induction false} ItemsWithin(t: Shape)
    ensures forall e :: e in Items(t) ==> e.node in Nodes(t)
  {
    if t.Fork? { ItemsWithin(t.left); ItemsWithin(t.right); }
  }

  lemma {:induction false} BeforeWithin(p: Spine)
    ensures forall e :: e in Before(p) ==> e.node in SpineNodes(p)
  {
    if !p.Root? { ItemsWithin(p.sib); BeforeWithin(p.up); }
  }

  // ---- finding the node ----

  lemma {:induction false} GoTo(h: Heap, p: Spine, t: Shape)
    requires t.Fork? && Focus(h, Root, Plug(p, t))
    ensures Focus(h, p, t)
    decreases Depth(p)
  {
    if !p.Root? {
      GoTo(h, p.up, Raised(p, t));
      if p.InLeft? { GoLeft(h, p.up, Raised(p, t)); } else { GoRight(h, p.up, Raised(p, t)); }
    }
  }

  /** The spine and the shape of a node of the tree, and the pointers that lead away from it. */
  lemma FocusOn(h: Heap, t: Shape, n: Node) returns (p: Spine, s: Shape)
    requires Focus(h, Root, t) && n in Nodes(t)
    ensures s.Fork? && s.node == n && Plug(p, s) == t && Focus(h, p, s)
    ensures n in h.cells && h.cells[n].left == Top(s.left, h.nil) && h.cells[n].right == Top(s.right, h.nil)
    ensures h.cells[n].red == s.red && (p.Root? <==> h.root == n)
    ensures s.left.Leaf? <==> Top(s.left, h.nil) == h.nil
    ensures s.right.Leaf? <==> Top(s.right, h.nil) == h.nil
    ensures s.left.Fork? ==> s.left.node in Nodes(t)
    ensures s.right.Fork? ==> s.right.node in Nodes(t)
    ensures !p.Root? ==> h.cells[n].parent == p.node && p.node in Nodes(t) && p.node != n
    ensures !p.Root? ==> p.node != Top(s.left, h.nil) && p.node != Top(s.right, h.nil)
  {
    p, s := Locate(t, n, Root);
    GoTo(h, p, s);
    Hangs(h, p, s);
    PlugNodes(p, s);
    assert s.left.Fork? ==> s.left.node in Nodes(s.left) && s.left.node in Nodes(s);
    assert s.right.Fork? ==> s.right.node in Nodes(s.right) && s.right.node in Nodes(s);
    assert !p.Root? ==> p.node in SpineNodes(p);
  }

  // ---- a node with at most one child ----

  /** `t` has a sentinel for one child; `OnlyChild(t)` is the other one. */
  ghost predicate HalfEmpty(t: Shape) { t.Fork? && (t.left.Leaf? || t.right.Leaf?) }

  ghost function OnlyChild(t: Shape): Shape
    requires HalfEmpty(t)
  {
    if t.left.Leaf? then t.right else t.left
  }

  /** Removing a half-empty shape's top: nothing to repair if it was red, one black node short if it was black. */
  lemma HalfRemoved(p: Spine, t: Shape) returns (b: nat)
    requires HalfEmpty(t) && RedBlack(Plug(p, t))
    ensures t.red ==> RedBlack(Plug(p, OnlyChild(t)))
    ensures !t.red ==> DeleteDue(p, OnlyChild(t), b)
    ensures p.Root? ==> RedBlack(Blacken(OnlyChild(t)))
  {
    var b0 := UnplugRedBlack(p, t);
    if t.red {
      b := b0;
      PlugRedBlack(p, OnlyChild(t), b);
    } else {
      b := b0 - 1;
      if p.Root? { DeleteDone(p, OnlyChild(t), b); }
    }
  }

  lemma HalfOrder(p: Spine, t: Shape)
    requires HalfEmpty(t) && Apart(Plug(p, t))
    ensures Items(Plug(p, OnlyChild(t))) == Removed(Items(Plug(p, t)), t.node)
    ensures Nodes(Plug(p, OnlyChild(t))) == Nodes(Plug(p, t)) - {t.node}
  {
    PlugApart(p, t);
    PlugItems(p, t);
    PlugItems(p, OnlyChild(t));
    BeforeWithin(p);
    HalfSplit(p, t, Before(p), After(p));
    HalfNodes(p, t);
  }

  lemma HalfNodes(p: Spine, t: Shape)
    requires HalfEmpty(t) && Apart(t) && Nodes(t) !! SpineNodes(p)
    ensures Nodes(Plug(p, OnlyChild(t))) == Nodes(Plug(p, t)) - {t.node}
  {
    PlugNodes(p, t);
    PlugNodes(p, OnlyChild(t));
    assert t.node in Nodes(t) && Nodes(OnlyChild(t)) == Nodes(t) - {t.node};
  }

  lemma HalfSplit(p: Spine, t: Shape, a: seq<Entry>, b: seq<Entry>)
    requires HalfEmpty(t) && Apart(t) && forall e :: e in a ==> e.node !in Nodes(t)
    ensures Removed(a + Items(t) + b, t.node) == a + Items(OnlyChild(t)) + b
  {
    var e := Entry(t.node, t.key);
    if t.left.Leaf? {
      assert a + Items(t) + b == a + [e] + (Items(t.right) + b);
      RemovedAt(a, e, Items(t.right) + b);
      assert a + (Items(t.right) + b) == a + Items(t.right) + b;
    } else {
      ItemsWithin(t.left);
      assert a + Items(t) + b == (a + Items(t.left)) + [e] + b;
      RemovedAt(a + Items(t.left), e, b);
    }
  }

  /** The node that led to `node` leads to `temp`, which knows its new parent; the cell of `node` is gone. */
  ghost predicate Spliced(h: Heap, h': Heap, node: Node, temp: Node) {
    && node in h.cells && node != h.root && temp in h.cells && node != temp && node != h.nil
    && h'.root == h.root && h'.nil == h.nil && h'.cells.Keys == h.cells.Keys - {node}
    && var up := h.cells[node].parent;
      && up != null && up in h.cells && up != node && up != temp
      && (forall n :: n in h.cells && n != node ==>
        h'.cells[n] == if n == up then (if h.cells[up].left == node then h.cells[n].(left := temp) else h.cells[n].(right := temp))
                       else if n == temp then h.cells[n].(parent := up)
                       else h.cells[n])
  }

  lemma SpliceLinks(h: Heap, h': Heap, p: Spine, t: Shape)
    requires HalfEmpty(t) && Focus(h, p, t) && !p.Root? && Spliced(h, h', t.node, Top(OnlyChild(t), h.nil))
    ensures Focus(h', p, OnlyChild(t))
  {
    Hangs(h, p, t);
    var c := OnlyChild(t);
    BelowIsLess(c);
    assert t.node in Nodes(t) && Nodes(c) <= Nodes(t) && t.node !in Nodes(c);
    assert c.Fork? ==> c.node in Nodes(c);
    LinkedKept(h, h', c);
    assert p.node in SpineNodes(p);
    SpineRedirected(h, h', p, t.node, Top(c, h.nil));
  }

  /** The root itself is replaced by its only child. */
  ghost predicate Unrooted(h: Heap, h': Heap, node: Node, temp: Node) {
    && node in h.cells && node == h.root && temp in h.cells && node != temp && node != h.nil
    && h'.root == temp && h'.nil == h.nil && h'.cells.Keys == h.cells.Keys - {node}
    && forall n :: n in h.cells && n != node ==>
      h'.cells[n] == if n == temp then h.cells[n].(red := false) else h.cells[n]
  }

  lemma UnrootLinks(h: Heap, h': Heap, t: Shape)
    requires HalfEmpty(t) && Focus(h, Root, t) && Unrooted(h, h', t.node, Top(OnlyChild(t), h.nil))
    ensures Focus(h', Root, Blacken(OnlyChild(t)))
  {
    var c := OnlyChild(t);
    if c.Fork? {
      assert Linked(h, c) && Apart(c);
      BelowIsLess(c);
      assert t.node !in Nodes(c) && c.node in Nodes(c);
      assert c.left.Fork? ==> c.left.node in Below(c) && Same(h, h', c.left.node);
      assert c.right.Fork? ==> c.right.node in Below(c) && Same(h, h', c.right.node);
      BelowIsLess(c.left);
      BelowIsLess(c.right);
      LinkedKept(h, h', c.left);
      LinkedKept(h, h', c.right);
    }
  }

  // ---- a node with two children ----

  /** `q` leads up to the hole of `p` along left children only. */
  ghost predicate Leftwards(q: Spine, p: Spine) {
    q == p || (q.InLeft? && Leftwards(q.up, p))
  }

  /** `q` leads from a left-most node up to the hole right of `base`. */
  ghost predicate LeftMost(q: Spine, base: Spine) {
    base.InRight? && Leftwards(q, base)
  }

  /** The same spine with node `m` in the place, and the colour, of the node of `base`. */
  ghost function Promoted(q: Spine, base: Spine, m: Node, key: nat): Spine
    requires LeftMost(q, base)
  {
    if q == base then InRight(q.up, q.sib, m, key, q.red)
    else InLeft(Promoted(q.up, base, m, key), q.node, q.key, q.red, q.sib)
  }

  lemma {:induction false} PromotedSpine(q: Spine, base: Spine, m: Node, key: nat)
    requires LeftMost(q, base) && SpineApart(q) && m !in SpineNodes(q)
    ensures SpineApart(Promoted(q, base, m, key))
    ensures SpineNodes(Promoted(q, base, m, key)) == SpineNodes(q) - {base.node} + {m}
    ensures base.node in SpineNodes(q)
    ensures Before(q) == Before(base.up) + (Items(base.sib) + [Entry(base.node, base.key)])
    ensures Before(Promoted(q, base, m, key)) == Before(base.up) + (Items(base.sib) + [Entry(m, key)])
    ensures After(Promoted(q, base, m, key)) == After(q)
  {
    if q != base { PromotedSpine(q.up, base, m, key); }
  }

  lemma {:induction false} PromotedColours(q: Spine, base: Spine, m: Node, key: nat, b: nat, red: bool)
    requires LeftMost(q, base)
    ensures SpineBalanced(q, b) ==> SpineBalanced(Promoted(q, base, m, key), b)
    ensures SpineNoRedRed(q, red) ==> SpineNoRedRed(Promoted(q, base, m, key), red)
    ensures TopBlack(q) ==> TopBlack(Promoted(q, base, m, key))
  {
    if q != base { PromotedColours(q.up, base, m, key, if q.red then b else b + 1, q.red); }
  }

  /** The successor `s` is removed from its place and takes over that of the node it replaces. */
  lemma PromoteRemoved(q: Spine, base: Spine, s: Shape) returns (b: nat)
    requires LeftMost(q, base) && s.Fork? && s.left.Leaf? && RedBlack(Plug(q, s))
    ensures s.red ==> RedBlack(Plug(Promoted(q, base, s.node, s.key), s.right))
    ensures !s.red ==> DeleteDue(Promoted(q, base, s.node, s.key), s.right, b)
  {
    var b0 := UnplugRedBlack(q, s);
    var q' := Promoted(q, base, s.node, s.key);
    if s.red {
      b := b0;
      PromotedColours(q, base, s.node, s.key, b, false);
      PlugRedBlack(q', s.right, b);
    } else {
      b := b0 - 1;
      PromotedColours(q, base, s.node, s.key, b + 1, false);
    }
  }

  lemma PromoteOrder(q: Spine, base: Spine, s: Shape)
    requires LeftMost(q, base) && s.Fork? && s.left.Leaf? && Apart(Plug(q, s))
    ensures var q' := Promoted(q, base, s.node, s.key);
            Items(Plug(q', s.right)) == Removed(Items(Plug(q, s)), base.node)
            && Nodes(Plug(q', s.right)) == Nodes(Plug(q, s)) - {base.node}
  {
    var q' := Promoted(q, base, s.node, s.key);
    PlugApart(q, s);
    assert s.node in Nodes(s) && Nodes(s) == {s.node} + Nodes(s.right);
    PromotedSpine(q, base, s.node, s.key);
    PlugNodes(q, s);
    PlugNodes(q', s.right);
    PlugItems(q, s);
    PlugItems(q', s.right);
    BaseApart(q, base);
    PromoteSplit(Before(base.up), base.sib, Entry(base.node, base.key), Entry(s.node, s.key), Items(s.right), After(q));
    assert Items(s) == [Entry(s.node, s.key)] + Items(s.right);
  }

  lemma {:induction false} BaseApart(q: Spine, base: Spine)
    requires LeftMost(q, base) && SpineApart(q)
    ensures SpineApart(base) && base.node !in Nodes(base.sib) && base.node !in SpineNodes(base.up)
    ensures SpineNodes(base) <= SpineNodes(q)
    ensures forall e :: e in Before(base.up) ==> e.node != base.node
  {
    BeforeWithin(base.up);
    if q != base { BaseApart(q.up, base); }
  }

  lemma PromoteSplit(a: seq<Entry>, sib: Shape, n: Entry, m: Entry, r: seq<Entry>, z: seq<Entry>)
    requires forall e :: e in a ==> e.node != n.node
    requires n.node !in Nodes(sib)
    ensures Removed((a + (Items(sib) + [n])) + ([m] + r) + z, n.node) == (a + (Items(sib) + [m])) + r + z
  {
    ItemsWithin(sib);
    var front, back := a + Items(sib), ([m] + r) + z;
    assert (a + (Items(sib) + [n])) + ([m] + r) + z == front + [n] + back;
    RemovedAt(front, n, back);
    assert front + back == (a + (Items(sib) + [m])) + r + z;
  }
}
