/**
 The abstract side of the red-black tree: shapes (the tree a root pointer stands for), spines (a shape with one
 hole, seen from the hole upwards) and the balance and order laws that do not mention the heap.
 */
module RbShape {

  /** ngx_rbtree_node_s. The sentinel is one more object of this class. */
  class Node {
    var key: nat
    var left: Node?
    var right: Node?
    var parent: Node?
    var red: bool

    constructor (key: nat)
      ensures this.key == key
    {
      this.key := key;
      left, right, parent, red := null, null, null, false;
    }
  }

  /** One element of the in-order sequence: the node and the key it is filed under. */
  datatype Entry = Entry(node: Node, key: nat)

  datatype Shape = Leaf | Fork(left: Shape, node: Node, key: nat, red: bool, right: Shape)

  /** A path from a hole up to the root; InLeft(up, ..) says that the hole is the left child of `node`. */
  datatype Spine =
    | Root
    | InLeft(up: Spine, node: Node, key: nat, red: bool, sib: Shape)
    | InRight(up: Spine, sib: Shape, node: Node, key: nat, red: bool)

  ghost function Nodes(t: Shape): set<Node> {
    match t
    case Leaf => {}
    case Fork(l, n, _, _, r) => Nodes(l) + {n} + Nodes(r)
  }

  ghost function SpineNodes(p: Spine): set<Node> {
    if p.Root? then {} else {p.node} + Nodes(p.sib) + SpineNodes(p.up)
  }

  ghost function Items(t: Shape): seq<Entry> {
    match t
    case Leaf => []
    case Fork(l, n, k, _, r) => Items(l) + [Entry(n, k)] + Items(r)
  }

  /** The entries to the left, and to the right, of everything plugged into the hole. */
  ghost function Before(p: Spine): seq<Entry> {
    match p
    case Root => []
    case InLeft(up, _, _, _, _) => Before(up)
    case InRight(up, sib, n, k, _) => Before(up) + (Items(sib) + [Entry(n, k)])
  }

  ghost function After(p: Spine): seq<Entry> {
    match p
    case Root => []
    case InLeft(up, n, k, _, sib) => ([Entry(n, k)] + Items(sib)) + After(up)
    case InRight(up, _, _, _, _) => After(up)
  }

  ghost function Plug(p: Spine, t: Shape): Shape {
    match p
    case Root => t
    case InLeft(up, n, k, c, sib) => Plug(up, Fork(t, n, k, c, sib))
    case InRight(up, sib, n, k, c) => Plug(up, Fork(sib, n, k, c, t))
  }

  ghost function Depth(p: Spine): nat {
    if p.Root? then 0 else 1 + Depth(p.up)
  }

  ghost function Size(t: Shape): nat {
    if t.Leaf? then 0 else Size(t.left) + 1 + Size(t.right)
  }

  ghost function Height(t: Shape): nat {
    if t.Leaf? then 0
    else 1 + (if Height(t.left) <= Height(t.right) then Height(t.right) else Height(t.left))
  }

  // ---- no node occurs twice ----

  ghost predicate Apart(t: Shape) {
    t.Fork? ==>
      && t.node !in Nodes(t.left) && t.node !in Nodes(t.right) && Nodes(t.left) !! Nodes(t.right)
      && Apart(t.left) && Apart(t.right)
  }

  ghost predicate SpineApart(p: Spine) {
    !p.Root? ==>
      && p.node !in Nodes(p.sib) && p.node !in SpineNodes(p.up) && Nodes(p.sib) !! SpineNodes(p.up)
      && Apart(p.sib) && SpineApart(p.up)
  }

  // ---- colours and black heights ----

  ghost predicate Red(t: Shape) { t.Fork? && t.red }

  ghost function Blacken(t: Shape): Shape {
    if t.Leaf? then t else t.(red := false)
  }

  /** Every path from the top of `t` down to a leaf meets `h` black nodes. */
  ghost predicate Balanced(t: Shape, h: nat) {
    match t
    case Leaf => h == 0
    case Fork(l, _, _, c, r) => if c then Balanced(l, h) && Balanced(r, h)
                                else h > 0 && Balanced(l, h - 1) && Balanced(r, h - 1)
  }

  ghost predicate NoRedRed(t: Shape) {
    t.Fork? ==> (t.red ==> !Red(t.left) && !Red(t.right)) && NoRedRed(t.left) && NoRedRed(t.right)
  }

  /** Plugging a shape of black height `h` into the hole makes a balanced tree. */
  ghost predicate SpineBalanced(p: Spine, h: nat) {
    !p.Root? ==> Balanced(p.sib, h) && SpineBalanced(p.up, if p.red then h else h + 1)
  }

  /** No red node has a red child outside the hole, and none gets one if the hole's colour is `red`. */
  ghost predicate SpineNoRedRed(p: Spine, red: bool) {
    !p.Root? ==> (p.red ==> !red && !Red(p.sib)) && NoRedRed(p.sib) && SpineNoRedRed(p.up, p.red)
  }

  /** The node just below the root hole, if there is one, is black. */
  ghost predicate TopBlack(p: Spine) {
    !p.Root? ==> (if p.up.Root? then !p.red else TopBlack(p.up))
  }

  /** The red-black laws of a whole tree. */
  ghost predicate RedBlack(t: Shape) {
    !Red(t) && NoRedRed(t) && exists h: nat :: Balanced(t, h)
  }

  // ---- plugging ----

  lemma {:induction false} PlugItems(p: Spine, t: Shape)
    ensures Items(Plug(p, t)) == Before(p) + Items(t) + After(p)
  {
    match p
    case Root =>
    case InLeft(up, n, k, c, sib) =>
      PlugItems(up, Fork(t, n, k, c, sib));
      Regroup(Before(up), Items(t), [Entry(n, k)], Items(sib), After(up));
    case InRight(up, sib, n, k, c) =>
      PlugItems(up, Fork(sib, n, k, c, t));
      Regroup(Before(up), Items(sib), [Entry(n, k)], Items(t), After(up));
  }

  lemma Regroup(a: seq<Entry>, b: seq<Entry>, c: seq<Entry>, d: seq<Entry>, e: seq<Entry>)
    ensures a + (b + c + d) + e == a + b + ((c + d) + e)
    ensures a + (b + c + d) + e == (a + (b + c)) + d + e
  {
  }

  lemma {:induction false} PlugNodes(p: Spine, t: Shape)
    ensures Nodes(Plug(p, t)) == SpineNodes(p) + Nodes(t)
  {
    match p
    case Root =>
    case InLeft(up, n, k, c, sib) => PlugNodes(up, Fork(t, n, k, c, sib));
    case InRight(up, sib, n, k, c) => PlugNodes(up, Fork(sib, n, k, c, t));
  }

  /** Two fillings with the same entries make whole trees with the same entries. */
  lemma SameContents(p: Spine, s: Shape, t: Shape)
    requires Items(s) == Items(t) && Nodes(s) == Nodes(t)
    ensures Items(Plug(p, s)) == Items(Plug(p, t)) && Nodes(Plug(p, s)) == Nodes(Plug(p, t))
  {
    PlugItems(p, s);
    PlugItems(p, t);
    PlugNodes(p, s);
    PlugNodes(p, t);
  }

  lemma {:induction false} PlugApart(p: Spine, t: Shape)
    ensures Apart(Plug(p, t)) <==> SpineApart(p) && Apart(t) && Nodes(t) !! SpineNodes(p)
  {
    match p
    case Root =>
    case InLeft(up, n, k, c, sib) => PlugApart(up, Fork(t, n, k, c, sib));
    case InRight(up, sib, n, k, c) => PlugApart(up, Fork(sib, n, k, c, t));
  }

  lemma {:induction false} PlugBalanced(p: Spine, t: Shape, h: nat) returns (h': nat)
    requires Balanced(t, h) && SpineBalanced(p, h)
    ensures Balanced(Plug(p, t), h')
  {
    match p
    case Root => h' := h;
    case InLeft(up, n, k, c, sib) => h' := PlugBalanced(up, Fork(t, n, k, c, sib), if c then h else h + 1);
    case InRight(up, sib, n, k, c) => h' := PlugBalanced(up, Fork(sib, n, k, c, t), if c then h else h + 1);
  }

  lemma {:induction false} PlugNoRedRed(p: Spine, t: Shape)
    ensures NoRedRed(Plug(p, t)) <==> NoRedRed(t) && SpineNoRedRed(p, Red(t))
  {
    match p
    case Root =>
    case InLeft(up, n, k, c, sib) => PlugNoRedRed(up, Fork(t, n, k, c, sib));
    case InRight(up, sib, n, k, c) => PlugNoRedRed(up, Fork(sib, n, k, c, t));
  }

  lemma {:induction false} PlugTop(p: Spine, t: Shape)
    requires !p.Root?
    ensures Plug(p, t).Fork? && (Red(Plug(p, t)) <==> !TopBlack(p))
  {
    match p
    case InLeft(up, n, k, c, sib) => if !up.Root? { PlugTop(up, Fork(t, n, k, c, sib)); }
    case InRight(up, sib, n, k, c) => if !up.Root? { PlugTop(up, Fork(sib, n, k, c, t)); }
  }

  lemma {:induction false} UnplugBalanced(p: Spine, t: Shape, h: nat) returns (ht: nat)
    requires Balanced(Plug(p, t), h)
    ensures Balanced(t, ht) && SpineBalanced(p, ht)
  {
    match p
    case Root => ht := h;
    case InLeft(up, n, k, c, sib) =>
      ht := UnplugBalanced(up, Fork(t, n, k, c, sib), h);
      if !c { ht := ht - 1; }
    case InRight(up, sib, n, k, c) =>
      ht := UnplugBalanced(up, Fork(sib, n, k, c, t), h);
      if !c { ht := ht - 1; }
  }

  /** A tree that obeys the laws, split at any hole. */
  lemma UnplugRedBlack(p: Spine, t: Shape) returns (h: nat)
    requires RedBlack(Plug(p, t))
    ensures Balanced(t, h) && SpineBalanced(p, h)
    ensures NoRedRed(t) && SpineNoRedRed(p, Red(t)) && TopBlack(p) && (p.Root? ==> !Red(t))
  {
    var h0: nat :| Balanced(Plug(p, t), h0);
    h := UnplugBalanced(p, t, h0);
    PlugNoRedRed(p, t);
    if !p.Root? { PlugTop(p, t); }
  }

  /** The converse; a hole at the root is blackened, which is what both fix-up loops end with. */
  lemma PlugRedBlack(p: Spine, t: Shape, h: nat)
    requires Balanced(t, h) && SpineBalanced(p, h)
    requires NoRedRed(t) && SpineNoRedRed(p, Red(t)) && TopBlack(p) && (p.Root? ==> !Red(t))
    ensures RedBlack(Plug(p, t))
  {
    var _ := PlugBalanced(p, t, h);
    PlugNoRedRed(p, t);
    if !p.Root? { PlugTop(p, t); }
  }

  /** Any node of a shape is the top of what fills some hole. */
  lemma {:induction false} Locate(t: Shape, n: Node, up: Spine) returns (p: Spine, s: Shape)
    requires n in Nodes(t)
    ensures s.Fork? && s.node == n && Plug(p, s) == Plug(up, t)
    decreases t
  {
    match t
    case Fork(l, m, k, c, r) =>
      if n == m {
        p, s := up, t;
      } else if n in Nodes(l) {
        p, s := Locate(l, n, InLeft(up, m, k, c, r));
      } else {
        p, s := Locate(r, n, InRight(up, l, m, k, c));
      }
  }

  // ---- height ----

  ghost function Pow2(n: nat): nat {
    if n == 0 then 1 else 2 * Pow2(n - 1)
  }

  lemma {:induction false} Pow2Monotone(m: nat, n: nat)
    requires m <= n
    ensures Pow2(m) <= Pow2(n)
  {
    if m < n { Pow2Monotone(m, n - 1); }
  }

  lemma {:induction false} Pow2Sum(m: nat, n: nat)
    ensures Pow2(m + n) == Pow2(m) * Pow2(n)
  {
    if m > 0 { Pow2Sum(m - 1, n); }
  }

  lemma {:induction false} SizeFromBlackHeight(t: Shape, h: nat)
    requires Balanced(t, h)
    ensures Size(t) + 1 >= Pow2(h)
  {
    match t
    case Leaf =>
    case Fork(l, _, _, c, r) =>
      SizeFromBlackHeight(l, if c then h else h - 1);
      SizeFromBlackHeight(r, if c then h else h - 1);
  }

  lemma {:induction false} HeightFromBlackHeight(t: Shape, h: nat)
    requires Balanced(t, h) && NoRedRed(t)
    ensures Height(t) <= 2 * h + (if Red(t) then 1 else 0)
  {
    match t
    case Leaf =>
    case Fork(l, _, _, c, r) =>
      HeightFromBlackHeight(l, if c then h else h - 1);
      HeightFromBlackHeight(r, if c then h else h - 1);
  }

  lemma {:induction false} SizeIsLength(t: Shape)
    ensures |Items(t)| == Size(t)
  {
    if t.Fork? { SizeIsLength(t.left); SizeIsLength(t.right); }
  }

  /** height <= 2 * log2(size + 1), written without the logarithm. */
  lemma HeightBound(t: Shape)
    requires RedBlack(t)
    ensures Pow2(Height(t)) <= (|Items(t)| + 1) * (|Items(t)| + 1)
  {
    SizeIsLength(t);
    var h: nat :| Balanced(t, h);
    SizeFromBlackHeight(t, h);
    HeightFromBlackHeight(t, h);
    Pow2Monotone(Height(t), h + h);
    Pow2Sum(h, h);
    assert Pow2(h) * Pow2(h) <= (Size(t) + 1) * (Size(t) + 1) by {
      MulMonotone(Pow2(h), Size(t) + 1);
    }
  }

  lemma MulMonotone(a: nat, b: nat)
    requires a <= b
    ensures a * a <= b * b
  {
    assert a * a <= a * b <= b * b;
  }

  // ---- order ----

  ghost predicate Sorted(s: seq<Entry>) {
    forall i, j :: 0 <= i < j < |s| ==> s[i].key <= s[j].key
  }

  /** Where a new key belongs in a sorted sequence: after every key that is not greater. */
  ghost function UpperBound(s: seq<Entry>, key: nat): (k: nat)
    ensures k <= |s|
    ensures k < |s| ==> key < s[k].key
    ensures forall i :: 0 <= i < k ==> s[i].key <= key
  {
    if s == [] || key < s[0].key then 0 else 1 + UpperBound(s[1..], key)
  }

  ghost function InsertAfterEquals(s: seq<Entry>, e: Entry): seq<Entry> {
    var k := UpperBound(s, e.key);
    s[..k] + [e] + s[k..]
  }

  lemma InsertKeepsSorted(s: seq<Entry>, e: Entry)
    requires Sorted(s)
    ensures Sorted(InsertAfterEquals(s, e))
  {
    var k := UpperBound(s, e.key);
    forall i | k <= i < |s|
      ensures e.key <= s[i].key
    {
      assert s[k].key <= s[i].key;
    }
  }

  lemma SortedAround(a: seq<Entry>, e: Entry, b: seq<Entry>)
    requires Sorted(a + [e] + b)
    ensures forall x :: x in a ==> x.key <= e.key
    ensures forall x :: x in b ==> e.key <= x.key
  {
    var s := a + [e] + b;
    assert s[|a|] == e;
    forall x | x in a
      ensures x.key <= e.key
    {
      var i :| 0 <= i < |a| && a[i] == x;
      assert s[i] == x;
    }
    forall x | x in b
      ensures e.key <= x.key
    {
      var i :| 0 <= i < |b| && b[i] == x;
      assert s[|a| + 1 + i] == x;
    }
  }

  /** Any split of a sorted sequence around a key is the upper-bound split. */
  lemma UpperBoundUnique(a: seq<Entry>, b: seq<Entry>, e: Entry)
    requires forall x :: x in a ==> x.key <= e.key
    requires forall x :: x in b ==> e.key < x.key
    ensures InsertAfterEquals(a + b, e) == a + [e] + b
  {
    var s := a + b;
    var k := UpperBound(s, e.key);
    assert forall i :: 0 <= i < |a| ==> s[i] == a[i] && s[i].key <= e.key;
    assert forall i :: |a| <= i < |s| ==> s[i] == b[i - |a|] && e.key < s[i].key;
    assert |b| > 0 ==> s[|a|] == b[0];
    assert k == |a|;
    assert s[..k] == a && s[k..] == b;
  }
}
