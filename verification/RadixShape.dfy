/** The abstract side of the radix tree: tries, spines (a trie with one hole, seen from the hole) and prefixes. */
module RadixShape {

  /** NGX_RADIX_NO_VALUE */
  const NO_VALUE: nat := 0xffff_ffff_ffff_ffff

  /** ngx_radix_node_s */
  class Node {
    var right: Node?
    var left: Node?
    var parent: Node?
    var value: nat

    constructor ()
      ensures right == null && left == null && parent == null
    {
      right, left, parent, value := null, null, null, 0;
    }
  }

  datatype Trie = Nil | Branch(left: Trie, node: Node, value: nat, right: Trie)

  /** A path from a hole up to the root; InLeft(up, ..) says that the hole is the left child of `node`. */
  datatype Spine =
    | Root
    | InLeft(up: Spine, node: Node, value: nat, sib: Trie)
    | InRight(up: Spine, sib: Trie, node: Node, value: nat)

  ghost function Nodes(t: Trie): set<Node> {
    match t
    case Nil => {}
    case Branch(l, n, _, r) => Nodes(l) + {n} + Nodes(r)
  }

  ghost function SpineNodes(p: Spine): set<Node> {
    if p.Root? then {} else {p.node} + Nodes(p.sib) + SpineNodes(p.up)
  }

  ghost function Plug(p: Spine, t: Trie): Trie {
    match p
    case Root => t
    case InLeft(up, n, v, sib) => Plug(up, Branch(t, n, v, sib))
    case InRight(up, sib, n, v) => Plug(up, Branch(sib, n, v, t))
  }

  ghost function Depth(p: Spine): nat {
    if p.Root? then 0 else 1 + Depth(p.up)
  }

  // ---- no node occurs twice ----

  ghost predicate Apart(t: Trie) {
    t.Branch? ==>
      && t.node !in Nodes(t.left) && t.node !in Nodes(t.right) && Nodes(t.left) !! Nodes(t.right)
      && Apart(t.left) && Apart(t.right)
  }

  ghost predicate SpineApart(p: Spine) {
    !p.Root? ==>
      && p.node !in Nodes(p.sib) && p.node !in SpineNodes(p.up) && Nodes(p.sib) !! SpineNodes(p.up)
      && Apart(p.sib) && SpineApart(p.up)
  }

  lemma {:induction false} PlugNodes(p: Spine, t: Trie)
    ensures Nodes(Plug(p, t)) == SpineNodes(p) + Nodes(t)
  {
    match p
    case Root =>
    case InLeft(up, n, v, sib) => PlugNodes(up, Branch(t, n, v, sib));
    case InRight(up, sib, n, v) => PlugNodes(up, Branch(sib, n, v, t));
  }

  // ---- prefixes: the bits on the way down, true for right ----

  /** The value stored for a prefix, or NO_VALUE. */
  ghost function Lookup(t: Trie, path: seq<bool>): nat
    decreases t
  {
    if t.Nil? then NO_VALUE
    else if path == [] then t.value
    else Lookup(if path[0] then t.right else t.left, path[1..])
  }

  /** The bits on the way to the hole. */
  ghost function PathOf(p: Spine): seq<bool> {
    match p
    case Root => []
    case InLeft(up, _, _, _) => PathOf(up) + [false]
    case InRight(up, _, _, _) => PathOf(up) + [true]
  }

  lemma {:induction false} PathDepth(p: Spine)
    ensures |PathOf(p)| == Depth(p)
  {
    if !p.Root? { PathDepth(p.up); }
  }

  /** Below the hole the lookup continues in what fills it. */
  lemma {:induction false} PlugLookup(p: Spine, t: Trie, rest: seq<bool>)
    ensures Lookup(Plug(p, t), PathOf(p) + rest) == Lookup(t, rest)
  {
    match p
    case Root => assert PathOf(p) + rest == rest;
    case InLeft(up, n, v, sib) =>
      assert PathOf(p) + rest == PathOf(up) + ([false] + rest);
      PlugLookup(up, Branch(t, n, v, sib), [false] + rest);
      assert ([false] + rest)[1..] == rest;
    case InRight(up, sib, n, v) =>
      assert PathOf(p) + rest == PathOf(up) + ([true] + rest);
      PlugLookup(up, Branch(sib, n, v, t), [true] + rest);
      assert ([true] + rest)[1..] == rest;
  }

  lemma DropPrefix(a: seq<bool>, path: seq<bool>)
    requires a <= path
    ensures path == a + path[|a|..]
  {
  }

  /** Elsewhere it does not matter what fills the hole. */
  lemma {:induction false} PlugElsewhere(p: Spine, s: Trie, t: Trie, path: seq<bool>)
    requires !(PathOf(p) <= path)
    ensures Lookup(Plug(p, s), path) == Lookup(Plug(p, t), path)
    decreases p, 0
  {
    match p
    case Root =>
    case InLeft(up, n, v, sib) =>
      ElsewhereUp(p, Branch(s, n, v, sib), Branch(t, n, v, sib), path);
    case InRight(up, sib, n, v) =>
      ElsewhereUp(p, Branch(sib, n, v, s), Branch(sib, n, v, t), path);
  }

  lemma OneLonger(a: seq<bool>, path: seq<bool>)
    requires a <= path && |a| < |path|
    ensures a + [path[|a|]] <= path
  {
    assert a + [path[|a|]] == path[..|a| + 1];
  }

  lemma Through(p: Spine, path: seq<bool>)
    requires !p.Root? && PathOf(p.up) <= path && |PathOf(p.up)| < |path| && path[|PathOf(p.up)|] == p.InRight?
    ensures PathOf(p) <= path
  {
    OneLonger(PathOf(p.up), path);
  }

  lemma ElsewhereUp(p: Spine, s: Trie, t: Trie, path: seq<bool>)
    requires !p.Root? && !(PathOf(p) <= path) && s.Branch? && t.Branch? && s.value == t.value
    requires if p.InLeft? then s.right == t.right else s.left == t.left
    ensures Lookup(Plug(p.up, s), path) == Lookup(Plug(p.up, t), path)
    decreases p.up, 1
  {
    if PathOf(p.up) <= path {
      var rest := path[|PathOf(p.up)|..];
      DropPrefix(PathOf(p.up), path);
      PlugLookup(p.up, s, rest);
      PlugLookup(p.up, t, rest);
      if rest != [] && rest[0] == p.InRight? { Through(p, path); }
    } else {
      PlugElsewhere(p.up, s, t, path);
    }
  }

  /** Two fillings with the same values make whole tries with the same values. */
  lemma SameLookup(p: Spine, s: Trie, t: Trie, path: seq<bool>)
    requires forall rest :: Lookup(s, rest) == Lookup(t, rest)
    ensures Lookup(Plug(p, s), path) == Lookup(Plug(p, t), path)
  {
    if PathOf(p) <= path {
      DropPrefix(PathOf(p), path);
      PlugLookup(p, s, path[|PathOf(p)|..]);
      PlugLookup(p, t, path[|PathOf(p)|..]);
    } else {
      PlugElsewhere(p, s, t, path);
    }
  }

  /** The values stored in t, with `v` for the prefix `path`. */
  ghost predicate Updated(t: Trie, t': Trie, path: seq<bool>, v: nat) {
    forall q :: Lookup(t', q) == if q == path then v else Lookup(t, q)
  }

  /** Replacing the value in the hole's top replaces the value of the hole's path. */
  lemma UpdateAt(p: Spine, t: Trie, v: nat)
    requires t.Branch?
    ensures Updated(Plug(p, t), Plug(p, t.(value := v)), PathOf(p), v)
  {
    var t' := t.(value := v);
    forall q
      ensures Lookup(Plug(p, t'), q) == if q == PathOf(p) then v else Lookup(Plug(p, t), q)
    {
      if PathOf(p) <= q {
        var rest := q[|PathOf(p)|..];
        DropPrefix(PathOf(p), q);
        PlugLookup(p, t, rest);
        PlugLookup(p, t', rest);
        if q == PathOf(p) { assert rest == []; }
      } else {
        PlugElsewhere(p, t, t', q);
      }
    }
  }

  // ---- pruning ----

  ghost predicate Childless(t: Trie) {
    t.Branch? && t.left.Nil? && t.right.Nil?
  }

  /** Every leaf carries a value. */
  ghost predicate Pruned(t: Trie) {
    t.Branch? ==> (Childless(t) ==> t.value != NO_VALUE) && Pruned(t.left) && Pruned(t.right)
  }

  /** Every leaf but the root carries a value. */
  ghost predicate PrunedTree(t: Trie) {
    t.Branch? && Pruned(t.left) && Pruned(t.right)
  }

  ghost predicate SpinePruned(p: Spine) {
    !p.Root? ==> Pruned(p.sib) && SpinePruned(p.up)
  }

  lemma {:induction false} PlugPruned(p: Spine, t: Trie)
    requires SpinePruned(p) && PrunedTree(t) && (p.Root? || Pruned(t))
    ensures PrunedTree(Plug(p, t))
  {
    match p
    case Root =>
    case InLeft(up, n, v, sib) => PlugPruned(up, Branch(t, n, v, sib));
    case InRight(up, sib, n, v) => PlugPruned(up, Branch(sib, n, v, t));
  }

  lemma {:induction false} UnplugPruned(p: Spine, t: Trie)
    requires PrunedTree(Plug(p, t))
    ensures SpinePruned(p) && (if p.Root? then PrunedTree(t) else Pruned(t))
  {
    match p
    case Root =>
    case InLeft(up, n, v, sib) => UnplugPruned(up, Branch(t, n, v, sib));
    case InRight(up, sib, n, v) => UnplugPruned(up, Branch(sib, n, v, t));
  }

  /** A trie without values. */
  lemma {:induction false} NoValues(t: Trie, path: seq<bool>)
    requires Childless(t) && t.value == NO_VALUE
    ensures Lookup(t, path) == NO_VALUE
  {
  }

  // ---- depth ----

  /** No path through t has more than d nodes. */
  ghost predicate Shallow(t: Trie, d: nat) {
    t.Branch? ==> d > 0 && Shallow(t.left, d - 1) && Shallow(t.right, d - 1)
  }

  ghost predicate SpineShallow(p: Spine, d: nat) {
    !p.Root? ==> Shallow(p.sib, d) && SpineShallow(p.up, d + 1)
  }

  lemma {:induction false} PlugShallow(p: Spine, t: Trie, d: nat)
    ensures Shallow(Plug(p, t), d + Depth(p)) <== Shallow(t, d) && SpineShallow(p, d)
  {
    match p
    case Root =>
    case InLeft(up, n, v, sib) => PlugShallow(up, Branch(t, n, v, sib), d + 1);
    case InRight(up, sib, n, v) => PlugShallow(up, Branch(sib, n, v, t), d + 1);
  }

  lemma {:induction false} UnplugShallow(p: Spine, t: Trie, d: nat)
    requires Shallow(Plug(p, t), d + Depth(p)) && t.Branch?
    ensures Shallow(t, d) && SpineShallow(p, d)
  {
    match p
    case Root =>
    case InLeft(up, n, v, sib) => UnplugShallow(up, Branch(t, n, v, sib), d + 1);
    case InRight(up, sib, n, v) => UnplugShallow(up, Branch(sib, n, v, t), d + 1);
  }

  lemma {:induction false} DepthBound(p: Spine, t: Trie, d: nat)
    requires Shallow(Plug(p, t), d) && t.Branch?
    ensures Depth(p) < d
    decreases p, 0
  {
    match p
    case Root =>
    case InLeft(up, n, v, sib) => DepthUp(up, Branch(t, n, v, sib), d);
    case InRight(up, sib, n, v) => DepthUp(up, Branch(sib, n, v, t), d);
  }

  lemma {:induction false} DepthUp(p: Spine, t: Trie, d: nat)
    requires Shallow(Plug(p, t), d) && t.Branch? && (t.left.Branch? || t.right.Branch?)
    ensures Depth(p) + 1 < d
    decreases p, 1
  {
    DepthBound(p, t, d);
    UnplugShallow(p, t, d - Depth(p));
  }

  // ---- keys ----

  const TOP_BIT: bv32 := 0x8000_0000

  /** The bits of a key from `bit` down. */
  function Bits(key: bv32, bit: bv32): seq<bool>
    decreases bit
  {
    if bit == 0 then [] else [key & bit != 0] + Bits(key, bit >> 1)
  }

  /** The prefix that a key and a mask stand for, from `bit` down: the walk stops at the first clear bit of the mask. */
  function Prefix(key: bv32, mask: bv32, bit: bv32): seq<bool>
    decreases bit
  {
    if bit & mask == 0 then [] else [key & bit != 0] + Prefix(key, mask, bit >> 1)
  }

  lemma {:induction false} PrefixOfBits(key: bv32, mask: bv32, bit: bv32)
    ensures Prefix(key, mask, bit) <= Bits(key, bit)
    decreases bit
  {
    if bit & mask != 0 { PrefixOfBits(key, mask, bit >> 1); }
  }

  function Rank(bit: bv32): nat
    decreases bit
  {
    if bit == 0 then 0 else 1 + Rank(bit >> 1)
  }

  lemma {:induction false} BitsLength(key: bv32, bit: bv32)
    ensures |Bits(key, bit)| == Rank(bit)
    decreases bit
  {
    if bit != 0 { BitsLength(key, bit >> 1); }
  }

  lemma TwoDown(bit: bv32)
    requires bit >> 1 != 0
    ensures Rank(bit) == 2 + Rank(bit >> 2)
  {
    assert bit >> 1 >> 1 == bit >> 2;
  }

  lemma LowRank()
    ensures Rank(0x8000) == 16
  {
    TwoDown(0x8000);
    TwoDown(0x2000);
    TwoDown(0x800);
    TwoDown(0x200);
    TwoDown(0x80);
    TwoDown(0x20);
    TwoDown(0x8);
    TwoDown(0x2);
  }

  lemma TopRank()
    ensures Rank(TOP_BIT) == 32
  {
    LowRank();
    TwoDown(0x80000000);
    TwoDown(0x20000000);
    TwoDown(0x8000000);
    TwoDown(0x2000000);
    TwoDown(0x800000);
    TwoDown(0x200000);
    TwoDown(0x80000);
    TwoDown(0x20000);
  }

  // ---- the longest stored prefix ----

  /** The value of the longest stored prefix among the first k and shorter bits: a scan from the longest down. */
  ghost function Longest(t: Trie, bits: seq<bool>, k: nat): nat
    requires k <= |bits|
  {
    if Lookup(t, bits[..k]) != NO_VALUE then Lookup(t, bits[..k])
    else if k == 0 then NO_VALUE
    else Longest(t, bits, k - 1)
  }

  /** It is the value stored for the first j bits, and for no longer prefix is there one. */
  lemma {:induction false} LongestMeans(t: Trie, bits: seq<bool>, k: nat) returns (j: nat)
    requires k <= |bits|
    ensures j <= k && Longest(t, bits, k) == Lookup(t, bits[..j])
    ensures forall i :: j < i <= k ==> Lookup(t, bits[..i]) == NO_VALUE
    ensures Longest(t, bits, k) == NO_VALUE ==> j == 0
    decreases k
  {
    if Lookup(t, bits[..k]) != NO_VALUE || k == 0 {
      j := k;
    } else {
      j := LongestMeans(t, bits, k - 1);
    }
  }

  /** What was found among the prefixes of fewer than k bits. */
  ghost function Sofar(t: Trie, bits: seq<bool>, k: nat): nat
    requires k <= |bits| + 1
  {
    if k == 0 then NO_VALUE else Longest(t, bits, k - 1)
  }

  /** Where the trie ends, no longer prefix is stored. */
  lemma {:induction false} NothingBelow(p: Spine, t: Trie, bits: seq<bool>, k: nat)
    requires t.Nil? && PathOf(p) <= bits && |PathOf(p)| <= k <= |bits|
    ensures Longest(Plug(p, t), bits, k) == Sofar(Plug(p, t), bits, |PathOf(p)|)
    decreases k
  {
    DropPrefix(PathOf(p), bits[..k]);
    PlugLookup(p, t, bits[..k][|PathOf(p)|..]);
    if k > |PathOf(p)| { NothingBelow(p, t, bits, k - 1); }
  }
}
