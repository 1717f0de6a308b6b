/** The 32-bit radix tree of ngx_radix_tree.c, with its list of free nodes. */
module RadixTree {
  import opened RadixShape
  import opened RadixLinks

  /** NGX_OK, NGX_BUSY and NGX_ERROR */
  datatype Status = Ok | Busy | Error

  /** The snapshot spells out Plug(p, t), and the other nodes are on the free list. */
  ghost predicate Stands(h: Heap, first: Node?, idle: seq<Node>, p: Spine, t: Trie) {
    Focus(h, p, t) && Pooled(h, first, idle) && Parted(h.cells.Keys, Nodes(Plug(p, t)), idle)
  }

  /** No path gets longer than the 32 bits of a key. */
  ghost predicate Room(p: Spine, t: Trie) {
    Depth(p) <= 32 && Shallow(t, 33 - Depth(p)) && SpineShallow(p, 33 - Depth(p))
  }

  lemma Moved(h: Heap, first: Node?, idle: seq<Node>, p: Spine, t: Trie, right: bool)
    requires Stands(h, first, idle, p, t) && t.Branch?
    ensures t.node in h.cells
    ensures Stands(h, first, idle, Hole(p, t, right), Child(t, right))
    ensures Plug(Hole(p, t, right), Child(t, right)) == Plug(p, t) && PathOf(Hole(p, t, right)) == PathOf(p) + [right]
    ensures Top(Child(t, right)) == if right then h.cells[t.node].right else h.cells[t.node].left
    ensures Child(t, right).Branch? ==> Child(t, right).node in h.cells
  {
    GoDown(h, p, t, right);
  }

  lemma TopOwned(h: Heap, first: Node?, idle: seq<Node>, p: Spine, t: Trie)
    requires Stands(h, first, idle, p, t)
    ensures t.Branch? ==> t.node in h.cells && h.cells[t.node] == Cell(Top(t.right), Top(t.left), UpNode(p), t.value)
    ensures t.Branch? ==> t.node !in Members(idle)
    ensures !p.Root? ==> p.node in h.cells && p.node !in Members(idle) && (t.Branch? ==> p.node != t.node)
    ensures !p.Root? && t.Branch? ==> (h.cells[p.node].right == t.node <==> p.InRight?)
  {
    PlugNodes(p, t);
    assert t.Branch? ==> t.node in Nodes(t);
    assert !p.Root? ==> p.node in SpineNodes(p);
    assert !p.Root? && p.sib.Branch? ==> p.sib.node in Nodes(p.sib) && p.sib.node in SpineNodes(p);
  }

  // ---- growing ----

  /** What a new node without value changes: nothing that can be looked up. */
  lemma GrowthInvisible(p: Spine, t: Trie, right: bool, next: Node)
    requires t.Branch? && Child(t, right).Nil?
    ensures var p', t' := Hole(p, t, right), Branch(Nil, next, NO_VALUE, Nil);
      && (forall q :: Lookup(Plug(p', t'), q) == Lookup(Plug(p, t), q))
      && Nodes(Plug(p', t')) == Nodes(Plug(p, t)) + {next}
  {
    var p', t' := Hole(p, t, right), Branch(Nil, next, NO_VALUE, Nil);
    assert Plug(p', Nil) == Plug(p, t);
    forall rest ensures Lookup(t', rest) == Lookup(Nil, rest) { NoValues(t', rest); }
    forall q
      ensures Lookup(Plug(p', t'), q) == Lookup(Plug(p, t), q)
    {
      SameLookup(p', Nil, t', q);
    }
    PlugNodes(p', t');
    PlugNodes(p', Nil);
    assert Nodes(t') == {next};
  }

  lemma GrowthFits(p: Spine, t: Trie, right: bool, next: Node)
    requires t.Branch? && Child(t, right).Nil? && SpinePruned(p) && PrunedTree(t) && Room(p, t) && Depth(p) < 32
    ensures var p', t' := Hole(p, t, right), Branch(Nil, next, NO_VALUE, Nil); SpinePruned(p') && PrunedTree(t') && Room(p', t')
  {
  }

  lemma GrowthStands(h: Heap, h': Heap, first: Node?, idle: seq<Node>, p: Spine, t: Trie, right: bool, next: Node)
    requires Focus(h, p, t) && Pooled(h, first, idle) && Parted(h.cells.Keys, Nodes(Plug(p, t)) + {next}, idle)
    requires next !in Nodes(Plug(p, t)) && t.Branch? && Child(t, right).Nil?
    requires h'.root == h.root && h'.cells.Keys == h.cells.Keys && t.node in h.cells && next in h.cells
    requires h'.cells[t.node] == if right then h.cells[t.node].(right := next) else h.cells[t.node].(left := next)
    requires h'.cells[next] == Cell(null, null, t.node, NO_VALUE)
    requires forall n :: n in h.cells && n != t.node && n != next ==> Same(h, h', n)
    ensures Stands(h', first, idle, Hole(p, t, right), Branch(Nil, next, NO_VALUE, Nil))
  {
    PlugNodes(p, t);
    Attached(h, h', p, t, right, next);
    GrowthInvisible(p, t, right, next);
    assert t.node in Nodes(Plug(p, t)) && next in Nodes(Plug(p, t)) + {next};
    forall n | n in idle
      ensures Same(h, h', n)
    {
      assert n in Members(idle);
    }
    PooledKept(h, h', first, idle);
  }

  lemma ValueStands(h: Heap, h': Heap, first: Node?, idle: seq<Node>, p: Spine, t: Trie, v: nat)
    requires Stands(h, first, idle, p, t) && t.Branch?
    requires h'.root == h.root && h'.cells.Keys == h.cells.Keys && t.node in h.cells && h'.cells[t.node] == h.cells[t.node].(value := v)
    requires forall n :: n in h.cells && n != t.node ==> Same(h, h', n)
    ensures Stands(h', first, idle, p, t.(value := v))
  {
    ValueSet(h, h', p, t, v);
    PlugNodes(p, t);
    PlugNodes(p, t.(value := v));
    assert t.node in Nodes(t);
    forall n | n in idle
      ensures Same(h, h', n)
    {
      assert n in Members(idle);
    }
    PooledKept(h, h', first, idle);
  }

  /** Below the hole there is room for the rest of the prefix, and nothing is stored there yet. */
  ghost predicate Growing(was: Trie, p: Spine, t: Trie, key: bv32, mask: bv32, bit: bv32) {
    var path := Prefix(key, mask, TOP_BIT);
    && t.Branch? && SpinePruned(p) && PrunedTree(t) && Room(p, t)
    && path == PathOf(p) + Prefix(key, mask, bit) && |path| <= 32
    && (bit & mask != 0 ==> Child(t, key & bit != 0).Nil?)
    && forall q :: Lookup(Plug(p, t), q) == Lookup(was, q)
  }

  lemma GrowStep(was: Trie, p: Spine, t: Trie, key: bv32, mask: bv32, bit: bv32, next: Node)
    requires Growing(was, p, t, key, mask, bit) && bit & mask != 0
    ensures Growing(was, Hole(p, t, key & bit != 0), Branch(Nil, next, NO_VALUE, Nil), key, mask, bit >> 1)
  {
    var right := key & bit != 0;
    PathDepth(p);
    GrowthInvisible(p, t, right, next);
    GrowthFits(p, t, right, next);
    NextPrefix(PathOf(p), key, mask, bit);
  }

  lemma NextPrefix(path: seq<bool>, key: bv32, mask: bv32, bit: bv32)
    requires bit & mask != 0
    ensures path + Prefix(key, mask, bit) == (path + [key & bit != 0]) + Prefix(key, mask, bit >> 1)
    ensures |Prefix(key, mask, bit)| > 0
  {
  }

  lemma GrowEnd(was: Trie, p: Spine, t: Trie, key: bv32, mask: bv32, bit: bv32, v: nat)
    requires Growing(was, p, t, key, mask, bit) && bit & mask == 0 && v != NO_VALUE
    ensures Updated(was, Plug(p, t.(value := v)), Prefix(key, mask, TOP_BIT), v)
    ensures PrunedTree(Plug(p, t.(value := v))) && Shallow(Plug(p, t.(value := v)), 33)
  {
    UpdateAt(p, t, v);
    PlugPruned(p, t.(value := v));
    RoomPlug(p, t.(value := v));
  }

  // ---- walking down a prefix ----

  /** The walk has come down to the hole with the rest of the prefix to go. */
  ghost predicate Walking(p: Spine, key: bv32, mask: bv32, bit: bv32) {
    Prefix(key, mask, TOP_BIT) == PathOf(p) + Prefix(key, mask, bit)
  }

  lemma PrefixFits(key: bv32, mask: bv32)
    ensures |Prefix(key, mask, TOP_BIT)| <= 32
  {
    PrefixOfBits(key, mask, TOP_BIT);
    BitsLength(key, TOP_BIT);
    TopRank();
  }

  lemma WalkStart(key: bv32, mask: bv32)
    ensures Walking(Root, key, mask, TOP_BIT)
  {
    assert [] + Prefix(key, mask, TOP_BIT) == Prefix(key, mask, TOP_BIT);
  }

  lemma RootStands(h: Heap, first: Node?, idle: seq<Node>, t: Trie)
    requires Stands(h, first, idle, Root, t)
    ensures t.Branch? && t.node == h.root && h.root in h.cells
  {
  }

  lemma WalkStep(p: Spine, t: Trie, key: bv32, mask: bv32, bit: bv32)
    requires Walking(p, key, mask, bit) && bit & mask != 0 && t.Branch?
    ensures Walking(Hole(p, t, key & bit != 0), key, mask, bit >> 1)
  {
    PathDown(p, t, key & bit != 0);
    NextPrefix(PathOf(p), key, mask, bit);
  }

  /** One step of a walk: the child it looks at. */
  lemma LookDown(h: Heap, first: Node?, idle: seq<Node>, p: Spine, t: Trie, key: bv32, mask: bv32, bit: bv32)
    returns (q: Spine, s: Trie)
    requires Stands(h, first, idle, p, t) && Walking(p, key, mask, bit) && bit & mask != 0 && t.Branch?
    ensures q == Hole(p, t, key & bit != 0) && s == Child(t, key & bit != 0)
    ensures Stands(h, first, idle, q, s) && Plug(q, s) == Plug(p, t) && Walking(q, key, mask, bit >> 1)
    ensures t.node in h.cells && Top(s) == if key & bit != 0 then h.cells[t.node].right else h.cells[t.node].left
    ensures s.Branch? ==> s.node in h.cells
  {
    q, s := Hole(p, t, key & bit != 0), Child(t, key & bit != 0);
    Moved(h, first, idle, p, t, key & bit != 0);
    WalkStep(p, t, key, mask, bit);
  }

  /** Where the walk ends: at the node of the prefix, or where no node is left on the way to it. */
  lemma WalkEnd(p: Spine, t: Trie, key: bv32, mask: bv32, bit: bv32)
    requires Walking(p, key, mask, bit)
    ensures t.Nil? ==> Lookup(Plug(p, t), Prefix(key, mask, TOP_BIT)) == NO_VALUE
    ensures t.Branch? && bit & mask == 0 ==> Lookup(Plug(p, t), Prefix(key, mask, TOP_BIT)) == t.value
    ensures bit & mask == 0 ==> PathOf(p) == Prefix(key, mask, TOP_BIT)
  {
    PlugLookup(p, t, Prefix(key, mask, bit));
    if bit & mask == 0 { assert PathOf(p) + [] == PathOf(p); }
  }

  /** The node where the walk along a new prefix stops is where growing starts. */
  lemma StartGrowing(p: Spine, t: Trie, key: bv32, mask: bv32, bit: bv32)
    requires Walking(p, key, mask, bit) && t.Branch? && PrunedTree(Plug(p, t)) && Shallow(Plug(p, t), 33)
    requires bit & mask != 0 ==> Child(t, key & bit != 0).Nil?
    ensures Growing(Plug(p, t), p, t, key, mask, bit)
    ensures bit & mask != 0 ==> Lookup(Plug(p, t), Prefix(key, mask, TOP_BIT)) == NO_VALUE
  {
    PrefixFits(key, mask);
    UnplugPruned(p, t);
    RoomHere(p, t);
    if bit & mask != 0 {
      WalkStep(p, t, key, mask, bit);
      PathDown(p, t, key & bit != 0);
      WalkEnd(Hole(p, t, key & bit != 0), Nil, key, mask, bit >> 1);
    }
  }

  // ---- pruning ----

  /** The parent has dropped its child, whose right pointer now leads to the free list. */
  ghost predicate Dropped(h: Heap, h': Heap, node: Node, parent: Node, first: Node?) {
    && h'.root == h.root && h'.cells.Keys == h.cells.Keys && node in h.cells && parent in h.cells
    && h'.cells[node].right == first
    && h'.cells[parent] == (if h.cells[parent].right == node then h.cells[parent].(right := null) else h.cells[parent].(left := null))
    && forall n :: n in h.cells.Keys - {node, parent} ==> h'.cells[n] == h.cells[n]
  }

  lemma PruneFocus(h: Heap, h': Heap, first: Node?, idle: seq<Node>, p: Spine, t: Trie)
    requires Stands(h, first, idle, p, t) && Childless(t) && !p.Root? && Dropped(h, h', t.node, p.node, first)
    ensures Focus(h', p.up, Raised(p, Nil)) && Pooled(h', first, idle)
  {
    TopOwned(h, first, idle, p, t);
    Detached(h, h', p, t);
    forall n | n in idle
      ensures Same(h, h', n)
    {
      assert n in Members(idle);
    }
    PooledKept(h, h', first, idle);
  }

  lemma PruneParted(owned: set<Node>, idle: seq<Node>, p: Spine, t: Trie)
    requires Parted(owned, Nodes(Plug(p, t)), idle) && Childless(t) && !p.Root?
    requires SpineApart(p) && Apart(t) && Nodes(t) !! SpineNodes(p)
    ensures Parted(owned, Nodes(Plug(p.up, Raised(p, Nil))), [t.node] + idle)
  {
    PlugNodes(p, t);
    PlugNodes(p, Nil);
    assert Plug(p, Nil) == Plug(p.up, Raised(p, Nil));
    assert Nodes(t) == {t.node};
    assert Members([t.node] + idle) == {t.node} + Members(idle);
    assert Distinct([t.node] + idle) by {
      forall i | 0 <= i < |idle| ensures idle[i] != t.node { assert idle[i] in Members(idle); }
    }
  }

  lemma PruneStands(h: Heap, h': Heap, first: Node?, idle: seq<Node>, p: Spine, t: Trie)
    requires Stands(h, first, idle, p, t) && Childless(t) && !p.Root? && Dropped(h, h', t.node, p.node, first)
    ensures Stands(h', t.node, [t.node] + idle, p.up, Raised(p, Nil))
  {
    PruneFocus(h, h', first, idle, p, t);
    PruneParted(h.cells.Keys, idle, p, t);
    assert ([t.node] + idle)[1..] == idle;
  }

  /** The path of the hole without its value, everything else as before. */
  ghost predicate Emptied(was: Trie, p: Spine, path: seq<bool>) {
    Updated(was, Plug(p, Nil), path, NO_VALUE)
  }

  lemma FirstEmptied(p: Spine, t: Trie)
    requires Childless(t)
    ensures Emptied(Plug(p, t), p, PathOf(p))
  {
    forall q
      ensures Lookup(Plug(p, Nil), q) == if q == PathOf(p) then NO_VALUE else Lookup(Plug(p, t), q)
    {
      if PathOf(p) <= q {
        var rest := q[|PathOf(p)|..];
        DropPrefix(PathOf(p), q);
        PlugLookup(p, t, rest);
        PlugLookup(p, Nil, rest);
        if rest == [] { assert q == PathOf(p); }
      } else {
        PlugElsewhere(p, t, Nil, q);
      }
    }
  }

  /** One level up: if the parent is now an empty leaf too, it can go as well. */
  lemma StillEmptied(was: Trie, p: Spine, path: seq<bool>)
    requires !p.Root? && Emptied(was, p, path) && Childless(Raised(p, Nil)) && p.value == NO_VALUE
    ensures Emptied(was, p.up, path)
  {
    var t := Raised(p, Nil);
    assert Plug(p, Nil) == Plug(p.up, t);
    forall rest ensures Lookup(t, rest) == Lookup(Nil, rest) { NoValues(t, rest); }
    forall q
      ensures Lookup(Plug(p.up, Nil), q) == if q == path then NO_VALUE else Lookup(was, q)
    {
      SameLookup(p.up, Nil, t, q);
    }
  }

  lemma PruneRoom(p: Spine, t: Trie)
    requires !p.Root? && Room(p, t) && t.Branch? && SpinePruned(p)
    ensures Room(p.up, Raised(p, Nil)) && SpinePruned(p.up) && PrunedTree(Raised(p, Nil))
  {
  }

  lemma {:induction false} RoomPlug(p: Spine, t: Trie)
    requires Room(p, t)
    ensures Shallow(Plug(p, t), 33)
  {
    PlugShallow(p, t, 33 - Depth(p));
  }

  lemma RoomHere(p: Spine, t: Trie)
    requires Shallow(Plug(p, t), 33) && t.Branch?
    ensures Room(p, t)
  {
    DepthBound(p, t, 33);
    UnplugShallow(p, t, 33 - Depth(p));
  }

  lemma DropFits(p: Spine, t: Trie)
    requires PrunedTree(Plug(p, t)) && Shallow(Plug(p, t), 33) && t.Branch? && !Childless(t)
    ensures var whole := Plug(p, t.(value := NO_VALUE));
      Updated(Plug(p, t), whole, PathOf(p), NO_VALUE) && PrunedTree(whole) && Shallow(whole, 33)
  {
    UnplugPruned(p, t);
    RoomHere(p, t);
    UpdateAt(p, t, NO_VALUE);
    PlugPruned(p, t.(value := NO_VALUE));
    RoomPlug(p, t.(value := NO_VALUE));
  }

  // ---- searching ----

  /** The walk has come down to the hole, and `value` is the best that the prefixes above had to offer. */
  ghost predicate Searching(p: Spine, t: Trie, key: bv32, bit: bv32, value: nat) {
    var bits := Bits(key, TOP_BIT);
    && |bits| == 32 && Shallow(Plug(p, t), 33) && Depth(p) <= 33 && (Depth(p) == 33 ==> t.Nil?)
    && (Depth(p) <= 32 ==> bits == PathOf(p) + Bits(key, bit))
    && value == Sofar(Plug(p, t), bits, Depth(p))
  }

  lemma ValueAt(p: Spine, t: Trie, bits: seq<bool>, value: nat)
    requires t.Branch? && PathOf(p) <= bits && value == Sofar(Plug(p, t), bits, |PathOf(p)|)
    ensures Longest(Plug(p, t), bits, |PathOf(p)|) == if t.value != NO_VALUE then t.value else value
  {
    PlugLookup(p, t, []);
    assert PathOf(p) + [] == bits[..|PathOf(p)|];
  }

  /** The value at the top is that of the next longer prefix. */
  lemma SearchValue(p: Spine, t: Trie, key: bv32, bit: bv32, value: nat)
    requires t.Branch? && Searching(p, t, key, bit, value)
    ensures var bits := Bits(key, TOP_BIT);
      Depth(p) <= 32 && Longest(Plug(p, t), bits, Depth(p)) == if t.value != NO_VALUE then t.value else value
  {
    DepthBound(p, t, 33);
    PathDepth(p);
    ValueAt(p, t, Bits(key, TOP_BIT), value);
  }

  lemma DeepestIsLeaf(t: Trie)
    requires Shallow(t, 1) && t.Branch?
    ensures t.left.Nil? && t.right.Nil?
  {
  }

  lemma NextBits(path: seq<bool>, key: bv32, bit: bv32, right: bool)
    requires |Bits(key, bit)| > 0 && right == (key & bit != 0)
    ensures path + Bits(key, bit) == (path + [right]) + Bits(key, bit >> 1)
  {
  }

  lemma PathDown(p: Spine, t: Trie, right: bool)
    requires t.Branch?
    ensures PathOf(Hole(p, t, right)) == PathOf(p) + [right] && Depth(Hole(p, t, right)) == Depth(p) + 1
    ensures Plug(Hole(p, t, right), Child(t, right)) == Plug(p, t)
  {
  }

  lemma SearchStep(p: Spine, t: Trie, key: bv32, bit: bv32, was: nat, value: nat, right: bool)
    requires t.Branch? && right == (key & bit != 0)
    requires Searching(p, t, key, bit, was) && value == if t.value != NO_VALUE then t.value else was
    ensures Searching(Hole(p, t, right), Child(t, right), key, bit >> 1, value)
  {
    SearchValue(p, t, key, bit, was);
    RoomHere(p, t);
    PathDepth(p);
    PathDown(p, t, right);
    if Depth(p) == 32 { DeepestIsLeaf(t); } else { NextBits(PathOf(p), key, bit, right); }
  }

  lemma SearchEnd(p: Spine, t: Trie, key: bv32, bit: bv32, value: nat)
    requires t.Nil? && Searching(p, t, key, bit, value)
    ensures |Bits(key, TOP_BIT)| == 32 && value == Longest(Plug(p, t), Bits(key, TOP_BIT), 32)
  {
    PathDepth(p);
    if Depth(p) <= 32 { NothingBelow(p, t, Bits(key, TOP_BIT), 32); }
  }

  // ---- handing out ----

  lemma OnlyRoot(h: Heap, n: Node)
    requires h.root == n && h.cells == map[n := Cell(null, null, null, NO_VALUE)]
    ensures var t := Branch(Nil, n, NO_VALUE, Nil);
      Stands(h, null, [], Root, t) && PrunedTree(t) && Shallow(t, 33) && forall q :: Lookup(t, q) == NO_VALUE
  {
    var t := Branch(Nil, n, NO_VALUE, Nil);
    assert Nodes(Nil) == {} && Apart(Nil) && Linked(h, Nil, n) && SpineNodes(Root) == {};
    assert Nodes(t) == {n};
    assert Linked(h, t, null);
    forall q ensures Lookup(t, q) == NO_VALUE { NoValues(t, q); }
  }

  lemma AllocStands(h: Heap, h': Heap, first: Node?, idle: seq<Node>, p: Spine, t: Trie, n: Node)
    requires Stands(h, first, idle, p, t) && n !in h.cells && h'.root == h.root && h'.cells.Keys == h.cells.Keys + {n}
    requires forall m :: m in h.cells ==> Same(h, h', m)
    ensures Focus(h', p, t) && Pooled(h', first, idle) && Parted(h'.cells.Keys, Nodes(Plug(p, t)) + {n}, idle)
    ensures n !in Nodes(Plug(p, t))
  {
    PlugNodes(p, t);
    LinkedKept(h, h', t, UpNode(p));
    SpineKept(h, h', p, Top(t));
    forall m | m in idle
      ensures Same(h, h', m)
    {
      assert m in Members(idle);
    }
    PooledKept(h, h', first, idle);
  }

  /** The first free node is taken off its list. */
  lemma PopStands(h: Heap, first: Node?, idle: seq<Node>, p: Spine, t: Trie)
    requires Stands(h, first, idle, p, t) && first != null
    ensures idle != [] && first == idle[0] && first in h.cells && first !in Nodes(Plug(p, t))
    ensures Pooled(h, h.cells[first].right, idle[1..]) && Parted(h.cells.Keys, Nodes(Plug(p, t)) + {first}, idle[1..])
  {
    assert idle[0] in Members(idle);
    assert Members(idle) == {idle[0]} + Members(idle[1..]);
    forall i | 0 <= i < |idle[1..]|
      ensures idle[1..][i] != first
    {
      assert idle[1..][i] == idle[i + 1];
    }
  }

  /** The walk stopped short because the next node is missing, or at the end of the prefix. */
  ghost predicate Stopped(t: Trie, key: bv32, mask: bv32, bit: bv32, short: bool)
    requires t.Branch?
  {
    if short then bit & mask != 0 && Child(t, key & bit != 0).Nil? else bit & mask == 0
  }

  class Tree {
    var root: Node
    var free: Node?
    ghost var shape: Trie
    ghost var idle: seq<Node>
    ghost var owned: set<Node>

    ghost function Snap(): (h: Heap)
      reads `root, `owned, owned
    {
      Heap(root, map n | n in owned :: Cell(n.right, n.left, n.parent, n.value))
    }

    ghost predicate Valid()
      reads this, owned
    {
      Stands(Snap(), free, idle, Root, shape) && PrunedTree(shape) && Shallow(shape, 33)
    }

    /** ngx_radix_tree_create without preallocation */
    constructor ()
      ensures Valid() && fresh(owned) && forall q :: Lookup(shape, q) == 0xffff_ffff_ffff_ffff
    {
      var n := new Node();
      n.value := NO_VALUE;
      root, free := n, null;
      shape, idle, owned := Branch(Nil, n, NO_VALUE, Nil), [], {n};
      new;
      OnlyRoot(Snap(), n);
    }

    // ---- ngx_radix32tree_find ----

    method Find(key: bv32) returns (value: nat)
      requires Valid()
      ensures |Bits(key, TOP_BIT)| == 32 && value == Longest(shape, Bits(key, TOP_BIT), 32)
    {
      ghost var bits := Bits(key, TOP_BIT);
      BitsLength(key, TOP_BIT);
      TopRank();
      var bit := TOP_BIT;
      value := NO_VALUE;
      var node: Node? := root;
      ghost var p, t := Root, shape;
      while node != null
        invariant Stands(Snap(), free, idle, p, t) && Plug(p, t) == shape && node == Top(t) && (t.Branch? ==> node in owned)
        invariant Searching(p, t, key, bit, value)
        decreases t
      {
        TopOwned(Snap(), free, idle, p, t);
        ghost var was := value;
        if node.value != NO_VALUE {
          value := node.value;
        }
        ghost var right := key & bit != 0;
        Moved(Snap(), free, idle, p, t, right);
        if key & bit != 0 {
          node := node.right;
        } else {
          node := node.left;
        }
        SearchStep(p, t, key, bit, was, value, right);
        bit := bit >> 1;
        p, t := Hole(p, t, right), Child(t, right);
      }
      SearchEnd(p, t, key, bit, value);
    }

    // ---- ngx_radix_alloc ----

    method TakeFree(ghost p: Spine, ghost t: Trie) returns (n: Node)
      requires Stands(Snap(), free, idle, p, t) && free != null
      modifies this`free, this`idle
      ensures Focus(Snap(), p, t) && Pooled(Snap(), free, idle) && Parted(owned, Nodes(Plug(p, t)) + {n}, idle)
      ensures n == old(free) && n !in Nodes(Plug(p, t)) && n in owned
    {
      hide Focus, Linked, SpineLinked, Plug, Nodes, Pooled, Parted;
      assert Snap().cells.Keys == owned;
      PopStands(Snap(), free, idle, p, t);
      n := free;
      assert Snap().cells[n].right == n.right;
      label Taken:
      free := free.right;
      idle := idle[1..];
      assert Snap() == old@Taken(Snap());
    }

    method TakeNew(ghost p: Spine, ghost t: Trie) returns (n: Node)
      requires Stands(Snap(), free, idle, p, t)
      modifies this`owned
      ensures Focus(Snap(), p, t) && Pooled(Snap(), free, idle) && Parted(owned, Nodes(Plug(p, t)) + {n}, idle)
      ensures fresh(n) && n !in Nodes(Plug(p, t)) && owned == old(owned) + {n}
    {
      ghost var h := Snap();
      n := new Node();
      owned := owned + {n};
      AllocStands(h, Snap(), free, idle, p, t, n);
    }

    /** A node from the free list, or a new one. */
    method Alloc(ghost p: Spine, ghost t: Trie) returns (n: Node)
      requires Stands(Snap(), free, idle, p, t)
      modifies this`free, this`idle, this`owned
      ensures Focus(Snap(), p, t) && Pooled(Snap(), free, idle) && Parted(owned, Nodes(Plug(p, t)) + {n}, idle)
      ensures n !in Nodes(Plug(p, t)) && n in owned && old(owned) <= owned && fresh(owned - old(owned))
      ensures old(free) != null ==> owned == old(owned) && n == old(free)
    {
      if free != null {
        n := TakeFree(p, t);
      } else {
        n := TakeNew(p, t);
      }
    }

    // ---- ngx_radix32tree_insert ----

    method SetValue(node: Node, value: nat, ghost p: Spine, ghost t: Trie)
      requires Stands(Snap(), free, idle, p, t) && t.Branch? && t.node == node && node in owned
      modifies node`value
      ensures Stands(Snap(), free, idle, p, t.(value := value))
    {
      ghost var h := Snap();
      node.value := value;
      ValueStands(h, Snap(), free, idle, p, t, value);
    }

    /** The new node is cleared and becomes the child of `node` on the given side. */
    method Link(node: Node, next: Node, right: bool)
      requires node in owned && next in owned && node != next
      modifies node, next
      ensures Snap().root == old(Snap()).root && Snap().cells.Keys == old(Snap()).cells.Keys == owned
      ensures Snap().cells[next] == Cell(null, null, node, NO_VALUE)
      ensures Snap().cells[node] == if right then old(Snap()).cells[node].(right := next) else old(Snap()).cells[node].(left := next)
      ensures forall n :: n in owned && n != node && n != next ==> Same(old(Snap()), Snap(), n)
    {
      next.right, next.left, next.parent, next.value := null, null, node, NO_VALUE;
      if right {
        node.right := next;
      } else {
        node.left := next;
      }
    }

    /** A new node below `node`. */
    method Grow(node: Node, right: bool, ghost p: Spine, ghost t: Trie) returns (next: Node)
      requires Stands(Snap(), free, idle, p, t) && t.Branch? && t.node == node && Child(t, right).Nil?
      modifies this, owned
      ensures Stands(Snap(), free, idle, Hole(p, t, right), Branch(Nil, next, NO_VALUE, Nil))
      ensures next in owned && old(owned) <= owned && fresh(owned - old(owned)) && root == old(root) && shape == old(shape)
    {
      TopOwned(Snap(), free, idle, p, t);
      PlugNodes(p, t);
      hide Stands, Focus, Pooled, Parted, Plug;
      next := Alloc(p, t);
      ghost var h := Snap();
      Link(node, next, right);
      GrowthStands(h, Snap(), free, idle, p, t, right, next);
    }

    /** The child on one side, to look at. */
    method Look(node: Node, right: bool, ghost p: Spine, ghost t: Trie) returns (child: Node?)
      requires Stands(Snap(), free, idle, p, t) && t.Branch? && t.node == node && node in owned
      ensures child == Top(Child(t, right)) && (child != null ==> Child(t, right).Branch? && child in owned)
      ensures child == null ==> Child(t, right).Nil?
      ensures Stands(Snap(), free, idle, Hole(p, t, right), Child(t, right))
    {
      Moved(Snap(), free, idle, p, t, right);
      if right {
        child := node.right;
      } else {
        child := node.left;
      }
    }

    /** The first loop: down the nodes that exist; `next` is null if the prefix goes on where they end. */
    method WalkIn(key: bv32, mask: bv32) returns (node: Node, next: Node?, bit: bv32, ghost p: Spine, ghost t: Trie)
      requires Valid()
      ensures Stands(Snap(), free, idle, p, t) && Plug(p, t) == shape && t.Branch? && t.node == node && node in owned
      ensures Walking(p, key, mask, bit)
      ensures Stopped(t, key, mask, bit, next == null)
    {
      hide Pooled, Parted, Prefix, PrunedTree, Shallow, Focus, Walking, Lookup;
      RootStands(Snap(), free, idle, shape);
      WalkStart(key, mask);
      bit := TOP_BIT;
      node, next := root, root;
      p, t := Root, shape;
      while bit & mask != 0
        invariant Stands(Snap(), free, idle, p, t) && Plug(p, t) == shape && t.Branch? && t.node == node && node in owned
        invariant Walking(p, key, mask, bit) && next == node
        decreases t
      {
        var right := key & bit != 0;
        next := Look(node, right, p, t);
        if next == null {
          assert Stopped(t, key, mask, bit, true);
          return;
        }
        WalkStep(p, t, key, mask, bit);
        p, t := Hole(p, t, right), Child(t, right);
        bit := bit >> 1;
        node := next;
      }
    }

    /** ngx_radix32tree_insert */
    method Insert(key: bv32, mask: bv32, value: nat) returns (status: Status)
      requires Valid() && value != NO_VALUE
      modifies this, owned
      ensures Valid() && old(owned) <= owned && fresh(owned - old(owned))
      ensures if Lookup(old(shape), Prefix(key, mask, TOP_BIT)) != NO_VALUE then status == Busy && shape == old(shape)
              else status == Ok && Updated(old(shape), shape, Prefix(key, mask, TOP_BIT), value)
    {
      hide Focus, Pooled, Parted, Prefix, Lookup, PrunedTree, Shallow;
      var node, next, bit;
      ghost var p, t;
      node, next, bit, p, t := WalkIn(key, mask);
      StartGrowing(p, t, key, mask, bit);
      if next != null {
        WalkEnd(p, t, key, mask, bit);
        TopOwned(Snap(), free, idle, p, t);
        if node.value != NO_VALUE {
          return Busy;
        }
      }
      p, t := GrowAll(node, key, mask, bit, value, p, t);
      GoTop(Snap(), p, t);
      shape := Plug(p, t);
      return Ok;
    }

    /** One more node on the way of the prefix. */
    method GrowOne(node: Node, key: bv32, mask: bv32, bit: bv32, ghost p: Spine, ghost t: Trie)
      returns (next: Node, ghost q: Spine, ghost s: Trie)
      requires Stands(Snap(), free, idle, p, t) && t.Branch? && t.node == node
      requires Growing(shape, p, t, key, mask, bit) && bit & mask != 0
      modifies this, owned
      ensures Stands(Snap(), free, idle, q, s) && s.Branch? && s.node == next && next in owned
      ensures Growing(shape, q, s, key, mask, bit >> 1) && shape == old(shape)
      ensures old(owned) <= owned && fresh(owned - old(owned))
    {
      var right := key & bit != 0;
      next := Grow(node, right, p, t);
      GrowStep(shape, p, t, key, mask, bit, next);
      q, s := Hole(p, t, right), Branch(Nil, next, NO_VALUE, Nil);
    }

    /** The second loop: new nodes for the rest of the prefix; then the value. */
    method GrowAll(start: Node, key: bv32, mask: bv32, bit0: bv32, value: nat, ghost p0: Spine, ghost t0: Trie)
      returns (ghost p: Spine, ghost t: Trie)
      requires Stands(Snap(), free, idle, p0, t0) && t0.Branch? && t0.node == start && start in owned && value != NO_VALUE
      requires Growing(shape, p0, t0, key, mask, bit0)
      modifies this, owned
      ensures Stands(Snap(), free, idle, p, t) && shape == old(shape) && old(owned) <= owned && fresh(owned - old(owned))
      ensures Updated(shape, Plug(p, t), Prefix(key, mask, TOP_BIT), value)
      ensures PrunedTree(Plug(p, t)) && Shallow(Plug(p, t), 33)
    {
      var node, bit := start, bit0;
      p, t := p0, t0;
      while bit & mask != 0
        invariant Stands(Snap(), free, idle, p, t) && t.Branch? && t.node == node && node in owned
        invariant Growing(shape, p, t, key, mask, bit) && shape == old(shape)
        invariant old(owned) <= owned && fresh(owned - old(owned))
        decreases bit
      {
        node, p, t := GrowOne(node, key, mask, bit, p, t);
        bit := bit >> 1;
      }
      GrowEnd(shape, p, t, key, mask, bit, value);
      SetValue(node, value, p, t);
      t := t.(value := value);
    }

    // ---- ngx_radix32tree_delete ----

    /** The parent drops the node, which goes to the front of the free list. */
    method Drop(node: Node, parent: Node)
      requires node in owned && parent in owned && node != parent
      modifies this`free, this`idle, node`right, parent`right, parent`left
      ensures Dropped(old(Snap()), Snap(), node, parent, old(free)) && free == node && idle == [node] + old(idle)
    {
      if parent.right == node {
        parent.right := null;
      } else {
        parent.left := null;
      }
      node.right := free;
      free := node;
      idle := [node] + idle;
    }

    /** The parent drops the node, and the node becomes the first free one. */
    method Prune(node: Node, parent: Node, ghost p: Spine, ghost t: Trie)
      requires Stands(Snap(), free, idle, p, t) && Childless(t) && !p.Root? && t.node == node && p.node == parent
      requires node in owned && parent in owned && node != parent
      modifies this`free, this`idle, node, parent
      ensures Stands(Snap(), free, idle, p.up, Raised(p, Nil))
    {
      ghost var h, first, rest := Snap(), free, idle;
      Drop(node, parent);
      PruneStands(h, Snap(), first, rest, p, t);
    }

    /** One turn of the for loop: the leaf goes; `more` says whether its parent is now an empty leaf that is not the root. */
    method PruneUp(node: Node, ghost p: Spine, ghost t: Trie) returns (parent: Node, more: bool, ghost s: Trie)
      requires Stands(Snap(), free, idle, p, t) && Childless(t) && !p.Root? && t.node == node && node in owned
      modifies this`free, this`idle, owned
      ensures Stands(Snap(), free, idle, p.up, s) && s == Raised(p, Nil) && s.node == parent && parent in owned
      ensures more <==> Childless(s) && s.value == NO_VALUE && !p.up.Root?
    {
      TopOwned(Snap(), free, idle, p, t);
      parent := node.parent;
      Prune(node, parent, p, t);
      s := Raised(p, Nil);
      TopOwned(Snap(), free, idle, p.up, s);
      if parent.right != null || parent.left != null {
        return parent, false, s;
      }
      if parent.value != NO_VALUE {
        return parent, false, s;
      }
      more := parent.parent != null;
    }

    /** The for loop: the leaf goes, and with it every ancestor that is left an empty leaf. */
    method PruneBranch(leaf: Node, ghost p0: Spine, ghost t0: Trie) returns (ghost p: Spine, ghost t: Trie)
      requires Stands(Snap(), free, idle, p0, t0) && Childless(t0) && !p0.Root? && t0.node == leaf && leaf in owned
      requires SpinePruned(p0) && Room(p0, t0)
      modifies this`free, this`idle, owned
      ensures Stands(Snap(), free, idle, p, t)
      ensures Updated(Plug(p0, t0), Plug(p, t), PathOf(p0), NO_VALUE)
      ensures PrunedTree(Plug(p, t)) && Shallow(Plug(p, t), 33)
    {
      var node, more := leaf, true;
      p, t := p0, t0;
      ghost var was := Plug(p0, t0);
      FirstEmptied(p, t);
      while more
        invariant Stands(Snap(), free, idle, p, t) && t.Branch? && t.node == node && node in owned
        invariant SpinePruned(p) && PrunedTree(t) && Room(p, t)
        invariant if more then Childless(t) && !p.Root? && Emptied(was, p, PathOf(p0))
                  else Updated(was, Plug(p, t), PathOf(p0), NO_VALUE) && (p.Root? || Pruned(t))
        decreases more, p
      {
        PruneRoom(p, t);
        if !p.up.Root? && Childless(Raised(p, Nil)) && p.value == NO_VALUE { StillEmptied(was, p, PathOf(p0)); }
        ghost var s;
        node, more, s := PruneUp(node, p, t);
        assert Plug(p, Nil) == Plug(p.up, s);
        p, t := p.up, s;
      }
      PlugPruned(p, t);
      RoomPlug(p, t);
    }

    /** The walk to the node of the prefix that is to be deleted. */
    method WalkOut(key: bv32, mask: bv32) returns (node: Node?, ghost p: Spine, ghost t: Trie)
      requires Valid()
      ensures Stands(Snap(), free, idle, p, t) && Plug(p, t) == shape && node == Top(t) && (t.Branch? ==> node in owned)
      ensures t.Nil? ==> Lookup(shape, Prefix(key, mask, TOP_BIT)) == NO_VALUE
      ensures t.Branch? ==> PathOf(p) == Prefix(key, mask, TOP_BIT) && Lookup(shape, Prefix(key, mask, TOP_BIT)) == t.value
    {
      var bit := TOP_BIT;
      node := root;
      p, t := Root, shape;
      while node != null && bit & mask != 0
        invariant Stands(Snap(), free, idle, p, t) && Plug(p, t) == shape && node == Top(t) && (t.Branch? ==> node in owned)
        invariant Walking(p, key, mask, bit)
        decreases t
      {
        p, t := LookDown(Snap(), free, idle, p, t, key, mask, bit);
        if key & bit != 0 {
          node := node.right;
        } else {
          node := node.left;
        }
        bit := bit >> 1;
      }
      WalkEnd(p, t, key, mask, bit);
    }

    /** The value of a prefix with longer ones below it is dropped. */
    method DropValue(node: Node, ghost p: Spine, ghost t: Trie)
      requires Stands(Snap(), free, idle, p, t) && Plug(p, t) == shape && t.Branch? && t.node == node && node in owned
      requires PrunedTree(shape) && Shallow(shape, 33) && !Childless(t)
      modifies this, owned
      ensures Valid() && owned == old(owned) && Updated(old(shape), shape, PathOf(p), NO_VALUE)
    {
      DropFits(p, t);
      SetValue(node, NO_VALUE, p, t);
      GoTop(Snap(), p, t.(value := NO_VALUE));
      shape := Plug(p, t.(value := NO_VALUE));
    }

    /**
     ngx_radix32tree_delete. A childless root has no parent to drop it: the source follows the null parent pointer
     if it is asked to delete the empty prefix then.
     */
    method Delete(key: bv32, mask: bv32) returns (status: Status)
      requires Valid() && !(Prefix(key, mask, TOP_BIT) == [] && Childless(shape))
      modifies this, owned
      ensures Valid() && owned == old(owned)
      ensures if Lookup(old(shape), Prefix(key, mask, TOP_BIT)) == NO_VALUE then status == Error && shape == old(shape)
              else status == Ok && Updated(old(shape), shape, Prefix(key, mask, TOP_BIT), NO_VALUE)
    {
      hide Focus, Pooled, Parted, Prefix, Updated;
      var node;
      ghost var p, t;
      node, p, t := WalkOut(key, mask);
      if node == null {
        return Error;
      }
      TopOwned(Snap(), free, idle, p, t);
      UnplugPruned(p, t);
      RoomHere(p, t);
      if node.right != null || node.left != null {
        if node.value != NO_VALUE {
          DropValue(node, p, t);
          return Ok;
        }
        return Error;
      }
      p, t := PruneBranch(node, p, t);
      GoTop(Snap(), p, t);
      shape := Plug(p, t);
      return Ok;
    }
  }
}
