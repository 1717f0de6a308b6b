/** In-order neighbours, seen from a spine. */
module RbOrder {
  import opened RbShape
  import opened RbLinks
  import opened RbRemove

  lemma {:induction false} ItemsDistinct(t: Shape)
    requires Apart(t)
    ensures forall i, j :: 0 <= i < j < |Items(t)| ==> Items(t)[i].node != Items(t)[j].node
  {
    if t.Fork? {
      ItemsDistinct(t.left);
      ItemsDistinct(t.right);
      ItemsWithin(t.left);
      ItemsWithin(t.right);
      var a, s := |Items(t.left)|, Items(t);
      assert forall i :: 0 <= i < a ==> s[i] == Items(t.left)[i] && s[i] in Items(t.left);
      assert forall i :: a < i < |s| ==> s[i] == Items(t.right)[i - a - 1] && s[i] in Items(t.right);
    }
  }

  ghost predicate FollowsAt(s: seq<Entry>, i: nat, m: Node, n: Node?) {
    i < |s| && s[i].node == m && n == if i + 1 < |s| then s[i + 1].node else null
  }

  /** `n` is the node right after `m` in the sequence, or null if `m` is the last one. */
  ghost predicate Follows(s: seq<Entry>, m: Node, n: Node?) {
    exists i: nat :: FollowsAt(s, i, m, n)
  }

  lemma FollowsUnique(t: Shape, i: nat, n: Node?)
    requires Apart(t) && i < |Items(t)| && Follows(Items(t), Items(t)[i].node, n)
    ensures n == if i + 1 < |Items(t)| then Items(t)[i + 1].node else null
  {
    ItemsDistinct(t);
  }

  lemma {:induction false} LeftwardsBefore(q: Spine, p: Spine)
    requires Leftwards(q, p)
    ensures Before(q) == Before(p)
  {
    if q != p { LeftwardsBefore(q.up, p); }
  }

  /** The left-most node of the right child follows the top. */
  lemma RightThenLeft(q: Spine, s: Shape, p: Spine, t: Shape)
    requires t.Fork? && s.Fork? && s.left.Leaf?
    requires Leftwards(q, InRight(p, t.left, t.node, t.key, t.red)) && Plug(q, s) == Plug(p, t)
    ensures Follows(Items(Plug(p, t)), t.node, s.node)
  {
    LeftwardsBefore(q, InRight(p, t.left, t.node, t.key, t.red));
    PlugItems(q, s);
    var i := |Before(p)| + |Items(t.left)|;
    var all := Items(Plug(p, t));
    assert Before(q) == Before(p) + (Items(t.left) + [Entry(t.node, t.key)]);
    assert Items(s) == [Entry(s.node, s.key)] + Items(s.right);
    assert all[i] == Before(q)[i] == Entry(t.node, t.key);
    assert all[i + 1] == Entry(s.node, s.key);
    assert FollowsAt(all, i, t.node, s.node);
  }

  /** `m` is the last node of the shape in focus. */
  ghost predicate LastOf(t: Shape, m: Node) {
    Items(t) != [] && Items(t)[|Items(t)| - 1].node == m
  }

  lemma LastRaised(p: Spine, t: Shape, m: Node)
    requires p.InRight? && LastOf(t, m)
    ensures LastOf(Raised(p, t), m)
  {
  }

  /** Coming up from the left, the parent follows; at the root nothing does. */
  lemma UpFollows(p: Spine, t: Shape, m: Node)
    requires LastOf(t, m) && !p.InRight?
    ensures Follows(Items(Plug(p, t)), m, if p.Root? then null else p.node)
  {
    PlugItems(p, t);
    var i := |Before(p)| + |Items(t)| - 1;
    var all := Items(Plug(p, t));
    assert all[i] == Items(t)[|Items(t)| - 1];
    if p.Root? {
      assert all == Items(t);
      assert FollowsAt(all, i, m, null);
    } else {
      assert After(p)[0] == Entry(p.node, p.key);
      assert all[i + 1] == After(p)[0];
      assert FollowsAt(all, i, m, p.node);
    }
  }

  /** The left-most node of the whole tree is its first entry. */
  lemma FirstItem(q: Spine, s: Shape)
    requires s.Fork? && s.left.Leaf? && Leftwards(q, Root)
    ensures |Items(Plug(q, s))| > 0 && Items(Plug(q, s))[0].node == s.node
  {
    LeftwardsBefore(q, Root);
    PlugItems(q, s);
    assert Items(s) == [Entry(s.node, s.key)] + Items(s.right);
  }
}
