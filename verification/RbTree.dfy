/** The red-black tree of ngx_rbtree.c: nodes with parent pointers and one shared black sentinel. */
module RbTree {
  import opened RbShape
  import opened RbLinks
  import opened RbInsert
  import opened RbAttach
  import opened RbDelete
  import opened RbRemove
  import opened RbPromote
  import opened RbOrder

  class Tree {
    var root: Node
    var sentinel: Node
    ghost var shape: Shape
    ghost var owned: set<Node>

    /** ngx_rbtree_init */
    constructor (s: Node)
      modifies s
      ensures Valid() && sentinel == s && shape == Leaf
    {
      sentinel := s;
      root := s;
      shape := Leaf;
      owned := {};
      new;
      s.red := false;
      assert Balanced(Leaf, 0);
    }

    ghost function Snap(): (h: Heap)
      reads `root, `sentinel, `owned, sentinel, owned
    {
      Heap(root, sentinel, map n | n in owned + {sentinel} :: Cell(n.key, n.red, n.left, n.right, n.parent))
    }

    ghost predicate Valid()
      reads this, sentinel, owned
    {
      && owned == Nodes(shape) && Focus(Snap(), Root, shape)
      && RedBlack(shape) && Sorted(Items(shape))
    }

    /** ngx_rbt_red and ngx_rbt_black */
    method Dye(node: Node, red: bool)
      requires node in owned && sentinel !in owned
      modifies node`red
      ensures Snap() == Dyed(old(Snap()), node, red)
    {
      node.red := red;
    }

    method LeftRotate(node: Node)
      requires node in owned && sentinel !in owned
      requires node.right != null && node.right in owned && node != node.right
      requires node.right.left != null && node.right.left in owned + {sentinel}
      requires node.right.left != node && node.right.left != node.right
      requires node != root ==>
        node.parent != null && node.parent in owned && node.parent !in {node, node.right, node.right.left}
      modifies this`root, owned
      ensures root == if node == old(root) then old(node.right) else old(root)
      ensures forall n :: n in owned + {sentinel} ==> n.key == old(n.key) && n.red == old(n.red)
      ensures forall n :: n in owned + {sentinel} ==>
        n.left == if n == old(node.right) then node
                  else if node != old(root) && n == old(node.parent) && old(n.left) == node then old(node.right)
                  else old(n.left)
      ensures forall n :: n in owned + {sentinel} ==>
        n.right == if n == node then old(node.right.left)
                  else if node != old(root) && n == old(node.parent) && old(n.left) != node then old(node.right)
                  else old(n.right)
      ensures forall n :: n in owned + {sentinel} ==>
        n.parent == if n == node then old(node.right)
                    else if n == old(node.right) then old(node.parent)
                    else if n == old(node.right.left) && n != sentinel then node
                    else old(n.parent)
    {
      var temp := node.right;
      node.right := temp.left;
      if temp.left != sentinel {
        temp.left.parent := node;
      }
      temp.parent := node.parent;
      if node == root {
        root := temp;
      } else if node == node.parent.left {
        node.parent.left := temp;
      } else {
        node.parent.right := temp;
      }
      temp.left := node;
      node.parent := temp;
    }

    method RightRotate(node: Node)
      requires node in owned && sentinel !in owned
      requires node.left != null && node.left in owned && node != node.left
      requires node.left.right != null && node.left.right in owned + {sentinel}
      requires node.left.right != node && node.left.right != node.left
      requires node != root ==>
        node.parent != null && node.parent in owned && node.parent !in {node, node.left, node.left.right}
      modifies this`root, owned
      ensures root == if node == old(root) then old(node.left) else old(root)
      ensures forall n :: n in owned + {sentinel} ==> n.key == old(n.key) && n.red == old(n.red)
      ensures forall n :: n in owned + {sentinel} ==>
        n.right == if n == old(node.left) then node
                  else if node != old(root) && n == old(node.parent) && old(n.right) == node then old(node.left)
                  else old(n.right)
      ensures forall n :: n in owned + {sentinel} ==>
        n.left == if n == node then old(node.left.right)
                  else if node != old(root) && n == old(node.parent) && old(n.right) != node then old(node.left)
                  else old(n.left)
      ensures forall n :: n in owned + {sentinel} ==>
        n.parent == if n == node then old(node.left)
                    else if n == old(node.left) then old(node.parent)
                    else if n == old(node.left.right) && n != sentinel then node
                    else old(n.parent)
    {
      var temp := node.left;
      node.left := temp.right;
      if temp.right != sentinel {
        temp.right.parent := node;
      }
      temp.parent := node.parent;
      if node == root {
        root := temp;
      } else if node == node.parent.right {
        node.parent.right := temp;
      } else {
        node.parent.left := temp;
      }
      temp.right := node;
      node.parent := temp;
    }

    /** LeftRotate at the node in focus, by what it does to the shape. */
    method TurnLeft(node: Node, ghost p: Spine, ghost t: Shape)
      requires t.Fork? && t.right.Fork? && t.node == node && Focus(Snap(), p, t)
      requires node in owned && sentinel !in owned
      modifies this`root, owned
      ensures Focus(Snap(), p, RotatedLeft(t))
      ensures Snap().cells[sentinel] == old(Snap().cells[sentinel])
    {
      ghost var h := Snap();
      CanTurnLeftAt(h, p, t);
      LeftRotate(node);
      forall n | n in h.cells
        ensures Snap().cells[n] == LeftTurned(h, node, n)
      {
      }
      LeftTurn(h, Snap(), p, t);
    }

    /** RightRotate at the node in focus, by what it does to the shape. */
    method TurnRight(node: Node, ghost p: Spine, ghost t: Shape)
      requires t.Fork? && t.left.Fork? && t.node == node && Focus(Snap(), p, t)
      requires node in owned && sentinel !in owned
      modifies this`root, owned
      ensures Focus(Snap(), p, RotatedRight(t))
      ensures Snap().cells[sentinel] == old(Snap().cells[sentinel])
    {
      ghost var h := Snap();
      CanTurnRightAt(h, p, t);
      RightRotate(node);
      forall n | n in h.cells
        ensures Snap().cells[n] == RightTurned(h, node, n)
      {
      }
      RightTurn(h, Snap(), p, t);
    }

  
    // ---- insert ----

    /** The three colours of the red-uncle branch. */
    method DyeUncle(node: Node, temp: Node) returns (grand: Node)
      requires node.parent != null && node.parent.parent != null && sentinel !in owned
      requires node.parent in owned && node.parent.parent in owned && temp in owned
      requires node.parent.parent != node.parent && node.parent.parent != temp
      modifies owned`red
      ensures grand == node.parent.parent
      ensures Coloured(old(Snap()), Snap(), {node.parent.parent}, {node.parent, temp})
    {
      Dye(node.parent, false);
      Dye(temp, false);
      Dye(node.parent.parent, true);
      grand := node.parent.parent;
    }

    /** The two colours of the black-uncle branch. */
    method DyeParents(node: Node) returns (grand: Node)
      requires node.parent != null && node.parent.parent != null && sentinel !in owned
      requires node.parent in owned && node.parent.parent in owned
      requires node.parent.parent != node.parent
      modifies owned`red
      ensures grand == node.parent.parent
      ensures Coloured(old(Snap()), Snap(), {node.parent.parent}, {node.parent})
    {
      Dye(node.parent, false);
      Dye(node.parent.parent, true);
      grand := node.parent.parent;
    }

    method FixRedUncle(node: Node, temp: Node, ghost p: Spine, ghost t: Shape, ghost b: nat, ghost items: seq<Entry>)
      returns (next: Node)
      requires Fixing(Snap(), p, t, b, owned, items) && sentinel !in owned && node == t.node
      requires !p.Root? && p.red && !p.up.Root? && Red(p.up.sib) && temp == p.up.sib.node
      modifies owned`red
      ensures Fixing(Snap(), p.up.up, PushedUp(p, t), b + 1, owned, items) && next == PushedUp(p, t).node
    {
      ghost var h := Snap();
      Ancestors(h, p, t, b, owned, items);
      next := DyeUncle(node, temp);
      PushUpStep(h, Snap(), p, t, b, owned, items);
    }
  
    /** An inner child: its parent becomes the node in focus and is rotated outwards. */
    method FixInnerLeft(node: Node, ghost p: Spine, ghost t: Shape, ghost b: nat, ghost items: seq<Entry>)
      requires Fixing(Snap(), p, t, b, owned, items) && sentinel !in owned
      requires p.InRight? && p.red && !p.up.Root? && node == p.node
      modifies this`root, owned
      ensures Fixing(Snap(), OutSpine(p, t), OutShape(p, t), b, owned, items)
    {
      ghost var h := Snap();
      Ancestors(h, p, t, b, owned, items);
      GoUp(h, p, t);
      TurnLeft(node, p.up, Raised(p, t));
      TurnOutStep(h, Snap(), p, t, b, owned, items);
    }

    method FixInnerRight(node: Node, ghost p: Spine, ghost t: Shape, ghost b: nat, ghost items: seq<Entry>)
      requires Fixing(Snap(), p, t, b, owned, items) && sentinel !in owned
      requires p.InLeft? && p.red && !p.up.Root? && node == p.node
      modifies this`root, owned
      ensures Fixing(Snap(), OutSpine(p, t), OutShape(p, t), b, owned, items)
    {
      ghost var h := Snap();
      Ancestors(h, p, t, b, owned, items);
      GoUp(h, p, t);
      TurnRight(node, p.up, Raised(p, t));
      TurnOutStep(h, Snap(), p, t, b, owned, items);
    }

    /** An outer child below a black uncle. */
    method FixOuterLeft(node: Node, ghost p: Spine, ghost t: Shape, ghost b: nat, ghost items: seq<Entry>)
      requires Fixing(Snap(), p, t, b, owned, items) && sentinel !in owned && node == t.node
      requires p.InLeft? && p.red && p.up.InLeft? && !Red(p.up.sib)
      modifies this`root, owned
      ensures Fixing(Snap(), DownSpine(p), t, b, owned, items)
    {
      ghost var h := Snap();
      Ancestors(h, p, t, b, owned, items);
      var grand := DyeParents(node);
      TurnDownFocus(h, Snap(), p, t);
      TurnRight(grand, p.up.up, Repainting(p, t));
      TurnDownStep(h, Snap(), p, t, b, owned, items);
    }

    method FixOuterRight(node: Node, ghost p: Spine, ghost t: Shape, ghost b: nat, ghost items: seq<Entry>)
      requires Fixing(Snap(), p, t, b, owned, items) && sentinel !in owned && node == t.node
      requires p.InRight? && p.red && p.up.InRight? && !Red(p.up.sib)
      modifies this`root, owned
      ensures Fixing(Snap(), DownSpine(p), t, b, owned, items)
    {
      ghost var h := Snap();
      Ancestors(h, p, t, b, owned, items);
      var grand := DyeParents(node);
      TurnDownFocus(h, Snap(), p, t);
      TurnLeft(grand, p.up.up, Repainting(p, t));
      TurnDownStep(h, Snap(), p, t, b, owned, items);
    }

    /** One turn of the loop when the parent is a left child. */
    method FixLeft(start: Node, ghost p: Spine, ghost t: Shape, ghost b: nat, ghost items: seq<Entry>)
      returns (node: Node, ghost p': Spine, ghost t': Shape, ghost b': nat)
      requires Fixing(Snap(), p, t, b, owned, items) && sentinel !in owned && start == t.node
      requires !p.Root? && p.red && p.up.InLeft?
      modifies this`root, owned
      ensures Fixing(Snap(), p', t', b', owned, items) && node == t'.node && Depth(p') < Depth(p)
    {
      node := start;
      Ancestors(Snap(), p, t, b, owned, items);
      var temp := node.parent.parent.right;
      if temp.red {
        node := FixRedUncle(node, temp, p, t, b, items);
        p', t', b' := p.up.up, PushedUp(p, t), b + 1;
      } else {
        p', t', b' := p, t, b;
        if node == node.parent.right {
          node := node.parent;
          FixInnerLeft(node, p, t, b, items);
          p', t' := OutSpine(p, t), OutShape(p, t);
        }
        FixOuterLeft(node, p', t', b, items);
        p' := DownSpine(p');
      }
    }

    /** One turn of the loop when the parent is a right child. */
    method FixRight(start: Node, ghost p: Spine, ghost t: Shape, ghost b: nat, ghost items: seq<Entry>)
      returns (node: Node, ghost p': Spine, ghost t': Shape, ghost b': nat)
      requires Fixing(Snap(), p, t, b, owned, items) && sentinel !in owned && start == t.node
      requires !p.Root? && p.red && p.up.InRight?
      modifies this`root, owned
      ensures Fixing(Snap(), p', t', b', owned, items) && node == t'.node && Depth(p') < Depth(p)
    {
      node := start;
      Ancestors(Snap(), p, t, b, owned, items);
      var temp := node.parent.parent.left;
      if temp.red {
        node := FixRedUncle(node, temp, p, t, b, items);
        p', t', b' := p.up.up, PushedUp(p, t), b + 1;
      } else {
        p', t', b' := p, t, b;
        if node == node.parent.left {
          node := node.parent;
          FixInnerRight(node, p, t, b, items);
          p', t' := OutSpine(p, t), OutShape(p, t);
        }
        FixOuterRight(node, p', t', b, items);
        p' := DownSpine(p');
      }
    }

    /** The re-balancing loop of ngx_rbtree_insert. */
    method InsertFixup(start: Node, ghost p0: Spine, ghost t0: Shape, ghost b0: nat, ghost items: seq<Entry>)
      requires Fixing(Snap(), p0, t0, b0, owned, items) && sentinel !in owned && start == t0.node
      requires Sorted(items)
      modifies this`root, this`shape, owned
      ensures Valid() && Items(shape) == items
    {
      var node := start;
      ghost var p, t, b := p0, t0, b0;
      Standing(Snap(), p, t, b, owned, items);
      while node != root && node.parent.red
        invariant Fixing(Snap(), p, t, b, owned, items) && node == t.node
        invariant p.Root? <==> node == root
        invariant !p.Root? ==> node.parent != null && node.parent.red == p.red
        decreases Depth(p)
      {
        Ancestors(Snap(), p, t, b, owned, items);
        if node.parent == node.parent.parent.left {
          node, p, t, b := FixLeft(node, p, t, b, items);
        } else {
          node, p, t, b := FixRight(node, p, t, b, items);
        }
        Standing(Snap(), p, t, b, owned, items);
      }
      BlackenRoot(p, t, b, items);
    }

    /** ngx_rbt_black(*root), which ends the insertion. */
    method BlackenRoot(ghost p: Spine, ghost t: Shape, ghost b: nat, ghost items: seq<Entry>)
      requires Fixing(Snap(), p, t, b, owned, items) && sentinel !in owned && (p.Root? || !p.red)
      requires Sorted(items)
      modifies this`shape, owned`red
      ensures Valid() && Items(shape) == items
    {
      ghost var h := Snap();
      Standing(h, p, t, b, owned, items);
      root.red := false;
      FinishStep(h, Snap(), p, t, b, owned, items);
      shape := Plug(p, if p.Root? then Blacken(t) else t);
    }
  
    /** The four writes that hang the new node in the hole the search ended at. */
    method Attach(temp: Node, left: bool, node: Node)
      requires temp in owned && sentinel !in owned && node !in owned && node != sentinel
      modifies temp, node, this`owned
      ensures owned == old(owned) + {node}
      ensures Attached(old(Snap()), Snap(), temp, left, node, old(node.key))
    {
      if left {
        temp.left := node;
      } else {
        temp.right := node;
      }
      node.parent := temp;
      node.left := sentinel;
      node.right := sentinel;
      node.red := true;
      owned := owned + {node};
    }

    /** The search loop of ngx_rbtree_insert_value; `left` says which child pointer of `temp` it ends at. */
    method Search(start: Node, key: nat) returns (temp: Node, left: bool, ghost p: Spine, ghost t: Shape)
      requires Valid() && root != sentinel && start == root
      ensures Focus(Snap(), p, t) && t.Fork? && t.node == temp && Plug(p, t) == shape
      ensures temp in owned && Child(t, left).Leaf? && Brackets(Hole(p, t, left), key)
    {
      temp := start;
      p, t := Root, shape;
      assert start in owned;
      left := key < temp.key;
      NextDown(Snap(), p, t, left, owned);
      while (if left then temp.left else temp.right) != sentinel
        invariant Focus(Snap(), p, t) && t.Fork? && t.node == temp && Plug(p, t) == shape
        invariant Brackets(p, key) && left == (key < t.key) && temp in owned
        invariant temp.left == Top(t.left, sentinel) && temp.right == Top(t.right, sentinel)
        decreases t
      {
        Descend(p, t, key);
        NextDown(Snap(), p, t, left, owned);
        p, t := Hole(p, t, left), Child(t, left);
        temp := if left then temp.left else temp.right;
        left := key < temp.key;
      }
      Descend(p, t, key);
      NextDown(Snap(), p, t, left, owned);
    }

    /** ngx_rbtree_insert_value */
    method InsertValue(start: Node, node: Node) returns (ghost p: Spine, ghost t: Shape)
      requires Valid() && root != sentinel && start == root && node !in owned && node != sentinel
      modifies this`owned, owned, node
      ensures owned == old(owned) + {node} && sentinel !in owned && t.Fork? && t.node == node
      ensures Fixing(Snap(), p, t, 0, owned, InsertAfterEquals(Items(shape), Entry(node, old(node.key))))
    {
      var temp, left;
      temp, left, p, t := Search(start, node.key);
      ghost var h := Snap();
      ghost var key := node.key;
      Attach(temp, left, node);
      AttachStep(h, Snap(), p, t, left, node, key);
      p, t := Hole(p, t, left), NewLeaf(node, key);
    }

    /** ngx_rbtree_insert, for a tree whose insert function is ngx_rbtree_insert_value. */
    method Insert(node: Node)
      requires Valid() && node !in owned && node != sentinel
      modifies this, owned, node
      ensures Valid() && owned == old(owned) + {node} && sentinel == old(sentinel)
      ensures Items(shape) == InsertAfterEquals(old(Items(shape)), Entry(node, old(node.key)))
    {
      if root == sentinel {
        node.parent := null;
        node.left := sentinel;
        node.right := sentinel;
        node.red := false;
        root := node;
        owned := owned + {node};
        shape := Fork(Leaf, node, node.key, false, Leaf);
        OneNode(Snap(), shape);
        return;
      }
      InsertKeepsSorted(Items(shape), Entry(node, node.key));
      ghost var items := InsertAfterEquals(Items(shape), Entry(node, node.key));
      ghost var p, t := InsertValue(root, node);
      InsertFixup(node, p, t, 0, items);
    }
  
    // ---- delete ----

    /** ngx_rbtree_min */
    method Min(start: Node, ghost p: Spine, ghost t: Shape) returns (node: Node, ghost q: Spine, ghost s: Shape)
      requires Focus(Snap(), p, t) && t.Fork? && t.node == start && Nodes(Plug(p, t)) == owned
      ensures Focus(Snap(), q, s) && s.Fork? && s.left.Leaf? && s.node == node && Leftwards(q, p) && Plug(q, s) == Plug(p, t)
      ensures node in owned && node.left == sentinel && node.right == Top(s.right, sentinel)
    {
      node, q, s := start, p, t;
      NextDown(Snap(), q, s, true, owned);
      PlugNodes(p, t);
      while node.left != sentinel
        invariant Focus(Snap(), q, s) && s.Fork? && s.node == node && Leftwards(q, p) && Plug(q, s) == Plug(p, t)
        invariant node in owned && node.left == Top(s.left, sentinel) && node.right == Top(s.right, sentinel)
        decreases s
      {
        NextDown(Snap(), q, s, true, owned);
        q, s := Hole(q, s, true), s.left;
        node := node.left;
        NextDown(Snap(), q, s, true, owned);
      }
      NextDown(Snap(), q, s, true, owned);
    }

    /** The node to delete is the root and has at most one child. */
    method Unroot(node: Node, temp: Node)
      requires node == root && node in owned && sentinel !in owned && temp in owned + {sentinel} && temp != node
      modifies this`root, this`owned, node, temp
      ensures owned == old(owned) - {node}
      ensures Unrooted(old(Snap()), Snap(), node, temp)
      ensures Blank(node)
    {
      root := temp;
      temp.red := false;
      Clear(node);
    }

    ghost predicate Blank(node: Node)
      reads node
    {
      node.left == null && node.right == null && node.parent == null && node.key == 0
    }

    /** The fields of a deleted node are reset. */
    method Clear(node: Node)
      requires node in owned && node != sentinel
      modifies node, this`owned
      ensures owned == old(owned) - {node}
      ensures Snap() == Forgotten(old(Snap()), node)
      ensures Blank(node)
    {
      node.left := null;
      node.right := null;
      node.parent := null;
      node.key := 0;
      owned := owned - {node};
    }

    /** The child pointer of the parent of `subst` that leads to it is redirected to `temp`. */
    method Unhook(subst: Node, temp: Node)
      requires subst.parent != null && subst.parent in owned && sentinel !in owned
      modifies subst.parent
      ensures Snap() == Rechilded(old(Snap()), old(subst.parent), subst, temp)
    {
      if subst == subst.parent.left {
        subst.parent.left := temp;
      } else {
        subst.parent.right := temp;
      }
    }

    method Hang(node: Node, up: Node?)
      requires node in owned + {sentinel}
      modifies node`parent
      ensures Snap() == Hung(old(Snap()), node, up)
    {
      node.parent := up;
    }

    method CopyPlace(subst: Node, node: Node)
      requires node in owned && subst in owned && sentinel !in owned
      modifies subst
      ensures Snap() == Copied(old(Snap()), subst, node)
    {
      subst.left := node.left;
      subst.right := node.right;
      subst.parent := node.parent;
      subst.red := node.red;
    }

    method Reseat(node: Node, subst: Node)
      requires node in owned && sentinel !in owned && (node != root ==> node.parent != null && node.parent in owned)
      modifies this`root, owned
      ensures Snap() == Reseated(old(Snap()), node, subst)
    {
      if node == root {
        root := subst;
      } else if node == node.parent.left {
        node.parent.left := subst;
      } else {
        node.parent.right := subst;
      }
    }

    method SpliceOut(node: Node, temp: Node)
      requires node in owned && node != root && sentinel !in owned && temp in owned + {sentinel} && temp != node
      requires node.parent != null && node.parent in owned && node.parent != node && node.parent != temp
      modifies this`owned, owned, sentinel
      ensures owned == old(owned) - {node}
      ensures Spliced(old(Snap()), Snap(), node, temp)
      ensures Blank(node)
    {
      Unhook(node, temp);
      temp.parent := node.parent;
      Clear(node);
    }
  
    /** The in-order successor of a node with two children is unhooked and gets the fields of the node. */
    method TakeOver(node: Node, subst: Node, temp: Node)
      requires node in owned && subst in owned && sentinel !in owned && temp in owned + {sentinel}
      requires Replaceable(Snap(), node, subst, temp)
      modifies owned, sentinel
      ensures Snap() == TakenOver(old(Snap()), node, subst, temp)
    {
      Unhook(subst, temp);
      Hang(temp, if subst.parent == node then subst else subst.parent);
      CopyPlace(subst, node);
    }

    /** Its new neighbours learn about it. */
    method HandOver(node: Node, subst: Node)
      requires node in owned && subst in owned && sentinel !in owned && Handover(Snap(), node, subst)
      modifies this`root, this`owned, owned
      ensures owned == old(owned) - {node}
      ensures Snap() == HandedOver(old(Snap()), node, subst)
      ensures Blank(node)
    {
      Reseat(node, subst);
      if subst.left != sentinel {
        Hang(subst.left, subst);
      }
      if subst.right != sentinel {
        Hang(subst.right, subst);
      }
      Clear(node);
    }

    method Promote(node: Node, subst: Node, temp: Node)
      requires node in owned && subst in owned && sentinel !in owned && temp in owned + {sentinel}
      requires Replaceable(Snap(), node, subst, temp)
      modifies this`root, this`owned, owned, sentinel
      ensures owned == old(owned) - {node}
      ensures Replaced(old(Snap()), Snap(), node, subst, temp)
      ensures Blank(node)
    {
      ReplacementReplaces(Snap(), node, subst, temp);
      TakeOver(node, subst, temp);
      HandOver(node, subst);
    }
  
    // ---- the delete fix-up ----

    method DyeTwo(black: Node, red: Node)
      requires black in owned && red in owned && black != red && sentinel !in owned
      modifies owned`red
      ensures Coloured(old(Snap()), Snap(), {red}, {black})
    {
      Dye(black, false);
      Dye(red, true);
    }

    /** The sibling gets the colour of the parent; the parent and the outer nephew turn black. */
    method DyeThree(w: Node, parent: Node, far: Node)
      requires w in owned && parent in owned && far in owned && sentinel !in owned
      requires w != parent && far != parent && far != w
      modifies owned`red
      ensures if old(parent.red) then Coloured(old(Snap()), Snap(), {w}, {parent, far})
              else Coloured(old(Snap()), Snap(), {}, {w, parent, far})
    {
      Dye(w, parent.red);
      Dye(parent, false);
      Dye(far, false);
    }

    method DyeOne(red: Node)
      requires red in owned && sentinel !in owned
      modifies owned`red
      ensures Coloured(old(Snap()), Snap(), {red}, {})
    {
      Dye(red, true);
    }

    method MendRedLeft(parent: Node, w: Node, ghost p: Spine, ghost t: Shape, ghost b: nat, ghost items: seq<Entry>)
      requires Mending(Snap(), p, t, b, owned, items) && sentinel !in owned
      requires p.InLeft? && Red(p.sib) && parent == p.node && w == p.sib.node
      modifies this`root, owned
      ensures Mending(Snap(), RedSibSpine(p), t, b, owned, items) && !Red(RedSibSpine(p).sib)
      ensures Depth(RedSibSpine(p)) == Depth(p) + 1 && RedSibSpine(p).red && RedSibSpine(p).InLeft?
    {
      ghost var h := Snap();
      Siblings(h, p, t, b, owned, items);
      DyeTwo(w, parent);
      RedSibPaint(h, Snap(), p, t);
      TurnLeft(parent, p.up, Raised(RedSibPainted(p), t));
      RedSibStep(h, Snap(), p, t, b, owned, items);
    }

    method MendRedRight(parent: Node, w: Node, ghost p: Spine, ghost t: Shape, ghost b: nat, ghost items: seq<Entry>)
      requires Mending(Snap(), p, t, b, owned, items) && sentinel !in owned
      requires p.InRight? && Red(p.sib) && parent == p.node && w == p.sib.node
      modifies this`root, owned
      ensures Mending(Snap(), RedSibSpine(p), t, b, owned, items) && !Red(RedSibSpine(p).sib)
      ensures Depth(RedSibSpine(p)) == Depth(p) + 1 && RedSibSpine(p).red && RedSibSpine(p).InRight?
    {
      ghost var h := Snap();
      Siblings(h, p, t, b, owned, items);
      DyeTwo(w, parent);
      RedSibPaint(h, Snap(), p, t);
      TurnRight(parent, p.up, Raised(RedSibPainted(p), t));
      RedSibStep(h, Snap(), p, t, b, owned, items);
    }

    method MendInnerLeft(w: Node, ghost p: Spine, ghost t: Shape, ghost b: nat, ghost items: seq<Entry>)
      requires Mending(Snap(), p, t, b, owned, items) && sentinel !in owned
      requires p.InLeft? && p.sib.Fork? && !p.sib.red && w == p.sib.node && Red(p.sib.left) && !Red(Far(p.sib, p.InLeft?))
      modifies this`root, owned
      ensures Mending(Snap(), WithSib(p, InnerRedSib(p)), t, b, owned, items) && Red(Far(InnerRedSib(p), p.InLeft?))
    {
      ghost var h := Snap();
      Siblings(h, p, t, b, owned, items);
      DyeTwo(w.left, w);
      InnerPaint(h, Snap(), p, t);
      TurnRight(w, Across(p, t), InnerPainted(p));
      InnerStep(h, Snap(), p, t, b, owned, items);
    }

    method MendInnerRight(w: Node, ghost p: Spine, ghost t: Shape, ghost b: nat, ghost items: seq<Entry>)
      requires Mending(Snap(), p, t, b, owned, items) && sentinel !in owned
      requires p.InRight? && p.sib.Fork? && !p.sib.red && w == p.sib.node && Red(p.sib.right) && !Red(Far(p.sib, p.InLeft?))
      modifies this`root, owned
      ensures Mending(Snap(), WithSib(p, InnerRedSib(p)), t, b, owned, items) && Red(Far(InnerRedSib(p), p.InLeft?))
    {
      ghost var h := Snap();
      Siblings(h, p, t, b, owned, items);
      DyeTwo(w.right, w);
      InnerPaint(h, Snap(), p, t);
      TurnLeft(w, Across(p, t), InnerPainted(p));
      InnerStep(h, Snap(), p, t, b, owned, items);
    }

    method MendOuterLeft(parent: Node, w: Node, ghost p: Spine, ghost t: Shape, ghost b: nat, ghost items: seq<Entry>)
      returns (ghost b': nat)
      requires Mending(Snap(), p, t, b, owned, items) && sentinel !in owned && !Red(t)
      requires p.InLeft? && p.sib.Fork? && !p.sib.red && parent == p.node && w == p.sib.node && Red(p.sib.right)
      modifies this`root, owned
      ensures Mending(Snap(), Root, Plug(p.up, OuterRedShape(p, t)), b', owned, items)
    {
      ghost var h := Snap();
      Siblings(h, p, t, b, owned, items);
      DyeThree(w, parent, w.right);
      OuterPaint(h, Snap(), p, t);
      TurnLeft(parent, p.up, Raised(OuterPainted(p), t));
      b' := OuterStep(h, Snap(), p, t, b, owned, items);
    }

    method MendOuterRight(parent: Node, w: Node, ghost p: Spine, ghost t: Shape, ghost b: nat, ghost items: seq<Entry>)
      returns (ghost b': nat)
      requires Mending(Snap(), p, t, b, owned, items) && sentinel !in owned && !Red(t)
      requires p.InRight? && p.sib.Fork? && !p.sib.red && parent == p.node && w == p.sib.node && Red(p.sib.left)
      modifies this`root, owned
      ensures Mending(Snap(), Root, Plug(p.up, OuterRedShape(p, t)), b', owned, items)
    {
      ghost var h := Snap();
      Siblings(h, p, t, b, owned, items);
      DyeThree(w, parent, w.left);
      OuterPaint(h, Snap(), p, t);
      TurnRight(parent, p.up, Raised(OuterPainted(p), t));
      b' := OuterStep(h, Snap(), p, t, b, owned, items);
    }

    /** One turn of the loop when the focus is a left child. */
    method MendLeft(start: Node, ghost p: Spine, ghost t: Shape, ghost b: nat, ghost items: seq<Entry>)
      returns (temp: Node, ghost p': Spine, ghost t': Shape, ghost b': nat)
      requires Mending(Snap(), p, t, b, owned, items) && sentinel !in owned
      requires p.InLeft? && !Red(t) && start == Top(t, sentinel)
      modifies this`root, owned
      ensures Mending(Snap(), p', t', b', owned, items) && temp == Top(t', sentinel)
      ensures Fuel(p', t') < Fuel(p, t)
    {
      Siblings(Snap(), p, t, b, owned, items);
      var parent := start.parent;
      var w := parent.right;
      p' := p;
      if w.red {
        MendRedLeft(parent, w, p, t, b, items);
        p' := RedSibSpine(p);
        Siblings(Snap(), p', t, b, owned, items);
        w := parent.right;
      }
      temp, p', t', b' := MendBlackLeft(parent, w, p', t, b, items);
    }

    /** The rest of the turn, once the sibling is black. */
    method MendBlackLeft(parent: Node, sibling: Node, ghost p: Spine, ghost t: Shape, ghost b: nat, ghost items: seq<Entry>)
      returns (temp: Node, ghost p': Spine, ghost t': Shape, ghost b': nat)
      requires Mending(Snap(), p, t, b, owned, items) && sentinel !in owned
      requires p.InLeft? && !Red(t) && parent == p.node && p.sib.Fork? && !p.sib.red && sibling == p.sib.node
      modifies this`root, owned
      ensures Mending(Snap(), p', t', b', owned, items) && temp == Top(t', sentinel)
      ensures Fuel(p', t') <= 2 * Depth(p) - 2 + (if p.red then 0 else 1)
    {
      Siblings(Snap(), p, t, b, owned, items);
      var w := sibling;
      if !w.left.red && !w.right.red {
        ghost var h := Snap();
        DyeOne(w);
        BlackSibStep(h, Snap(), p, t, b, owned, items);
        BlackSibFuel(p, t);
        temp := parent;
        p', t', b' := p.up, BlackSibShape(p, t), if p.red then b else b + 1;
      } else {
        SiblingExists(p, t, b);
        temp, p', t', b' := MendNephewLeft(parent, w, p, t, b, items);
      }
    }

    /** One of the children of the black sibling is red: the loop ends at the root. */
    method MendNephewLeft(parent: Node, sibling: Node, ghost p: Spine, ghost t: Shape, ghost b: nat, ghost items: seq<Entry>)
      returns (temp: Node, ghost p': Spine, ghost t': Shape, ghost b': nat)
      requires Mending(Snap(), p, t, b, owned, items) && sentinel !in owned
      requires p.InLeft? && !Red(t) && parent == p.node && p.sib.Fork? && !p.sib.red && sibling == p.sib.node
      requires Red(p.sib.left) || Red(p.sib.right)
      modifies this`root, owned
      ensures Mending(Snap(), p', t', b', owned, items) && temp == Top(t', sentinel)
      ensures p'.Root?
    {
      Siblings(Snap(), p, t, b, owned, items);
      var w := sibling;
      p' := p;
      if !w.right.red {
        MendInnerLeft(w, p, t, b, items);
        p' := WithSib(p, InnerRedSib(p));
        Siblings(Snap(), p', t, b, owned, items);
        w := parent.right;
      }
      b' := MendOuterLeft(parent, w, p', t, b, items);
      p', t' := Root, Plug(p'.up, OuterRedShape(p', t));
      temp := root;
    }

    /** One turn of the loop when the focus is a right child. */
    method MendRight(start: Node, ghost p: Spine, ghost t: Shape, ghost b: nat, ghost items: seq<Entry>)
      returns (temp: Node, ghost p': Spine, ghost t': Shape, ghost b': nat)
      requires Mending(Snap(), p, t, b, owned, items) && sentinel !in owned
      requires p.InRight? && !Red(t) && start == Top(t, sentinel)
      modifies this`root, owned
      ensures Mending(Snap(), p', t', b', owned, items) && temp == Top(t', sentinel)
      ensures Fuel(p', t') < Fuel(p, t)
    {
      Siblings(Snap(), p, t, b, owned, items);
      var parent := start.parent;
      var w := parent.left;
      p' := p;
      if w.red {
        MendRedRight(parent, w, p, t, b, items);
        p' := RedSibSpine(p);
        Siblings(Snap(), p', t, b, owned, items);
        w := parent.left;
      }
      temp, p', t', b' := MendBlackRight(parent, w, p', t, b, items);
    }

    /** The rest of the turn, once the sibling is black. */
    method MendBlackRight(parent: Node, sibling: Node, ghost p: Spine, ghost t: Shape, ghost b: nat, ghost items: seq<Entry>)
      returns (temp: Node, ghost p': Spine, ghost t': Shape, ghost b': nat)
      requires Mending(Snap(), p, t, b, owned, items) && sentinel !in owned
      requires p.InRight? && !Red(t) && parent == p.node && p.sib.Fork? && !p.sib.red && sibling == p.sib.node
      modifies this`root, owned
      ensures Mending(Snap(), p', t', b', owned, items) && temp == Top(t', sentinel)
      ensures Fuel(p', t') <= 2 * Depth(p) - 2 + (if p.red then 0 else 1)
    {
      Siblings(Snap(), p, t, b, owned, items);
      var w := sibling;
      if !w.left.red && !w.right.red {
        ghost var h := Snap();
        DyeOne(w);
        BlackSibStep(h, Snap(), p, t, b, owned, items);
        BlackSibFuel(p, t);
        temp := parent;
        p', t', b' := p.up, BlackSibShape(p, t), if p.red then b else b + 1;
      } else {
        SiblingExists(p, t, b);
        temp, p', t', b' := MendNephewRight(parent, w, p, t, b, items);
      }
    }

    /** One of the children of the black sibling is red: the loop ends at the root. */
    method MendNephewRight(parent: Node, sibling: Node, ghost p: Spine, ghost t: Shape, ghost b: nat, ghost items: seq<Entry>)
      returns (temp: Node, ghost p': Spine, ghost t': Shape, ghost b': nat)
      requires Mending(Snap(), p, t, b, owned, items) && sentinel !in owned
      requires p.InRight? && !Red(t) && parent == p.node && p.sib.Fork? && !p.sib.red && sibling == p.sib.node
      requires Red(p.sib.left) || Red(p.sib.right)
      modifies this`root, owned
      ensures Mending(Snap(), p', t', b', owned, items) && temp == Top(t', sentinel)
      ensures p'.Root?
    {
      Siblings(Snap(), p, t, b, owned, items);
      var w := sibling;
      p' := p;
      if !w.left.red {
        MendInnerRight(w, p, t, b, items);
        p' := WithSib(p, InnerRedSib(p));
        Siblings(Snap(), p', t, b, owned, items);
        w := parent.left;
      }
      b' := MendOuterRight(parent, w, p', t, b, items);
      p', t' := Root, Plug(p'.up, OuterRedShape(p', t));
      temp := root;
    }

    /** The fix-up loop of ngx_rbtree_delete. */
    method DeleteFixup(start: Node, ghost p0: Spine, ghost t0: Shape, ghost b0: nat, ghost items: seq<Entry>)
      requires Mending(Snap(), p0, t0, b0, owned, items) && sentinel !in owned && start == Top(t0, sentinel)
      requires Sorted(items)
      modifies this`root, this`shape, owned, sentinel
      ensures Valid() && Items(shape) == items
    {
      var temp := start;
      ghost var p, t, b := p0, t0, b0;
      Guard(Snap(), p, t, b, owned, items);
      while temp != root && !temp.red
        invariant Mending(Snap(), p, t, b, owned, items) && temp == Top(t, sentinel)
        invariant (p.Root? <==> temp == root) && temp.red == Red(t)
        decreases Fuel(p, t)
      {
        Siblings(Snap(), p, t, b, owned, items);
        if temp == temp.parent.left {
          temp, p, t, b := MendLeft(temp, p, t, b, items);
        } else {
          temp, p, t, b := MendRight(temp, p, t, b, items);
        }
        Guard(Snap(), p, t, b, owned, items);
      }
      BlackenFocus(temp, p, t, b, items);
    }

    /** The focus turns black, which ends the deletion; it may be the sentinel. */
    method BlackenFocus(temp: Node, ghost p: Spine, ghost t: Shape, ghost b: nat, ghost items: seq<Entry>)
      requires Mending(Snap(), p, t, b, owned, items) && sentinel !in owned && temp == Top(t, sentinel)
      requires (p.Root? || Red(t)) && Sorted(items)
      modifies this`shape, owned`red, sentinel`red
      ensures Valid() && Items(shape) == items
    {
      ghost var h := Snap();
      Guard(h, p, t, b, owned, items);
      temp.red := false;
      assert Snap() == Dyed(h, temp, false);
      MendFinish(h, Snap(), p, t, b, owned, items);
      shape := Plug(p, Blacken(t));
    }
  
    // ---- ngx_rbtree_delete ----

    /** The end of a deletion: nothing to repair if the unhooked node was red, else the fix-up. */
    method Settle(temp: Node, red: bool, ghost p: Spine, ghost t: Shape, ghost b: nat, ghost items: seq<Entry>)
      requires Departed(Snap(), p, t, red, b, owned, items) && sentinel !in owned && temp == Top(t, sentinel)
      modifies this`root, this`shape, owned, sentinel
      ensures Valid() && Items(shape) == items
    {
      if red {
        GoTop(Snap(), p, t);
        shape := Plug(p, t);
      } else {
        DeleteFixup(temp, p, t, b, items);
      }
    }

    /** The tree is `whole`, and it is a red-black tree in key order. */
    ghost predicate Holds(whole: Shape)
      reads `owned
    {
      owned == Nodes(whole) && RedBlack(whole) && Sorted(Items(whole))
    }

    /** Deletion of a root with at most one child, `temp`. */
    method DeleteRoot(node: Node, temp: Node, ghost t: Shape)
      requires Holds(t) && Focus(Snap(), Root, t) && HalfEmpty(t)
      requires t.node == node && temp == Top(OnlyChild(t), sentinel) && node in owned && sentinel !in owned
      requires temp in owned + {sentinel} && temp != node && node == root
      modifies this, owned, sentinel
      ensures Valid() && owned == old(owned) - {node} && sentinel == old(sentinel)
      ensures Items(shape) == Removed(Items(t), node)
      ensures Blank(node)
    {
      ghost var h := Snap();
      Unroot(node, temp);
      UnrootStep(h, Snap(), t);
      Settle(temp, true, Root, Blacken(OnlyChild(t)), 0, Removed(Items(t), node));
    }

    /** Deletion of any other node with at most one child, `temp`. */
    method DeleteHalf(node: Node, temp: Node, ghost p: Spine, ghost t: Shape)
      requires Holds(Plug(p, t)) && Focus(Snap(), p, t) && HalfEmpty(t) && !p.Root?
      requires t.node == node && temp == Top(OnlyChild(t), sentinel) && node in owned && sentinel !in owned
      requires temp in owned + {sentinel} && temp != node && node.red == t.red && node != root
      requires node.parent != null && node.parent in owned && node.parent != node && node.parent != temp
      modifies this, owned, sentinel
      ensures Valid() && owned == old(owned) - {node} && sentinel == old(sentinel)
      ensures Items(shape) == Removed(Items(Plug(p, t)), node)
      ensures Blank(node)
    {
      hide Focus, RedBlack, Sorted, Items, Plug, Spliced, Departed, Removed, HalfEmpty;
      ghost var h := Snap();
      var red := node.red;
      SpliceOut(node, temp);
      ghost var b := SpliceStep(h, Snap(), p, t);
      Settle(temp, red, p, OnlyChild(t), b, Removed(Items(Plug(p, t)), node));
    }

    /** Deletion of a node with two children: its in-order successor `subst` takes its place. */
    method DeletePromoted(node: Node, subst: Node, temp: Node, ghost q: Spine, ghost base: Spine, ghost s: Shape)
      requires Holds(Plug(q, s)) && Around(Snap(), q, base, s)
      requires base.node == node && s.node == subst && temp == Top(s.right, sentinel) && subst.red == s.red
      requires node in owned && subst in owned && sentinel !in owned && temp in owned + {sentinel}
      modifies this, owned, sentinel
      ensures Valid() && owned == old(owned) - {node} && sentinel == old(sentinel)
      ensures Items(shape) == Removed(Items(Plug(q, s)), node)
      ensures Blank(node)
    {
      hide Focus, RedBlack, Sorted, Items, Plug, LeftMost, Replaced, Replaceable, Departed, Removed, Promoted;
      ghost var h := Snap();
      AroundReplaceable(h, q, base, s);
      var red := subst.red;
      Promote(node, subst, temp);
      ghost var b := PromoteStep(h, Snap(), q, base, s);
      Settle(temp, red, Promoted(q, base, subst, s.key), s.right, b, Removed(Items(Plug(q, s)), node));
    }

    method DeleteSmall(node: Node, temp: Node, ghost p: Spine, ghost t: Shape)
      requires Holds(Plug(p, t)) && Focus(Snap(), p, t) && HalfEmpty(t) && (p.Root? <==> node == root)
      requires t.node == node && temp == Top(OnlyChild(t), sentinel) && node in owned && sentinel !in owned
      requires temp in owned + {sentinel} && temp != node && node.red == t.red
      requires node != root ==> node.parent != null && node.parent in owned && node.parent != node && node.parent != temp
      modifies this, owned, sentinel
      ensures Valid() && owned == old(owned) - {node} && sentinel == old(sentinel)
      ensures Items(shape) == Removed(Items(Plug(p, t)), node)
      ensures Blank(node)
    {
      if node == root {
        DeleteRoot(node, temp, t);
      } else {
        DeleteHalf(node, temp, p, t);
      }
    }

    /** ngx_rbtree_delete */
    method Delete(node: Node)
      requires Valid() && node in owned
      modifies this, owned, sentinel
      ensures Valid() && owned == old(owned) - {node} && sentinel == old(sentinel)
      ensures Items(shape) == Removed(old(Items(shape)), node)
      ensures Blank(node)
    {
      ghost var p, t := FocusOn(Snap(), shape, node);
      if node.left == sentinel {
        DeleteSmall(node, node.right, p, t);
      } else if node.right == sentinel {
        DeleteSmall(node, node.left, p, t);
      } else {
        ghost var base := InRight(p, t.left, node, t.key, t.red);
        GoRight(Snap(), p, t);
        var subst;
        ghost var q, s;
        subst, q, s := Min(node.right, base, t.right);
        // Min leaves the left child of its result empty, so the source's other choice, subst.left, is never made.
        var temp := subst.right;
        DeletePromoted(node, subst, temp, q, base, s);
      }
    }
  
    // ---- iteration ----

    /** ngx_rbtree_next */
    method Next(start: Node) returns (next: Node?)
      requires Valid() && start in owned
      ensures Follows(Items(shape), start, next)
      ensures next != null ==> next in owned
    {
      ghost var p, t := FocusOn(Snap(), shape, start);
      if start.right != sentinel {
        GoRight(Snap(), p, t);
        ghost var q, s;
        next, q, s := Min(start.right, InRight(p, t.left, start, t.key, t.red), t.right);
        RightThenLeft(q, s, p, t);
        return;
      }
      var node := start;
      while true
        invariant Focus(Snap(), p, t) && t.Fork? && t.node == node && Plug(p, t) == shape && LastOf(t, start)
        decreases Depth(p)
      {
        Hangs(Snap(), p, t);
        PlugNodes(p, t);
        var parent := node.parent;
        if node == root {
          UpFollows(p, t, start);
          return null;
        }
        assert p.node in SpineNodes(p);
        if node == parent.left {
          UpFollows(p, t, start);
          return parent;
        }
        GoUp(Snap(), p, t);
        LastRaised(p, t, start);
        p, t := p.up, Raised(p, t);
        node := parent;
      }
    }

    /** A walk from the minimum along ngx_rbtree_next meets every node once, in order, and stops. */
    method Walk() returns (visited: seq<Node>)
      requires Valid()
      ensures |visited| == |Items(shape)|
      ensures forall i :: 0 <= i < |visited| ==> visited[i] == Items(shape)[i].node
    {
      visited := [];
      if root == sentinel {
        return;
      }
      ghost var items := Items(shape);
      var first;
      ghost var q, s;
      first, q, s := Min(root, Root, shape);
      FirstItem(q, s);
      var node: Node? := first;
      while node != null
        invariant |visited| <= |items|
        invariant forall i :: 0 <= i < |visited| ==> visited[i] == items[i].node
        invariant node != null ==> node in owned
        invariant node == if |visited| < |items| then items[|visited|].node else null
        decreases |items| - |visited|
      {
        visited := visited + [node];
        var next := Next(node);
        FollowsUnique(shape, |visited| - 1, next);
        node := next;
      }
    }
  }
}
