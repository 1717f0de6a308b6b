/** The doubly linked lists that run through page headers, list heads included. */
module SlabList {

  const NULL := -1

  /**
   ngx_slab_page_t. Headers live in one array: the pages, the free-list head and the slot heads; a pointer to a
   header is its index. The two type bits in the low end of the source's prev word are the field `tag`.
   */
  datatype Header = Header(slab: nat, next: int, prev: int, tag: nat)

  function WithNext(h: seq<Header>, i: int, r: int): seq<Header>
    requires 0 <= i < |h|
  {
    h[i := h[i].(next := r)]
  }

  function WithPrev(h: seq<Header>, i: int, r: int, tag: nat): seq<Header>
    requires 0 <= i < |h|
  {
    h[i := h[i].(prev := r, tag := tag)]
  }

  function WithSlab(h: seq<Header>, i: int, w: nat): seq<Header>
    requires 0 <= i < |h|
  {
    h[i := h[i].(slab := w)]
  }

  /** Element i of the ring; the head closes it at both ends. */
  function At(head: int, list: seq<int>, i: int): int {
    if 0 <= i < |list| then list[i] else head
  }

  ghost predicate Distinct(list: seq<int>) {
    forall i, j :: 0 <= i < j < |list| ==> list[i] != list[j]
  }

  ghost predicate Within(h: seq<Header>, head: int, list: seq<int>) {
    0 <= head < |h| && forall i :: 0 <= i < |list| ==> 0 <= list[i] < |h| && list[i] != head
  }

  ghost predicate Fwd(h: seq<Header>, head: int, list: seq<int>, i: int) {
    0 <= At(head, list, i) < |h| && h[At(head, list, i)].next == At(head, list, i + 1)
  }

  ghost predicate Back(h: seq<Header>, head: int, list: seq<int>, i: int) {
    0 <= At(head, list, i) < |h| && h[At(head, list, i)].prev == At(head, list, i - 1)
  }

  /** The next pointers run from the head through the list back to the head, the prev pointers of its elements back. */
  ghost predicate Chain(h: seq<Header>, head: int, list: seq<int>) {
    && Within(h, head, list) && Distinct(list)
    && (forall i :: -1 <= i < |list| ==> Fwd(h, head, list, i))
    && (forall i :: 0 <= i < |list| ==> Back(h, head, list, i))
  }

  ghost function Without(list: seq<int>, k: nat): seq<int>
    requires k < |list|
  {
    list[..k] + list[k + 1..]
  }

  lemma InsideChain(h: seq<Header>, head: int, list: seq<int>, k: nat)
    requires Chain(h, head, list) && k < |list|
    ensures 0 <= list[k] < |h| && h[list[k]].prev == At(head, list, k - 1) && h[list[k]].next == At(head, list, k + 1)
    ensures 0 <= h[list[k]].prev < |h| && 0 <= h[list[k]].next < |h|
    ensures h[list[k]].prev != list[k] && h[list[k]].next != list[k]
  {
    assert Fwd(h, head, list, k) && Back(h, head, list, k);
  }

  /** The neighbours of x are linked to each other. */
  function Unlinked(h: seq<Header>, x: int): seq<Header>
    requires 0 <= x < |h| && 0 <= h[x].prev < |h| && 0 <= h[x].next < |h|
    requires h[x].prev != x
  {
    var g := WithNext(h, h[x].prev, h[x].next);
    WithPrev(g, g[x].next, g[x].prev, g[x].tag)
  }

  lemma UnlinkedCells(h: seq<Header>, x: int)
    requires 0 <= x < |h| && 0 <= h[x].prev < |h| && 0 <= h[x].next < |h| && h[x].prev != x && h[x].next != x
    ensures |Unlinked(h, x)| == |h|
    ensures forall i :: 0 <= i < |h| ==>
      Unlinked(h, x)[i] == Header(h[i].slab, if i == h[x].prev then h[x].next else h[i].next,
                                  if i == h[x].next then h[x].prev else h[i].prev,
                                  if i == h[x].next then h[x].tag else h[i].tag)
  {
  }

  lemma AtWithout(head: int, list: seq<int>, k: nat, i: int)
    requires k < |list| && -1 <= i <= |list| - 1
    ensures At(head, Without(list, k), i) == At(head, list, if i < k then i else i + 1)
  {
  }

  lemma UnlinkedNext(h: seq<Header>, head: int, list: seq<int>, k: nat, j: int)
    requires Chain(h, head, list) && k < |list| && -1 <= j < |list| && j != k
    requires 0 <= list[k] < |h| && 0 <= h[list[k]].prev < |h| && 0 <= h[list[k]].next < |h| && h[list[k]].prev != list[k]
    ensures 0 <= At(head, list, j) < |h|
    ensures Unlinked(h, list[k])[At(head, list, j)].next == At(head, list, if j + 1 == k then k + 1 else j + 1)
  {
    InsideChain(h, head, list, k);
    UnlinkedCells(h, list[k]);
    assert Fwd(h, head, list, j);
    AtInjective(head, list, j, k - 1);
  }

  lemma UnlinkedPrev(h: seq<Header>, head: int, list: seq<int>, k: nat, j: nat)
    requires Chain(h, head, list) && k < |list| && j < |list| && j != k
    requires 0 <= list[k] < |h| && 0 <= h[list[k]].prev < |h| && 0 <= h[list[k]].next < |h| && h[list[k]].prev != list[k]
    ensures 0 <= list[j] < |h|
    ensures Unlinked(h, list[k])[list[j]].prev == At(head, list, if j - 1 == k then k - 1 else j - 1)
  {
    InsideChain(h, head, list, k);
    UnlinkedCells(h, list[k]);
    assert Back(h, head, list, j);
    AtInjective(head, list, j, k + 1);
  }

  lemma WithoutMembers(list: seq<int>, k: nat)
    requires Distinct(list) && k < |list|
    ensures Distinct(Without(list, k)) && list[k] !in Without(list, k)
    ensures forall x :: x in Without(list, k) <==> x in list && x != list[k]
  {
    var rest := Without(list, k);
    forall i | 0 <= i < |rest| ensures rest[i] == list[if i < k then i else i + 1] {}
    forall x | x in list && x != list[k]
      ensures x in rest
    {
      var i :| 0 <= i < |list| && list[i] == x;
      assert rest[if i < k then i else i - 1] == x;
    }
  }

  lemma WithoutInside(h: seq<Header>, head: int, list: seq<int>, k: nat)
    requires Within(h, head, list) && Distinct(list) && k < |list|
    ensures Within(h, head, Without(list, k)) && Distinct(Without(list, k))
    ensures list[k] !in Without(list, k)
    ensures forall x :: x in Without(list, k) <==> x in list && x != list[k]
  {
    WithoutMembers(list, k);
    var rest := Without(list, k);
    forall i | 0 <= i < |rest| ensures rest[i] == list[if i < k then i else i + 1] {}
  }

  lemma UnlinkChain(h: seq<Header>, head: int, list: seq<int>, k: nat)
    requires Chain(h, head, list) && k < |list|
    ensures 0 <= list[k] < |h| && 0 <= h[list[k]].prev < |h| && 0 <= h[list[k]].next < |h| && h[list[k]].prev != list[k]
    ensures Chain(Unlinked(h, list[k]), head, Without(list, k))
  {
    InsideChain(h, head, list, k);
    WithoutInside(h, head, list, k);
    var g, rest := Unlinked(h, list[k]), Without(list, k);
    forall i | -1 <= i < |rest|
      ensures Fwd(g, head, rest, i)
    {
      AtWithout(head, list, k, i);
      AtWithout(head, list, k, i + 1);
      UnlinkedNext(h, head, list, k, if i < k then i else i + 1);
    }
    forall i | 0 <= i < |rest|
      ensures Back(g, head, rest, i)
    {
      AtWithout(head, list, k, i);
      AtWithout(head, list, k, i - 1);
      UnlinkedPrev(h, head, list, k, if i < k then i else i + 1);
    }
  }

  lemma AtInjective(head: int, list: seq<int>, i: int, j: int)
    requires Distinct(list) && forall k :: 0 <= k < |list| ==> list[k] != head
    requires -1 <= i <= |list| && -1 <= j <= |list|
    ensures At(head, list, i) == At(head, list, j) <==>
      i == j || (i in {-1, |list|} && j in {-1, |list|})
  {
  }

  /** x becomes the first element behind the head. */
  function Pushed(h: seq<Header>, head: int, x: int, tag: nat): seq<Header>
    requires 0 <= head < |h| && 0 <= x < |h| && x != head && 0 <= h[head].next < |h|
  {
    var first := h[head].next;
    WithNext(WithPrev(WithPrev(WithNext(h, x, first), x, head, tag), first, x, tag), head, x)
  }

  lemma PushChain(h: seq<Header>, head: int, list: seq<int>, x: int, tag: nat)
    requires Chain(h, head, list) && 0 <= x < |h| && x != head && x !in list
    ensures 0 <= h[head].next < |h|
    ensures Chain(Pushed(h, head, x, tag), head, [x] + list)
  {
    assert Fwd(h, head, list, -1);
    var g, more := Pushed(h, head, x, tag), [x] + list;
    forall i | -1 <= i < |more|
      ensures Fwd(g, head, more, i)
    {
      if i > 0 { assert Fwd(h, head, list, i - 1); }
    }
    forall i | 0 <= i < |more|
      ensures Back(g, head, more, i)
    {
      if i > 0 { assert Back(h, head, list, i - 1); }
    }
  }

  /** A chain only depends on the links of its own headers. */
  lemma ChainKept(h: seq<Header>, g: seq<Header>, head: int, list: seq<int>)
    requires Chain(h, head, list) && |g| == |h|
    requires g[head].next == h[head].next
    requires forall i :: 0 <= i < |list| ==> g[list[i]].next == h[list[i]].next && g[list[i]].prev == h[list[i]].prev
    ensures Chain(g, head, list)
  {
    forall i | -1 <= i < |list|
      ensures Fwd(g, head, list, i)
    {
      assert Fwd(h, head, list, i);
    }
    forall i | 0 <= i < |list|
      ensures Back(g, head, list, i)
    {
      assert Back(h, head, list, i);
    }
  }

  /** Header y stands where x stood. */
  ghost predicate Substituted(h: seq<Header>, g: seq<Header>, head: int, x: int, y: int) {
    && |g| == |h| && 0 <= x < |h| && 0 <= y < |h| && y != head && x != y
    && g[y].next == h[x].next && g[y].prev == h[x].prev
    && (forall i :: 0 <= i < |h| && i != x && i != y ==> g[i].next == if i == h[x].prev then y else h[i].next)
    && (forall i :: 0 <= i < |h| && i != x && i != y && i != head ==> g[i].prev == if i == h[x].next then y else h[i].prev)
  }

  lemma ReplaceNext(h: seq<Header>, g: seq<Header>, head: int, list: seq<int>, k: nat, y: int, i: int)
    requires Chain(h, head, list) && k < |list| && y !in list && Substituted(h, g, head, list[k], y)
    requires -1 <= i < |list|
    ensures 0 <= At(head, list[k := y], i) < |g|
    ensures g[At(head, list[k := y], i)].next == At(head, list[k := y], i + 1)
  {
    InsideChain(h, head, list, k);
    assert Fwd(h, head, list, i);
    AtInjective(head, list, i, k - 1);
    AtInjective(head, list, i, k);
  }

  lemma ReplacePrev(h: seq<Header>, g: seq<Header>, head: int, list: seq<int>, k: nat, y: int, i: nat)
    requires Chain(h, head, list) && k < |list| && y !in list && Substituted(h, g, head, list[k], y)
    requires i < |list|
    ensures 0 <= list[k := y][i] < |g|
    ensures g[list[k := y][i]].prev == At(head, list[k := y], i - 1)
  {
    InsideChain(h, head, list, k);
    assert Back(h, head, list, i);
    AtInjective(head, list, i, k + 1);
    AtInjective(head, list, i, k);
  }

  /** Element k hands its links to a header that was not in the list. */
  lemma ReplaceChain(h: seq<Header>, g: seq<Header>, head: int, list: seq<int>, k: nat, y: int)
    requires Chain(h, head, list) && k < |list| && y !in list && Substituted(h, g, head, list[k], y)
    ensures Chain(g, head, list[k := y])
  {
    var new' := list[k := y];
    forall i | -1 <= i < |new'|
      ensures Fwd(g, head, new', i)
    {
      ReplaceNext(h, g, head, list, k, y, i);
    }
    forall i | 0 <= i < |new'|
      ensures Back(g, head, new', i)
    {
      ReplacePrev(h, g, head, list, k, y, i);
    }
  }
}
