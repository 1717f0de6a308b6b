/** Taking pages out of a free run. */
module SlabAlloc {
  import opened SlabList
  import opened SlabView

  /** The uses of the pages after the first `pages` pages of the free run at x were taken. */
  ghost function TakenKind(kind: seq<Kind>, x: nat, len: nat, pages: nat, i: nat): Kind
    requires i < |kind|
  {
    if i == x then RunHead(pages)
    else if x < i < x + pages then RunBody(x)
    else if i == x + pages && pages < len then FreeHead(len - pages)
    else if x + pages < i < x + len then FreeBody(x + pages)
    else kind[i]
  }

  ghost function Taken(kind: seq<Kind>, x: nat, len: nat, pages: nat): seq<Kind> {
    seq(|kind|, i requires 0 <= i < |kind| => TakenKind(kind, x, len, pages, i))
  }

  /** The rest of a split run becomes a free run of its own, in the list place of the old one. */
  function Split(h: seq<Header>, x: int, len: nat, pages: nat): seq<Header>
    requires 0 < pages < len && 0 <= x && x + len <= |h|
    requires 0 <= h[x].prev < |h| && 0 <= h[x].next < |h| && h[x].prev != x && h[x].next != x
  {
    var g1 := WithPrev(h, x + len - 1, x + pages, TAG_PAGE);
    var g2 := WithPrev(WithNext(WithSlab(g1, x + pages, len - pages), x + pages, g1[x].next), x + pages, g1[x].prev, g1[x].tag);
    var g3 := WithNext(g2, g2[x].prev, x + pages);
    WithPrev(g3, g3[x].next, x + pages, TAG_PAGE)
  }

  function Claimed(h: seq<Header>, x: int, pages: nat): seq<Header>
    requires 0 <= x < |h|
  {
    h[x := Header(START + pages, NULL, NULL, TAG_PAGE)]
  }

  /** Pages from..to as the tail of a multi-page allocation. */
  ghost predicate Busied(h: seq<Header>, g: seq<Header>, from: int, to: int) {
    && |g| == |h|
    && (forall i :: 0 <= i < |h| && from <= i < to ==> g[i] == Header(BUSY, NULL, NULL, TAG_PAGE))
    && (forall i :: 0 <= i < |h| && !(from <= i < to) ==> g[i] == h[i])
  }

  /** The headers after an allocation, one by one. */
  ghost function TakenHeader(h: seq<Header>, x: nat, len: nat, pages: nat, i: nat): Header
    requires i < |h| && x < |h|
  {
    if i == x then Header(START + pages, NULL, NULL, TAG_PAGE)
    else if x < i < x + pages then Header(BUSY, NULL, NULL, TAG_PAGE)
    else if i == x + pages && pages < len then Header(len - pages, h[x].next, h[x].prev, h[x].tag)
    else
      var heir := if pages < len then x + pages else h[x].next;
      var back := if pages < len then x + pages else h[x].prev;
      Header(h[i].slab,
             if i == h[x].prev then heir else h[i].next,
             if i == h[x].next then back else if pages < len && i == x + len - 1 then x + pages else h[i].prev,
             if i == h[x].next || (pages < len && i == x + len - 1) then TAG_PAGE else h[i].tag)
  }

  ghost predicate TakenHeaders(h: seq<Header>, g: seq<Header>, x: nat, len: nat, pages: nat) {
    x < |h| && |g| == |h| && forall i :: 0 <= i < |h| ==> g[i] == TakenHeader(h, x, len, pages, i)
  }

  /** The page at x is a free run of `len` pages; its list neighbours are other free heads or the list head. */
  ghost predicate FreeRunAt(v: View, x: nat, len: nat) {
    && x < |v.kind| <= |v.hdr| && v.kind[x] == FreeHead(len)
    && 0 <= v.hdr[x].prev < |v.hdr| && 0 <= v.hdr[x].next < |v.hdr|
    && v.hdr[x].prev != x && v.hdr[x].next != x
    && (v.hdr[x].prev == FreeRef(v) || (v.hdr[x].prev < |v.kind| && v.kind[v.hdr[x].prev].FreeHead?))
    && (v.hdr[x].next == FreeRef(v) || (v.hdr[x].next < |v.kind| && v.kind[v.hdr[x].next].FreeHead?))
  }

  lemma FreeRun(v: View, k: nat)
    requires Headers(v) && FreeList(v) && k < |v.free|
    ensures v.free[k] in v.free && 0 <= v.free[k] < |v.kind| && v.kind[v.free[k]].FreeHead?
    ensures FreeRunAt(v, v.free[k], v.hdr[v.free[k]].slab)
    ensures v.hdr[v.free[k]].slab == v.kind[v.free[k]].len && v.hdr[v.free[k]].tag == TAG_PAGE
    ensures 0 < v.hdr[v.free[k]].slab && v.free[k] + v.hdr[v.free[k]].slab <= |v.kind|
  {
    InsideChain(v.hdr, FreeRef(v), v.free, k);
    var x := v.free[k];
    assert x in v.free;
    assert Tile(v.kind, x) && PageHeader(v.hdr[x], v.kind, v.words, x);
    assert k > 0 ==> v.free[k - 1] in v.free;
    assert k + 1 < |v.free| ==> v.free[k + 1] in v.free;
  }

  lemma SplitHeaders(v: View, x: nat, len: nat, pages: nat, g: seq<Header>)
    requires Headers(v) && FreeRunAt(v, x, len) && 0 < pages < len && v.hdr[x].tag == TAG_PAGE && x + len <= |v.kind|
    requires Busied(Claimed(Split(v.hdr, x, len, pages), x, pages), g, x + 1, x + pages)
    ensures TakenHeaders(v.hdr, g, x, len, pages)
  {
    assert Tile(v.kind, x);
    NeighboursOutside(v, x, len);
  }

  /** The list neighbours of a free run are not among its own pages. */
  lemma NeighboursOutside(v: View, x: nat, len: nat)
    requires Headers(v) && FreeRunAt(v, x, len) && x + len <= |v.kind|
    ensures !(x <= v.hdr[x].prev < x + len) && !(x <= v.hdr[x].next < x + len)
  {
    assert Tile(v.kind, x);
  }

  lemma WholeHeaders(v: View, x: nat, len: nat, g: seq<Header>)
    requires Headers(v) && FreeRunAt(v, x, len) && v.hdr[x].tag == TAG_PAGE && x + len <= |v.kind|
    requires Busied(Claimed(Unlinked(v.hdr, x), x, len), g, x + 1, x + len)
    ensures TakenHeaders(v.hdr, g, x, len, len)
  {
    NeighboursOutside(v, x, len);
    UnlinkedCells(v.hdr, x);
  }

  // ---- the invariant after an allocation ----

  lemma TakenAt(kind: seq<Kind>, x: nat, len: nat, pages: nat)
    ensures |Taken(kind, x, len, pages)| == |kind|
    ensures forall i :: 0 <= i < |kind| ==> Taken(kind, x, len, pages)[i] == TakenKind(kind, x, len, pages, i)
  {
  }

  lemma TakenTiling(kind: seq<Kind>, x: nat, len: nat, pages: nat)
    requires Tiling(kind) && x < |kind| && kind[x] == FreeHead(len) && 0 < pages <= len
    ensures Tiling(Taken(kind, x, len, pages))
  {
    TakenAt(kind, x, len, pages);
    assert Tile(kind, x);
    forall i | 0 <= i < |kind|
      ensures Tile(Taken(kind, x, len, pages), i)
    {
      assert Tile(kind, i);
      TakenTile(kind, x, len, pages, i);
    }
  }

  lemma TakenTile(kind: seq<Kind>, x: nat, len: nat, pages: nat, i: nat)
    requires Tiling(kind) && x < |kind| && kind[x] == FreeHead(len) && 0 < pages <= len && i < |kind|
    ensures i < |Taken(kind, x, len, pages)| && Tile(Taken(kind, x, len, pages), i)
  {
    TakenAt(kind, x, len, pages);
    assert Tile(kind, x) && Tile(kind, i);
    if i < x || x + len <= i {
      OutsideRun(kind, x, i);
    }
  }

  /** A page outside a run belongs to a run that does not overlap it. */
  lemma OutsideRun(kind: seq<Kind>, x: nat, i: nat)
    requires Tiling(kind) && x < |kind| && (kind[x].FreeHead? || kind[x].RunHead? || kind[x].Loose?)
    requires i < |kind| && !(x <= i < x + kind[x].len)
    ensures kind[i].FreeHead? || kind[i].RunHead? || kind[i].Loose? ==> i + kind[i].len <= x || x + kind[x].len <= i
    ensures kind[i].FreeBody? || kind[i].RunBody? || kind[i].LooseBody? ==>
      kind[i].head < |kind| && (kind[i].head < x || x + kind[x].len <= kind[i].head)
  {
    assert Tile(kind, x) && Tile(kind, i);
    if kind[i].FreeBody? || kind[i].RunBody? || kind[i].LooseBody? {
      assert Tile(kind, kind[i].head);
    }
  }

  lemma TakenPages(v: View, g: seq<Header>, x: nat, len: nat, pages: nat)
    requires Headers(v) && FreeRunAt(v, x, len) && 0 < pages <= len && v.hdr[x].tag == TAG_PAGE
    requires TakenHeaders(v.hdr, g, x, len, pages) && |v.kind| < START - 1
    ensures var kind' := Taken(v.kind, x, len, pages);
            Tiling(kind') && forall i :: 0 <= i < |kind'| ==> PageHeader(g[i], kind', v.words, i)
  {
    TakenAt(v.kind, x, len, pages);
    TakenTiling(v.kind, x, len, pages);
    assert Tile(v.kind, x);
    var kind' := Taken(v.kind, x, len, pages);
    forall i | 0 <= i < |kind'|
      ensures PageHeader(g[i], kind', v.words, i)
    {
      assert Tile(v.kind, i) && Tile(kind', i) && PageHeader(v.hdr[i], v.kind, v.words, i);
      TakenPage(v, g, x, len, pages, i);
    }
  }

  lemma TakenPage(v: View, g: seq<Header>, x: nat, len: nat, pages: nat, i: nat)
    requires Headers(v) && FreeRunAt(v, x, len) && 0 < pages <= len && v.hdr[x].tag == TAG_PAGE
    requires TakenHeaders(v.hdr, g, x, len, pages) && i < |v.kind| && |v.kind| < START - 1
    ensures var kind' := Taken(v.kind, x, len, pages);
            |kind'| == |v.kind| && Tile(kind', i) && PageHeader(g[i], kind', v.words, i)
  {
    var kind' := Taken(v.kind, x, len, pages);
    TakenAt(v.kind, x, len, pages);
    TakenTile(v.kind, x, len, pages, i);
    assert Tile(v.kind, x) && Tile(v.kind, i) && PageHeader(v.hdr[i], v.kind, v.words, i);
    NeighboursOutside(v, x, len);
    if i < x || x + len <= i {
      OutsideRun(v.kind, x, i);
      assert kind'[i] == v.kind[i];
      if i == v.hdr[x].prev || i == v.hdr[x].next {
        assert v.kind[i].FreeHead?;
      } else {
        assert g[i] == v.hdr[i];
        if v.kind[i].FreeBody? {
          assert kind'[v.kind[i].head] == v.kind[v.kind[i].head];
        }
      }
    }
  }

  /** The free list afterwards: the rest of the run in the same place, or one element less. */
  ghost function TakenFree(free: seq<int>, k: nat, x: nat, len: nat, pages: nat): seq<int>
    requires k < |free|
  {
    if pages < len then free[k := x + pages] else Without(free, k)
  }

  ghost function AfterAlloc(v: View, g: seq<Header>, k: nat, len: nat, pages: nat): View
    requires k < |v.free| && 0 <= v.free[k]
  {
    v.(hdr := g, pfree := v.pfree - pages, kind := Taken(v.kind, v.free[k], len, pages),
       free := TakenFree(v.free, k, v.free[k], len, pages))
  }

  lemma TakenSplitChain(v: View, g: seq<Header>, k: nat, len: nat, pages: nat)
    requires Headers(v) && FreeList(v) && k < |v.free| && 0 <= v.free[k] && FreeRunAt(v, v.free[k], len) && 0 < pages < len
    requires TakenHeaders(v.hdr, g, v.free[k], len, pages)
    ensures Chain(g, FreeRef(v), v.free[k := v.free[k] + pages]) && v.free[k] + pages !in v.free
  {
    var x := v.free[k];
    assert Tile(v.kind, x);
    NeighboursOutside(v, x, len);
    assert v.kind[x + pages] == FreeBody(x);
    FreeNotInRun(v, x, len);
    forall i | 0 <= i < |g| && i != x && i != x + pages && !(x < i < x + len)
      ensures g[i].next == if i == v.hdr[x].prev then x + pages else v.hdr[i].next
      ensures g[i].prev == if i == v.hdr[x].next then x + pages else v.hdr[i].prev
    {
    }
    var h' := Masked(v.hdr, g, x, len);
    ChainKept(v.hdr, h', FreeRef(v), v.free);
    ReplaceChain(h', g, FreeRef(v), v.free, k, x + pages);
  }

  /** `h` with the inner pages of the run at x as in g: the list does not run through them. */
  ghost function Masked(h: seq<Header>, g: seq<Header>, x: nat, len: nat): seq<Header>
    requires |g| == |h|
  {
    seq(|h|, i requires 0 <= i < |h| => if x < i < x + len then g[i] else h[i])
  }

  lemma FreeNotInRun(v: View, x: nat, len: nat)
    requires Headers(v) && FreeList(v) && x < |v.kind| && v.kind[x] == FreeHead(len)
    ensures forall i :: 0 <= i < |v.free| ==> !(x < v.free[i] < x + len)
  {
    assert Tile(v.kind, x);
    forall i | 0 <= i < |v.free|
      ensures !(x < v.free[i] < x + len)
    {
      assert v.free[i] in v.free;
    }
  }

  lemma WholeLinks(h: seq<Header>, g: seq<Header>, x: nat, len: nat)
    requires x < |h| && 0 <= h[x].prev < |h| && 0 <= h[x].next < |h| && h[x].prev != x && h[x].next != x && 0 < len
    requires TakenHeaders(h, g, x, len, len)
    ensures |Unlinked(h, x)| == |g|
    ensures forall i :: 0 <= i < |h| && !(x <= i < x + len) ==>
      g[i].next == Unlinked(h, x)[i].next && g[i].prev == Unlinked(h, x)[i].prev
  {
    UnlinkedCells(h, x);
  }

  lemma TakenWholeChain(v: View, g: seq<Header>, k: nat, len: nat)
    requires Headers(v) && FreeList(v) && k < |v.free| && 0 <= v.free[k] && FreeRunAt(v, v.free[k], len) && 0 < len
    requires TakenHeaders(v.hdr, g, v.free[k], len, len)
    ensures Chain(g, FreeRef(v), Without(v.free, k))
  {
    var x := v.free[k];
    var rest := Without(v.free, k);
    assert Tile(v.kind, x);
    FreeNotInRun(v, x, len);
    WithoutInside(v.hdr, FreeRef(v), v.free, k);
    UnlinkChain(v.hdr, FreeRef(v), v.free, k);
    WholeLinks(v.hdr, g, x, len);
    forall i | 0 <= i < |rest|
      ensures 0 <= rest[i] < |g| && !(x <= rest[i] < x + len)
    {
      assert rest[i] in rest;
      var j :| 0 <= j < |v.free| && v.free[j] == rest[i];
    }
    ChainKept(Unlinked(v.hdr, x), g, FreeRef(v), rest);
  }

  lemma TakenSplitMembers(kind: seq<Kind>, free: seq<int>, k: nat, len: nat, pages: nat)
    requires Tiling(kind) && ListsFreeHeads(kind, free) && Distinct(free)
    requires k < |free| && 0 <= free[k] < |kind| && kind[free[k]] == FreeHead(len) && 0 < pages < len
    ensures ListsFreeHeads(Taken(kind, free[k], len, pages), free[k := free[k] + pages])
  {
    var x := free[k];
    TakenAt(kind, x, len, pages);
    assert Tile(kind, x);
    assert kind[x + pages] == FreeBody(x);
    assert x + pages !in free;
    Replaced(free, k, x + pages);
    var kind', free' := Taken(kind, x, len, pages), free[k := x + pages];
    forall y | y in free' ensures 0 <= y < |kind'| { assert y == x + pages || y in free; }
    forall i | 0 <= i < |kind'|
      ensures i in free' <==> kind'[i].FreeHead?
    {
      assert i in free <==> kind[i].FreeHead?;
    }
  }

  lemma TakenWholeMembers(kind: seq<Kind>, free: seq<int>, k: nat, len: nat)
    requires Tiling(kind) && ListsFreeHeads(kind, free) && Distinct(free)
    requires k < |free| && 0 <= free[k] < |kind| && kind[free[k]] == FreeHead(len) && 0 < len
    ensures ListsFreeHeads(Taken(kind, free[k], len, len), Without(free, k))
  {
    var x := free[k];
    TakenAt(kind, x, len, len);
    assert Tile(kind, x);
    WithoutMembers(free, k);
    var kind', free' := Taken(kind, x, len, len), Without(free, k);
    forall i | 0 <= i < |kind'|
      ensures i in free' <==> kind'[i].FreeHead?
    {
      assert i in free <==> kind[i].FreeHead?;
    }
  }

  lemma TakenFreeList(v: View, g: seq<Header>, k: nat, len: nat, pages: nat)
    requires Headers(v) && FreeList(v) && k < |v.free| && 0 <= v.free[k] && FreeRunAt(v, v.free[k], len) && 0 < pages <= len
    requires TakenHeaders(v.hdr, g, v.free[k], len, pages)
    ensures var v' := AfterAlloc(v, g, k, len, pages);
            Chain(g, FreeRef(v), v'.free) && ListsFreeHeads(v'.kind, v'.free)
  {
    if pages < len {
      TakenSplitMembers(v.kind, v.free, k, len, pages);
      TakenSplitChain(v, g, k, len, pages);
    } else {
      TakenWholeMembers(v.kind, v.free, k, len);
      TakenWholeChain(v, g, k, len);
    }
  }

  lemma Replaced(list: seq<int>, k: nat, y: int)
    requires k < |list| && Distinct(list) && y !in list
    ensures forall z :: z in list[k := y] <==> z == y || (z in list && z != list[k])
  {
    assert list[k := y][k] == y;
    forall z | z in list && z != list[k]
      ensures z in list[k := y]
    {
      var i :| 0 <= i < |list| && list[i] == z;
      assert list[k := y][i] == z;
    }
  }

  lemma TakenSlot(v: View, g: seq<Header>, k: nat, len: nat, pages: nat, s: nat)
    requires Headers(v) && FreeList(v) && k < |v.free| && 0 <= v.free[k] && FreeRunAt(v, v.free[k], len) && 0 < pages <= len
    requires TakenHeaders(v.hdr, g, v.free[k], len, pages) && s < |v.slots| && s < SLOTS && SlotList(v, s)
    ensures SlotList(AfterAlloc(v, g, k, len, pages), s)
  {
    var x := v.free[k];
    TakenAt(v.kind, x, len, pages);
    assert Tile(v.kind, x);
    forall i | 0 <= i < |v.kind| && v.kind[i].Chunks?
      ensures g[i] == v.hdr[i]
    {
    }
    SlotUntouched(v, AfterAlloc(v, g, k, len, pages), s);
  }

  lemma TakenCounters(v: View, g: seq<Header>, k: nat, len: nat, pages: nat)
    requires Headers(v) && v.pfree == Sum(v.kind, FreePages) && SlotsCounted(v) && k < |v.free| && 0 <= v.free[k] < |v.kind| && v.kind[v.free[k]] == FreeHead(len)
    requires 0 < pages <= len
    ensures var v' := AfterAlloc(v, g, k, len, pages); v'.pfree == Sum(v'.kind, FreePages) && SlotsCounted(v')
  {
    var x := v.free[k];
    var kind' := Taken(v.kind, x, len, pages);
    TakenAt(v.kind, x, len, pages);
    assert Tile(v.kind, x);
    var y := if pages < len then x + pages else x;
    SumChange(v.kind, kind', x, y, FreePages);
    forall s | 0 <= s < SLOTS
      ensures Sum(kind', Used(s)) == Sum(v.kind, Used(s)) && Sum(kind', Total(s)) == Sum(v.kind, Total(s))
    {
      SumSame(v.kind, kind', Used(s));
      SumSame(v.kind, kind', Total(s));
    }
  }

  lemma TakenSettled(v: View, g: seq<Header>, k: nat, len: nat, pages: nat)
    requires Inv(v) && k < |v.free| && 0 <= v.free[k] < |v.kind| && v.kind[v.free[k]] == FreeHead(len) && 0 < pages <= len
    ensures Coalesced(AfterAlloc(v, g, k, len, pages).kind)
    ensures forall i :: 0 <= i < |v.kind| ==> Settled(AfterAlloc(v, g, k, len, pages).kind[i])
  {
    var x := v.free[k];
    var kind' := Taken(v.kind, x, len, pages);
    TakenAt(v.kind, x, len, pages);
    assert Tile(v.kind, x);
    forall i | 0 <= i < |kind'|
      ensures Apart(kind', i)
    {
      if kind'[i].FreeHead? {
        assert Tile(v.kind, i) && Apart(v.kind, i) && Apart(v.kind, x);
        if i != x + pages {
          OutsideRun(v.kind, x, i);
        }
      }
    }
    forall i | 0 <= i < |v.kind| ensures Settled(kind'[i]) { assert Settled(v.kind[i]); }
  }

  /** Taking pages from a free run keeps the invariant. */
  lemma AllocKeepsInv(v: View, g: seq<Header>, k: nat, pages: nat)
    requires Inv(v) && k < |v.free| && 0 <= v.free[k] < |v.hdr| && 0 < pages <= v.hdr[v.free[k]].slab
    requires TakenHeaders(v.hdr, g, v.free[k], v.hdr[v.free[k]].slab, pages)
    ensures Inv(AfterAlloc(v, g, k, v.hdr[v.free[k]].slab, pages))
  {
    FreeRun(v, k);
    var x, len := v.free[k], v.hdr[v.free[k]].slab;
    TakenPages(v, g, x, len, pages);
    TakenFreeList(v, g, k, len, pages);
    forall s | 0 <= s < SLOTS
      ensures SlotList(AfterAlloc(v, g, k, len, pages), s)
    {
      TakenSlot(v, g, k, len, pages, s);
    }
    TakenCounters(v, g, k, len, pages);
    TakenSettled(v, g, k, len, pages);
  }
}
