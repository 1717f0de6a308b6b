/** Changes to one slab page: a chunk taken or returned, a fresh page cut into chunks. */
module SlabChunks {
  import opened SlabList
  import opened SlabView
  import opened SlabFree
  import opened SlabBits

  ghost predicate ValidChunks(k: Kind) {
    k.Chunks? && MIN_SHIFT <= k.shift <= MAX_SHIFT && forall c :: c in k.busy ==> Reserved(k.shift) <= c < Count(k.shift)
  }

  /** A page whose label no other page depends on. */
  ghost predicate Single(k: Kind) {
    k.Chunks? || k == RunHead(1)
  }

  lemma OnePageTiling(kind: seq<Kind>, x: nat, k: Kind)
    requires Tiling(kind) && x < |kind| && Single(kind[x]) && ValidChunks(k)
    ensures Tiling(kind[x := k]) && (Coalesced(kind) ==> Coalesced(kind[x := k]))
  {
    var kind' := kind[x := k];
    assert Tile(kind, x);
    forall i | 0 <= i < |kind'|
      ensures Tile(kind', i)
    {
      assert Tile(kind, i);
    }
    forall i | 0 <= i < |kind'| && Coalesced(kind)
      ensures Apart(kind', i)
    {
      assert Apart(kind, i);
    }
  }

  /** Word k may only change if it belongs to page x. */
  ghost predicate WordsKept(words: seq<nat>, words': seq<nat>, x: nat) {
    |words'| == |words| && forall k :: 0 <= k < |words| && !(x * PAGE_WORDS <= k < x * PAGE_WORDS + PAGE_WORDS) ==> words'[k] == words[k]
  }

  lemma OtherPage(h: Header, g: Header, kind: seq<Kind>, words: seq<nat>, words': seq<nat>, x: nat, k: Kind, i: nat)
    requires Tiling(kind) && x < |kind| && Single(kind[x]) && ValidChunks(k)
    requires i < |kind| && i != x && HeaderKept(h, g, kind[i]) && WordsKept(words, words', x)
    requires PageHeader(h, kind, words, i)
    ensures Tiling(kind[x := k]) && PageHeader(g, kind[x := k], words', i)
  {
    OnePageTiling(kind, x, k);
    assert Tile(kind, i) && Tile(kind[x := k], i);
    if kind[i].Chunks? && kind[i].shift < EXACT_SHIFT {
      ShiftTable(kind[i].shift);
      SmallKept(words, words', i * PAGE_WORDS, kind[i].shift, kind[i].busy);
    }
  }

  lemma OnePageHeaders(v: View, g: seq<Header>, words': seq<nat>, x: nat, k: Kind)
    requires Headers(v) && x < |v.kind| && Single(v.kind[x]) && ValidChunks(k)
    requires |g| == |v.hdr| && forall i :: 0 <= i < |v.kind| && i != x ==> HeaderKept(v.hdr[i], g[i], v.kind[i])
    requires WordsKept(v.words, words', x) && ChunkHeader(g[x], words', x, k)
    ensures Headers(v.(hdr := g, words := words', kind := v.kind[x := k]))
  {
    OnePageTiling(v.kind, x, k);
    var kind' := v.kind[x := k];
    forall i | 0 <= i < |kind'|
      ensures PageHeader(g[i], kind', words', i)
    {
      assert Tile(kind', i) && PageHeader(v.hdr[i], v.kind, v.words, i);
      if i != x { OtherPage(v.hdr[i], g[i], v.kind, v.words, words', x, k, i); }
    }
  }

  /** The free list survives changes to slab pages, single runs and slot heads. */
  lemma FreeListKept(v: View, v': View)
    requires Headers(v) && FreeList(v) && v'.free == v.free && |v'.kind| == |v.kind| && |v'.hdr| == |v.hdr|
    requires forall i :: 0 <= i < |v.kind| ==> (v'.kind[i].FreeHead? <==> v.kind[i].FreeHead?)
    requires forall i :: 0 <= i < |v.kind| && v.kind[i].FreeHead? ==>
      v'.hdr[i].next == v.hdr[i].next && v'.hdr[i].prev == v.hdr[i].prev
    requires v'.hdr[FreeRef(v)].next == v.hdr[FreeRef(v)].next
    ensures FreeList(v')
  {
    forall i | 0 <= i < |v.free|
      ensures 0 <= v.free[i] < |v.kind| && v.kind[v.free[i]].FreeHead?
    {
      assert v.free[i] in v.free;
    }
    ChainKept(v.hdr, v'.hdr, FreeRef(v), v.free);
  }

  lemma OnePageSums(kind: seq<Kind>, x: nat, k: Kind)
    requires x < |kind| && Single(kind[x]) && k.Chunks?
    ensures Sum(kind[x := k], FreePages) == Sum(kind, FreePages)
    ensures forall s :: Sum(kind[x := k], Used(s)) == Sum(kind, Used(s)) - Weight(kind[x], Used(s)) + Weight(k, Used(s))
    ensures forall s :: Sum(kind[x := k], Total(s)) == Sum(kind, Total(s)) - Weight(kind[x], Total(s)) + Weight(k, Total(s))
  {
    SumUpdate(kind, x, k, FreePages);
    forall s
      ensures Sum(kind[x := k], Used(s)) == Sum(kind, Used(s)) - Weight(kind[x], Used(s)) + Weight(k, Used(s))
      ensures Sum(kind[x := k], Total(s)) == Sum(kind, Total(s)) - Weight(kind[x], Total(s)) + Weight(k, Total(s))
    {
      SumUpdate(kind, x, k, Used(s));
      SumUpdate(kind, x, k, Total(s));
    }
  }

  // ---- chunk bits change, links do not ----

  ghost function Rebusied(v: View, slab: nat, words': seq<nat>, x: nat, busy: set<nat>): View
    requires x < |v.hdr| && x < |v.kind| && v.kind[x].Chunks?
  {
    v.(hdr := WithSlab(v.hdr, x, slab), words := words', kind := v.kind[x := v.kind[x].(busy := busy)])
  }

  /** A chunk changes hands on a page that is not full before or after. */
  lemma RebusyListed(v: View, slab: nat, words': seq<nat>, x: nat, busy: set<nat>)
    requires Sound(v) && x < |v.kind| && v.kind[x].Chunks? && !IsFull(v.kind[x])
    requires !IsFull(v.kind[x].(busy := busy)) && ValidChunks(v.kind[x].(busy := busy))
    requires WordsKept(v.words, words', x) && BitsOk(slab, words', x, v.kind[x].shift, busy)
    ensures Sound(Rebusied(v, slab, words', x, busy))
  {
    var v' := Rebusied(v, slab, words', x, busy);
    assert PageHeader(v.hdr[x], v.kind, v.words, x);
    OnePageHeaders(v, v'.hdr, words', x, v'.kind[x]);
    FreeListKept(v, v');
    forall s | 0 <= s < SLOTS
      ensures SlotList(v', s)
    {
      assert SlotList(v, s);
      ChainKept(v.hdr, v'.hdr, SlotRef(v, s), v.slots[s]);
      RebusyMembers(v.kind, v.slots[s], s, x, busy);
    }
    OnePageSums(v.kind, x, v'.kind[x]);
  }

  lemma RebusyMembers(kind: seq<Kind>, list: seq<int>, s: nat, x: nat, busy: set<nat>)
    requires ListsPartial(kind, list, s) && x < |kind| && kind[x].Chunks?
    requires !IsFull(kind[x]) && !IsFull(kind[x].(busy := busy))
    ensures ListsPartial(kind[x := kind[x].(busy := busy)], list, s)
  {
    var kind' := kind[x := kind[x].(busy := busy)];
    forall i | 0 <= i < |kind|
      ensures i in list <==> Partial(kind'[i], s)
    {
      assert i in list <==> Partial(kind[i], s);
    }
  }

  // ---- the last free chunk is taken: the page leaves its list ----

  function Detached(h: seq<Header>, x: int, tag: nat): seq<Header>
    requires 0 <= x < |h| && 0 <= h[x].prev < |h| && 0 <= h[x].next < |h| && h[x].prev != x
  {
    WithPrev(WithNext(Unlinked(h, x), x, NULL), x, NULL, tag)
  }

  ghost function Filled(v: View, slab: nat, words': seq<nat>, x: nat, busy: set<nat>, s: nat, k: nat): View
    requires x < |v.hdr| && x < |v.kind| && v.kind[x].Chunks? && s < |v.slots| && k < |v.slots[s]|
    requires 0 <= v.hdr[x].prev < |v.hdr| && 0 <= v.hdr[x].next < |v.hdr| && v.hdr[x].prev != x
  {
    v.(hdr := Detached(WithSlab(v.hdr, x, slab), x, TagOf(v.kind[x].shift)), words := words',
       kind := v.kind[x := v.kind[x].(busy := busy)], slots := SlotsWithout(v.slots, s, k))
  }

  lemma DetachedCells(h: seq<Header>, x: int, slab: nat, tag: nat)
    requires 0 <= x < |h| && 0 <= h[x].prev < |h| && 0 <= h[x].next < |h| && h[x].prev != x && h[x].next != x
    ensures var g := Detached(WithSlab(h, x, slab), x, tag);
      && |g| == |h| && g[x] == Header(slab, NULL, NULL, tag)
      && forall i :: 0 <= i < |h| && i != x ==>
           g[i] == Header(h[i].slab, if i == h[x].prev then h[x].next else h[i].next,
                          if i == h[x].next then h[x].prev else h[i].prev, if i == h[x].next then h[x].tag else h[i].tag)
  {
    UnlinkedCells(WithSlab(h, x, slab), x);
  }

  lemma FillHeaders(v: View, slab: nat, words': seq<nat>, x: nat, busy: set<nat>, s: nat, k: nat)
    requires Headers(v) && s < SLOTS && s < |v.slots| && SlotList(v, s) && k < |v.slots[s]| && v.slots[s][k] == x
    requires x < |v.kind| && v.kind[x].Chunks? && v.kind[x].shift == s + MIN_SHIFT && ValidChunks(v.kind[x].(busy := busy))
    requires WordsKept(v.words, words', x) && BitsOk(slab, words', x, v.kind[x].shift, busy)
    requires 0 <= v.hdr[x].prev < |v.hdr| && 0 <= v.hdr[x].next < |v.hdr| && v.hdr[x].prev != x && v.hdr[x].next != x
    ensures Headers(Filled(v, slab, words', x, busy, s, k))
  {
    var v' := Filled(v, slab, words', x, busy, s, k);
    SlotNeighbours(v, s, k);
    DetachedCells(v.hdr, x, slab, TagOf(v.kind[x].shift));
    assert PageHeader(v.hdr[x], v.kind, v.words, x);
    forall i | 0 <= i < |v.kind| && i != x
      ensures HeaderKept(v.hdr[i], v'.hdr[i], v.kind[i])
    {
      assert PageHeader(v.hdr[i], v.kind, v.words, i);
    }
    OnePageHeaders(v, v'.hdr, words', x, v'.kind[x]);
  }

  lemma DetachChain(h: seq<Header>, head: int, list: seq<int>, k: nat, slab: nat, tag: nat)
    requires Chain(h, head, list) && k < |list|
    ensures 0 <= list[k] < |h| && 0 <= h[list[k]].prev < |h| && 0 <= h[list[k]].next < |h| && h[list[k]].prev != list[k]
    ensures Chain(Detached(WithSlab(h, list[k], slab), list[k], tag), head, Without(list, k))
  {
    var x, rest := list[k], Without(list, k);
    UnlinkWithSlab(h, head, list, k, slab);
    WithoutInside(h, head, list, k);
    forall i | 0 <= i < |rest|
      ensures rest[i] != x
    {
      assert rest[i] in rest;
    }
    ChainKept(Unlinked(WithSlab(h, x, slab), x), Detached(WithSlab(h, x, slab), x, tag), head, rest);
  }

  lemma FillOwnSlot(v: View, slab: nat, words': seq<nat>, x: nat, busy: set<nat>, s: nat, k: nat)
    requires s < SLOTS && s < |v.slots| && SlotList(v, s) && k < |v.slots[s]| && v.slots[s][k] == x && x < |v.hdr|
    requires x < |v.kind| && v.kind[x].Chunks? && IsFull(v.kind[x].(busy := busy))
    requires 0 <= v.hdr[x].prev < |v.hdr| && 0 <= v.hdr[x].next < |v.hdr| && v.hdr[x].prev != x && v.hdr[x].next != x
    ensures SlotList(Filled(v, slab, words', x, busy, s, k), s)
  {
    DetachChain(v.hdr, SlotRef(v, s), v.slots[s], k, slab, TagOf(v.kind[x].shift));
    FillMembers(v.kind, v.slots[s], s, x, k, busy);
  }

  lemma FillMembers(kind: seq<Kind>, list: seq<int>, s: nat, x: nat, k: nat, busy: set<nat>)
    requires ListsPartial(kind, list, s) && Distinct(list) && k < |list| && list[k] == x && x < |kind| && kind[x].Chunks?
    requires IsFull(kind[x].(busy := busy))
    ensures ListsPartial(kind[x := kind[x].(busy := busy)], Without(list, k), s)
  {
    WithoutMembers(list, k);
    var kind' := kind[x := kind[x].(busy := busy)];
    forall i | 0 <= i < |kind|
      ensures i in Without(list, k) <==> Partial(kind'[i], s)
    {
      assert i in list <==> Partial(kind[i], s);
    }
  }

  lemma FillOtherLists(v: View, slab: nat, words': seq<nat>, x: nat, busy: set<nat>, s: nat, k: nat)
    requires Headers(v) && Lists(v) && s < SLOTS && k < |v.slots[s]| && v.slots[s][k] == x
    requires x < |v.kind| && v.kind[x].Chunks? && v.kind[x].shift == s + MIN_SHIFT
    requires 0 <= v.hdr[x].prev < |v.hdr| && 0 <= v.hdr[x].next < |v.hdr| && v.hdr[x].prev != x && v.hdr[x].next != x
    ensures FreeList(Filled(v, slab, words', x, busy, s, k))
    ensures forall r :: 0 <= r < SLOTS && r != s ==> SlotList(Filled(v, slab, words', x, busy, s, k), r)
  {
    var v' := Filled(v, slab, words', x, busy, s, k);
    assert SlotList(v, s);
    SlotNeighbours(v, s, k);
    DetachedCells(v.hdr, x, slab, TagOf(v.kind[x].shift));
    FreeListKept(v, v');
    forall r | 0 <= r < SLOTS && r != s
      ensures SlotList(v', r)
    {
      assert SlotList(v, r);
      OtherSlot(v, v', x, s, k, r);
    }
  }

  lemma FillSound(v: View, slab: nat, words': seq<nat>, x: nat, busy: set<nat>, s: nat, k: nat)
    requires Sound(v) && s < SLOTS && k < |v.slots[s]| && v.slots[s][k] == x
    requires x < |v.kind| && v.kind[x].Chunks? && v.kind[x].shift == s + MIN_SHIFT
    requires ValidChunks(v.kind[x].(busy := busy)) && IsFull(v.kind[x].(busy := busy))
    requires WordsKept(v.words, words', x) && BitsOk(slab, words', x, v.kind[x].shift, busy)
    ensures 0 <= v.hdr[x].prev < |v.hdr| && 0 <= v.hdr[x].next < |v.hdr| && v.hdr[x].prev != x && v.hdr[x].next != x
    ensures Sound(Filled(v, slab, words', x, busy, s, k))
  {
    assert SlotList(v, s);
    SlotNeighbours(v, s, k);
    FillHeaders(v, slab, words', x, busy, s, k);
    FillOwnSlot(v, slab, words', x, busy, s, k);
    FillOtherLists(v, slab, words', x, busy, s, k);
    var v' := Filled(v, slab, words', x, busy, s, k);
    assert forall r :: 0 <= r < SLOTS ==> SlotList(v', r);
    OnePageSums(v.kind, x, v'.kind[x]);
  }

  // ---- a chunk of a full page is returned: the page joins its list ----

  ghost function Reopened(v: View, slab: nat, words': seq<nat>, x: nat, busy: set<nat>, s: nat): View
    requires x < |v.hdr| && x < |v.kind| && v.kind[x].Chunks? && s < SLOTS && s < |v.slots|
    requires SlotRef(v, s) < |v.hdr| && 0 <= v.hdr[SlotRef(v, s)].next < |v.hdr|
  {
    v.(hdr := WithSlab(Pushed(v.hdr, SlotRef(v, s), x, TagOf(v.kind[x].shift)), x, slab), words := words',
       kind := v.kind[x := v.kind[x].(busy := busy)], slots := v.slots[s := [x] + v.slots[s]])
  }

  /** The first page on a slot list, or the head itself, and what that means for x. */
  lemma SlotFirst(v: View, s: nat)
    requires Headers(v) && s < SLOTS && s < |v.slots| && SlotList(v, s)
    ensures SlotRef(v, s) < |v.hdr| && 0 <= v.hdr[SlotRef(v, s)].next < |v.hdr|
    ensures var f := v.hdr[SlotRef(v, s)].next;
      if v.slots[s] == [] then f == SlotRef(v, s) else f == v.slots[s][0] && f < |v.kind| && Partial(v.kind[f], s)
  {
    assert Fwd(v.hdr, SlotRef(v, s), v.slots[s], -1);
    if v.slots[s] != [] { assert v.slots[s][0] in v.slots[s]; }
  }

  lemma ReopenedCells(v: View, slab: nat, words': seq<nat>, x: nat, busy: set<nat>, s: nat)
    requires Headers(v) && s < SLOTS && s < |v.slots| && SlotList(v, s) && x < |v.kind| && v.kind[x].Chunks? && !Partial(v.kind[x], s)
    ensures SlotRef(v, s) < |v.hdr| && 0 <= v.hdr[SlotRef(v, s)].next < |v.hdr|
    ensures var g, f := Reopened(v, slab, words', x, busy, s).hdr, v.hdr[SlotRef(v, s)].next;
      && |g| == |v.hdr| && f != x && g[x] == Header(slab, f, SlotRef(v, s), TagOf(v.kind[x].shift))
      && forall i :: 0 <= i < |g| && i != x ==>
           g[i] == Header(v.hdr[i].slab, if i == SlotRef(v, s) then x else v.hdr[i].next,
                          if i == f then x else v.hdr[i].prev, if i == f then TagOf(v.kind[x].shift) else v.hdr[i].tag)
  {
    SlotFirst(v, s);
  }

  lemma ReopenHeaders(v: View, slab: nat, words': seq<nat>, x: nat, busy: set<nat>, s: nat)
    requires Headers(v) && s < SLOTS && s < |v.slots| && SlotList(v, s)
    requires x < |v.kind| && v.kind[x].Chunks? && v.kind[x].shift == s + MIN_SHIFT && IsFull(v.kind[x])
    requires ValidChunks(v.kind[x].(busy := busy)) && !IsFull(v.kind[x].(busy := busy))
    requires WordsKept(v.words, words', x) && BitsOk(slab, words', x, v.kind[x].shift, busy)
    ensures SlotRef(v, s) < |v.hdr| && 0 <= v.hdr[SlotRef(v, s)].next < |v.hdr|
    ensures Headers(Reopened(v, slab, words', x, busy, s))
  {
    SlotFirst(v, s);
    ReopenedCells(v, slab, words', x, busy, s);
    var v' := Reopened(v, slab, words', x, busy, s);
    var f := v.hdr[SlotRef(v, s)].next;
    forall i | 0 <= i < |v.kind| && i != x
      ensures HeaderKept(v.hdr[i], v'.hdr[i], v.kind[i])
    {
      assert PageHeader(v.hdr[i], v.kind, v.words, i);
    }
    OnePageHeaders(v, v'.hdr, words', x, v'.kind[x]);
  }

  lemma ReopenOwnSlot(v: View, slab: nat, words': seq<nat>, x: nat, busy: set<nat>, s: nat)
    requires Headers(v) && s < SLOTS && s < |v.slots| && SlotList(v, s)
    requires x < |v.kind| && v.kind[x].Chunks? && v.kind[x].shift == s + MIN_SHIFT && IsFull(v.kind[x])
    requires !IsFull(v.kind[x].(busy := busy))
    ensures SlotRef(v, s) < |v.hdr| && 0 <= v.hdr[SlotRef(v, s)].next < |v.hdr|
    ensures SlotList(Reopened(v, slab, words', x, busy, s), s)
  {
    SlotFirst(v, s);
    assert x !in v.slots[s] by { assert x in v.slots[s] <==> Partial(v.kind[x], s); }
    PushChain(v.hdr, SlotRef(v, s), v.slots[s], x, TagOf(v.kind[x].shift));
    var g := Pushed(v.hdr, SlotRef(v, s), x, TagOf(v.kind[x].shift));
    ChainKept(g, WithSlab(g, x, slab), SlotRef(v, s), [x] + v.slots[s]);
    ReopenMembers(v.kind, v.slots[s], s, x, busy);
  }

  lemma ReopenMembers(kind: seq<Kind>, list: seq<int>, s: nat, x: nat, busy: set<nat>)
    requires ListsPartial(kind, list, s) && x < |kind| && kind[x].Chunks? && kind[x].shift == s + MIN_SHIFT
    requires !IsFull(kind[x].(busy := busy))
    ensures ListsPartial(kind[x := kind[x].(busy := busy)], [x] + list, s)
  {
    var kind' := kind[x := kind[x].(busy := busy)];
    forall i | 0 <= i < |kind|
      ensures i in [x] + list <==> Partial(kind'[i], s)
    {
      assert i in list <==> Partial(kind[i], s);
    }
  }

  lemma ReopenOtherLists(v: View, slab: nat, words': seq<nat>, x: nat, busy: set<nat>, s: nat)
    requires Headers(v) && Lists(v) && s < SLOTS
    requires x < |v.kind| && v.kind[x].Chunks? && v.kind[x].shift == s + MIN_SHIFT && IsFull(v.kind[x])
    ensures SlotRef(v, s) < |v.hdr| && 0 <= v.hdr[SlotRef(v, s)].next < |v.hdr|
    ensures FreeList(Reopened(v, slab, words', x, busy, s))
    ensures forall r :: 0 <= r < SLOTS && r != s ==> SlotList(Reopened(v, slab, words', x, busy, s), r)
  {
    assert SlotList(v, s);
    SlotFirst(v, s);
    ReopenedCells(v, slab, words', x, busy, s);
    var v' := Reopened(v, slab, words', x, busy, s);
    FreeListKept(v, v');
    forall r | 0 <= r < SLOTS && r != s
      ensures SlotList(v', r)
    {
      assert SlotList(v, r);
      RemoteSlot(v, v', x, s, r);
    }
  }

  /** The pages of another slot's list are neither x nor the first page of this list. */
  lemma RemoteElements(v: View, x: nat, s: nat, r: nat)
    requires Headers(v) && s < SLOTS && r < SLOTS && s < |v.slots| && r < |v.slots| && r != s && SlotList(v, r) && SlotList(v, s)
    requires x < |v.kind| && !Partial(v.kind[x], r)
    ensures SlotRef(v, s) < |v.hdr|
    ensures forall i :: 0 <= i < |v.slots[r]| ==>
      var y := v.slots[r][i]; 0 <= y < |v.kind| && y != x && y != v.hdr[SlotRef(v, s)].next && y != SlotRef(v, s)
  {
    SlotFirst(v, s);
    forall i | 0 <= i < |v.slots[r]|
      ensures var y := v.slots[r][i]; 0 <= y < |v.kind| && y != x && y != v.hdr[SlotRef(v, s)].next && y != SlotRef(v, s)
    {
      assert v.slots[r][i] in v.slots[r];
      assert Partial(v.kind[v.slots[r][i]], r);
    }
  }

  lemma OnePageMembers(kind: seq<Kind>, kind': seq<Kind>, list: seq<int>, x: nat, r: nat)
    requires ListsPartial(kind, list, r) && |kind'| == |kind| && x < |kind|
    requires forall i :: 0 <= i < |kind| && i != x ==> kind'[i] == kind[i]
    requires !Partial(kind[x], r) && !Partial(kind'[x], r)
    ensures ListsPartial(kind', list, r)
  {
    forall i | 0 <= i < |kind|
      ensures i in list <==> Partial(kind'[i], r)
    {
      assert i in list <==> Partial(kind[i], r);
    }
  }

  /** A slot list is not disturbed by what happens at the front of another one. */
  lemma RemoteSlot(v: View, v': View, x: nat, s: nat, r: nat)
    requires Headers(v) && s < SLOTS && r < SLOTS && s < |v.slots| && r < |v.slots| && r != s && SlotList(v, r) && SlotList(v, s)
    requires SlotRef(v, s) < |v.hdr|
    requires x < |v.kind| && !Partial(v.kind[x], r)
    requires |v'.hdr| == |v.hdr| && |v'.kind| == |v.kind| && r < |v'.slots| && v'.slots[r] == v.slots[r]
    requires forall i :: 0 <= i < |v.hdr| && i != SlotRef(v, s) && i != v.hdr[SlotRef(v, s)].next && i != x ==>
      v'.hdr[i].next == v.hdr[i].next && v'.hdr[i].prev == v.hdr[i].prev
    requires forall i :: 0 <= i < |v.kind| && i != x ==> v'.kind[i] == v.kind[i]
    requires !Partial(v'.kind[x], r)
    ensures SlotList(v', r)
  {
    RemoteElements(v, x, s, r);
    SlotFirst(v, s);
    ChainKept(v.hdr, v'.hdr, SlotRef(v, r), v.slots[r]);
    OnePageMembers(v.kind, v'.kind, v.slots[r], x, r);
  }

  lemma ReopenSound(v: View, slab: nat, words': seq<nat>, x: nat, busy: set<nat>, s: nat)
    requires Sound(v) && s < SLOTS
    requires x < |v.kind| && v.kind[x].Chunks? && v.kind[x].shift == s + MIN_SHIFT && IsFull(v.kind[x])
    requires ValidChunks(v.kind[x].(busy := busy)) && !IsFull(v.kind[x].(busy := busy))
    requires WordsKept(v.words, words', x) && BitsOk(slab, words', x, v.kind[x].shift, busy)
    ensures SlotRef(v, s) < |v.hdr| && 0 <= v.hdr[SlotRef(v, s)].next < |v.hdr|
    ensures Sound(Reopened(v, slab, words', x, busy, s))
  {
    assert SlotList(v, s);
    ReopenHeaders(v, slab, words', x, busy, s);
    ReopenOwnSlot(v, slab, words', x, busy, s);
    ReopenOtherLists(v, slab, words', x, busy, s);
    var v' := Reopened(v, slab, words', x, busy, s);
    assert forall r :: 0 <= r < SLOTS ==> SlotList(v', r);
    OnePageSums(v.kind, x, v'.kind[x]);
  }

  // ---- a fresh page is cut into chunks ----

  /** page->slab, next and prev are set and the page becomes the only one on its slot list. */
  function Enlisted(h: seq<Header>, x: int, slot: int, slab: nat, tag: nat): seq<Header>
    requires 0 <= x < |h| && 0 <= slot < |h|
  {
    WithNext(h[x := Header(slab, slot, slot, tag)], slot, x)
  }

  ghost function Cut(v: View, slab: nat, words': seq<nat>, x: nat, s: nat): View
    requires x < |v.kind| && x < |v.hdr| && s < |v.slots| && SlotRef(v, s) < |v.hdr|
  {
    var shift := s + MIN_SHIFT;
    v.(hdr := Enlisted(v.hdr, x, SlotRef(v, s), slab, TagOf(shift)), words := words',
       kind := v.kind[x := Chunks(shift, {Reserved(shift)})], slots := v.slots[s := [x]])
  }

  lemma FirstChunk(s: nat)
    requires s < SLOTS
    ensures ValidChunks(Chunks(s + MIN_SHIFT, {Reserved(s + MIN_SHIFT)})) && !IsFull(Chunks(s + MIN_SHIFT, {Reserved(s + MIN_SHIFT)}))
  {
    var shift := s + MIN_SHIFT;
    ShiftTable(shift);
    var k := Chunks(shift, {Reserved(shift)});
    assert Reserved(shift) <= Reserved(shift) + 1 < Count(shift) && Reserved(shift) + 1 !in k.busy;
  }

  lemma CutMembers(kind: seq<Kind>, list: seq<int>, x: nat, k: Kind, s: nat)
    requires ListsPartial(kind, list, s) && list == [] && x < |kind| && Partial(k, s)
    ensures ListsPartial(kind[x := k], [x], s)
  {
    forall i | 0 <= i < |kind|
      ensures i in [x] <==> Partial(kind[x := k][i], s)
    {
      assert i in list <==> Partial(kind[i], s);
    }
  }

  lemma CutLists(v: View, slab: nat, words': seq<nat>, x: nat, s: nat)
    requires Headers(v) && Lists(v) && s < SLOTS && v.slots[s] == [] && x < |v.kind| && v.kind[x] == RunHead(1)
    ensures Lists(Cut(v, slab, words', x, s))
  {
    var v' := Cut(v, slab, words', x, s);
    var slot := SlotRef(v, s);
    assert SlotList(v, s);
    SlotFirst(v, s);
    FirstChunk(s);
    FreeListKept(v, v');
    CutMembers(v.kind, v.slots[s], x, v'.kind[x], s);
    assert Fwd(v'.hdr, slot, [x], -1) && Fwd(v'.hdr, slot, [x], 0) && Back(v'.hdr, slot, [x], 0);
    assert SlotList(v', s);
    forall r | 0 <= r < SLOTS && r != s
      ensures SlotList(v', r)
    {
      assert SlotList(v, r);
      RemoteSlot(v, v', x, s, r);
    }
  }

  lemma CutSound(v: View, slab: nat, words': seq<nat>, x: nat, s: nat)
    requires Sound(v) && s < SLOTS && v.slots[s] == [] && x < |v.kind| && v.kind[x] == RunHead(1)
    requires WordsKept(v.words, words', x) && BitsOk(slab, words', x, s + MIN_SHIFT, {Reserved(s + MIN_SHIFT)})
    ensures Sound(Cut(v, slab, words', x, s))
  {
    FirstChunk(s);
    var v' := Cut(v, slab, words', x, s);
    forall i | 0 <= i < |v.kind| && i != x
      ensures HeaderKept(v.hdr[i], v'.hdr[i], v.kind[i])
    {
    }
    OnePageHeaders(v, v'.hdr, words', x, v'.kind[x]);
    CutLists(v, slab, words', x, s);
    OnePageSums(v.kind, x, v'.kind[x]);
  }
}
