/** What one call does to the set of live allocations and to the slot counters. */
module SlabGrant {
  import opened SlabList
  import opened SlabView
  import opened SlabAlloc
  import opened SlabFree
  import opened SlabJoin
  import opened SlabChunks
  import opened SlabRegions

  /** ngx_slab_max_size */
  const MAX_SIZE := 2048

  /** The pages that hold `size` bytes, as the source rounds up. */
  function PagesFor(size: nat): nat {
    size / PAGE + if size % PAGE != 0 then 1 else 0
  }

  /** The smallest size class that holds `size` bytes. */
  ghost predicate ClassOf(size: nat, shift: nat) {
    MIN_SHIFT <= shift <= MAX_SHIFT && size <= Size(shift) && (shift > MIN_SHIFT ==> Size(shift - 1) < size)
  }

  ghost predicate HasRun(kind: seq<Kind>, pages: nat) {
    exists i :: 0 <= i < |kind| && kind[i].FreeHead? && pages <= kind[i].len
  }

  ghost predicate HasPartial(kind: seq<Kind>, s: nat) {
    exists i :: 0 <= i < |kind| && Partial(kind[i], s)
  }

  /** Exactly the region r is new among the live allocations. */
  ghost predicate Gained(kind: seq<Kind>, kind': seq<Kind>, r: Region) {
    !Live(kind, r) && forall q :: Live(kind', q) <==> Live(kind, q) || q == r
  }

  /** Exactly the region r is gone from the live allocations. */
  ghost predicate Lost(kind: seq<Kind>, kind': seq<Kind>, r: Region) {
    Live(kind, r) && forall q :: Live(kind', q) <==> Live(kind, q) && q != r
  }

  ghost predicate SameLive(kind: seq<Kind>, kind': seq<Kind>) {
    forall q :: Live(kind', q) <==> Live(kind, q)
  }

  /** A region that is large enough for `size` bytes but not a class or a page too large. */
  ghost predicate Serves(r: Region, size: nat) {
    && size <= Bytes(r)
    && if size > MAX_SIZE then r.Pages? && (r.len - 1) * PAGE < size else r.Chunk? && ClassOf(size, r.shift)
  }

  lemma PagesServe(x: nat, size: nat)
    requires size > MAX_SIZE
    ensures 0 < PagesFor(size) && Serves(Pages(x, PagesFor(size)), size)
  {
  }

  lemma ChunkServes(x: nat, shift: nat, c: nat, size: nat)
    requires size <= MAX_SIZE && ClassOf(size, shift)
    ensures Serves(Chunk(x, shift, c), size)
  {
  }

  /** Less than half of a region is wasted, unless it is the smallest chunk there is. */
  ghost predicate Tight(r: Region, size: nat) {
    size <= Bytes(r) && (Bytes(r) < 2 * size || (r.Chunk? && Bytes(r) == 8))
  }

  lemma ServesTight(r: Region, size: nat)
    requires Serves(r, size)
    ensures Tight(r, size)
  {
    if r.Chunk? {
      ShiftTable(MIN_SHIFT);
      if r.shift > MIN_SHIFT { assert Size(r.shift) == 2 * Size(r.shift - 1); }
    }
  }

  lemma {:induction false} SizeMonotone(i: nat, j: nat)
    requires i <= j
    ensures Size(i) <= Size(j)
  {
    if i < j { SizeMonotone(i, j - 1); }
  }

  /** A request has only one class. */
  lemma ClassUnique(size: nat, i: nat, j: nat)
    requires ClassOf(size, i) && ClassOf(size, j)
    ensures i == j
  {
    if i < j { SizeMonotone(i, j - 1); }
    if j < i { SizeMonotone(j, i - 1); }
  }

  /** The headers that TakeRun leaves behind are those of the invariant. */
  lemma RunTaken(v: View, g: seq<Header>, k: nat, len: nat, pages: nat)
    requires Inv(v) && k < |v.free| && 0 <= v.free[k] && FreeRunAt(v, v.free[k], len) && v.free[k] + len <= |v.hdr|
    requires len == v.hdr[v.free[k]].slab && 0 < pages <= len
    requires pages < len ==>
      Busied(Claimed(Split(v.hdr, v.free[k], len, pages), v.free[k], pages), g, v.free[k] + 1, v.free[k] + pages)
    requires pages == len ==> Busied(Claimed(Unlinked(v.hdr, v.free[k]), v.free[k], len), g, v.free[k] + 1, v.free[k] + pages)
    ensures Inv(AfterAlloc(v, g, k, len, pages))
  {
    FreeRun(v, k);
    if pages < len { SplitHeaders(v, v.free[k], len, pages, g); } else { WholeHeaders(v, v.free[k], len, g); }
    AllocKeepsInv(v, g, k, pages);
  }

  // ---- live regions ----

  lemma LiveTaken(kind: seq<Kind>, x: nat, len: nat, pages: nat)
    requires Tiling(kind) && x < |kind| && kind[x] == FreeHead(len) && 0 < pages <= len
    ensures Gained(kind, Taken(kind, x, len, pages), Pages(x, pages))
  {
    TakenAt(kind, x, len, pages);
    assert Tile(kind, x);
  }

  lemma LiveRelabelled(kind: seq<Kind>, x: nat, len: nat, head: Kind, body: Kind)
    requires x < |kind| && 0 < len && forall i :: x <= i < x + len && i < |kind| ==> !kind[i].RunHead? && !kind[i].Chunks?
    requires !head.RunHead? && !head.Chunks? && !body.RunHead? && !body.Chunks?
    ensures SameLive(kind, Relabel(kind, x, len, head, body))
  {
    RelabelAt(kind, x, len, head, body);
  }

  lemma LiveLoosened(kind: seq<Kind>, x: nat, len: nat)
    requires Tiling(kind) && x < |kind| && kind[x] == RunHead(len)
    ensures Lost(kind, Relabel(kind, x, len, Loose(len), LooseBody(x)), Pages(x, len))
  {
    RelabelAt(kind, x, len, Loose(len), LooseBody(x));
    assert Tile(kind, x);
  }

  lemma LiveTook(kind: seq<Kind>, x: nat, c: nat)
    requires x < |kind| && kind[x].Chunks? && c !in kind[x].busy
    ensures Gained(kind, kind[x := kind[x].(busy := kind[x].busy + {c})], Chunk(x, kind[x].shift, c))
  {
  }

  lemma LiveGave(kind: seq<Kind>, x: nat, c: nat)
    requires x < |kind| && kind[x].Chunks? && c in kind[x].busy
    ensures Lost(kind, kind[x := kind[x].(busy := kind[x].busy - {c})], Chunk(x, kind[x].shift, c))
  {
  }

  /** A page is taken and its first chunk handed out. */
  lemma LiveCut(kind: seq<Kind>, kind': seq<Kind>, x: nat, shift: nat, c: nat)
    requires Gained(kind, kind', Pages(x, 1)) && x < |kind'| && kind'[x] == RunHead(1)
    requires forall q :: Live(kind, q) ==> q.x != x
    ensures Gained(kind, kind'[x := Chunks(shift, {c})], Chunk(x, shift, c))
  {
    var kind'' := kind'[x := Chunks(shift, {c})];
    forall q
      ensures Live(kind'', q) <==> Live(kind, q) || q == Chunk(x, shift, c)
    {
      if q.x != x { assert Live(kind'', q) <==> Live(kind', q); }
    }
  }

  // ---- slot counters ----

  function Counted(stats: seq<Stat>, s: nat, total: int, used: int): seq<Stat>
    requires s < |stats|
  {
    stats[s := stats[s].(total := stats[s].total + total, used := stats[s].used + used)]
  }

  /** The counters of slot s follow a change of one page of that slot. */
  lemma CountersFollow(kind: seq<Kind>, kind': seq<Kind>, stats: seq<Stat>, stats': seq<Stat>, s: nat, total: int, used: int)
    requires |stats| == SLOTS && s < SLOTS
    requires forall t :: 0 <= t < SLOTS ==> stats[t].used == Sum(kind, Used(t)) && stats[t].total == Sum(kind, Total(t))
    requires forall t :: 0 <= t < SLOTS ==>
      && Sum(kind', Used(t)) == Sum(kind, Used(t)) + (if t == s then used else 0)
      && Sum(kind', Total(t)) == Sum(kind, Total(t)) + (if t == s then total else 0)
    requires stats' == Counted(stats, s, total, used)
    ensures forall t :: 0 <= t < SLOTS ==> stats'[t].used == Sum(kind', Used(t)) && stats'[t].total == Sum(kind', Total(t))
  {
    forall t | 0 <= t < SLOTS
      ensures stats'[t].used == Sum(kind', Used(t)) && stats'[t].total == Sum(kind', Total(t))
    {
      assert stats[t].used == Sum(kind, Used(t)) && stats[t].total == Sum(kind, Total(t));
    }
  }

  lemma TookSums(kind: seq<Kind>, x: nat, s: nat, c: nat)
    requires x < |kind| && kind[x].Chunks? && kind[x].shift == s + MIN_SHIFT && c !in kind[x].busy
    ensures var kind' := kind[x := kind[x].(busy := kind[x].busy + {c})];
      forall t :: Sum(kind', Used(t)) == Sum(kind, Used(t)) + (if t == s then 1 else 0) && Sum(kind', Total(t)) == Sum(kind, Total(t))
  {
    OnePageSums(kind, x, kind[x].(busy := kind[x].busy + {c}));
  }

  lemma GaveSums(kind: seq<Kind>, x: nat, s: nat, c: nat)
    requires x < |kind| && kind[x].Chunks? && kind[x].shift == s + MIN_SHIFT && c in kind[x].busy
    ensures var kind' := kind[x := kind[x].(busy := kind[x].busy - {c})];
      forall t :: Sum(kind', Used(t)) == Sum(kind, Used(t)) - (if t == s then 1 else 0) && Sum(kind', Total(t)) == Sum(kind, Total(t))
  {
    OnePageSums(kind, x, kind[x].(busy := kind[x].busy - {c}));
  }

  lemma CutSums(kind: seq<Kind>, x: nat, s: nat)
    requires x < |kind| && kind[x] == RunHead(1)
    ensures var kind' := kind[x := Chunks(s + MIN_SHIFT, {Reserved(s + MIN_SHIFT)})];
      forall t :: Sum(kind', Used(t)) == Sum(kind, Used(t)) + (if t == s then 1 else 0)
               && Sum(kind', Total(t)) == Sum(kind, Total(t)) + Retired(t, s)
  {
    OnePageSums(kind, x, Chunks(s + MIN_SHIFT, {Reserved(s + MIN_SHIFT)}));
  }

  // ---- nothing to give ----

  lemma NoRun(v: View, pages: nat)
    requires FreeList(v) && forall i :: 0 <= i < |v.free| ==> 0 <= v.free[i] < |v.kind| && v.kind[v.free[i]].FreeHead? && v.kind[v.free[i]].len < pages
    ensures !HasRun(v.kind, pages)
  {
    forall i | 0 <= i < |v.kind| && v.kind[i].FreeHead?
      ensures v.kind[i].len < pages
    {
      assert i in v.free;
    }
  }

  lemma NoPartialPage(v: View, s: nat)
    requires s < |v.slots| && SlotList(v, s) && v.slots[s] == []
    ensures !HasPartial(v.kind, s)
  {
    forall i | 0 <= i < |v.kind|
      ensures !Partial(v.kind[i], s)
    {
      assert i in v.slots[s] <==> Partial(v.kind[i], s);
    }
  }

  // ---- pages given back ----

  /** The pages at x may go back: a whole allocation, or a slab page without live chunks. */
  ghost predicate Releasable(v: View, x: nat, pages: nat) {
    && Sound(v) && Coalesced(v.kind) && x < |v.kind|
    && (v.kind[x] == RunHead(pages) || (pages == 1 && v.kind[x].Chunks? && v.kind[x].busy == {}))
    && forall i :: 0 <= i < |v.kind| && i != x ==> Settled(v.kind[i])
  }

  /** Nothing at x is live any more, the rest is as it was; the total of the slot of x loses the page. */
  ghost predicate Released(kind: seq<Kind>, kind': seq<Kind>, x: nat) {
    && x < |kind| && (forall q :: Live(kind', q) <==> Live(kind, q) && q.x != x)
    && forall s :: 0 <= s < SLOTS ==>
         Sum(kind', Used(s)) == Sum(kind, Used(s)) && Sum(kind', Total(s)) == Sum(kind, Total(s)) - Weight(kind[x], Total(s))
  }

  /** Only free pages changed. */
  ghost predicate Carried(kind: seq<Kind>, kind': seq<Kind>) {
    && SameLive(kind, kind')
    && forall s :: 0 <= s < SLOTS ==> Sum(kind', Used(s)) == Sum(kind, Used(s)) && Sum(kind', Total(s)) == Sum(kind, Total(s))
  }

  lemma PartialIndex(v: View, x: nat, s: nat) returns (k: nat)
    requires s < |v.slots| && SlotList(v, s) && x < |v.kind| && Partial(v.kind[x], s)
    ensures k < |v.slots[s]| && v.slots[s][k] == x
  {
    assert x in v.slots[s];
    k :| 0 <= k < |v.slots[s]| && v.slots[s][k] == x;
  }

  lemma IdlePartial(kind: seq<Kind>, x: nat)
    requires Tiling(kind) && x < |kind| && kind[x].Chunks? && kind[x].busy == {}
    ensures MIN_SHIFT <= kind[x].shift <= MAX_SHIFT && Partial(kind[x], kind[x].shift - MIN_SHIFT)
  {
    assert Tile(kind, x);
    ShiftTable(kind[x].shift);
    assert Reserved(kind[x].shift) !in kind[x].busy;
  }

  /** Whether the header of a page that goes back is linked into a slot list, and where. */
  lemma Releasing(v: View, x: nat, pages: nat) returns (k: nat)
    requires Releasable(v, x, pages)
    ensures 0 < pages && x + pages <= |v.kind|
    ensures v.kind[x].RunHead? ==> v.hdr[x].next == NULL
    ensures v.kind[x].Chunks? ==>
      && MIN_SHIFT <= v.kind[x].shift <= MAX_SHIFT && k < |v.slots[v.kind[x].shift - MIN_SHIFT]|
      && v.slots[v.kind[x].shift - MIN_SHIFT][k] == x
      && v.hdr[x].next != NULL && 0 <= v.hdr[x].prev < |v.hdr| && 0 <= v.hdr[x].next < |v.hdr|
      && v.hdr[x].prev != x && v.hdr[x].next != x
  {
    assert Tile(v.kind, x) && PageHeader(v.hdr[x], v.kind, v.words, x);
    k := 0;
    if v.kind[x].Chunks? {
      IdlePartial(v.kind, x);
      var s: nat := v.kind[x].shift - MIN_SHIFT;
      assert SlotList(v, s);
      k := PartialIndex(v, x, s);
      SlotNeighbours(v, s, k);
    }
  }

  lemma LoosenRunReleased(kind: seq<Kind>, x: nat, len: nat)
    requires Tiling(kind) && x < |kind| && kind[x] == RunHead(len)
    ensures Released(kind, Relabel(kind, x, len, Loose(len), LooseBody(x)), x)
  {
    var kind' := Relabel(kind, x, len, Loose(len), LooseBody(x));
    LiveLoosened(kind, x, len);
    RelabelAt(kind, x, len, Loose(len), LooseBody(x));
    assert Tile(kind, x);
    forall s | 0 <= s < SLOTS
      ensures Sum(kind', Used(s)) == Sum(kind, Used(s)) && Sum(kind', Total(s)) == Sum(kind, Total(s)) - Weight(kind[x], Total(s))
    {
      SumSame(kind, kind', Used(s));
      SumSame(kind, kind', Total(s));
    }
  }

  lemma RetireReleased(kind: seq<Kind>, x: nat, s: nat)
    requires x < |kind| && kind[x] == Chunks(s + MIN_SHIFT, {})
    ensures Released(kind, Relabel(kind, x, 1, Loose(1), LooseBody(x)), x)
  {
    RelabelAt(kind, x, 1, Loose(1), LooseBody(x));
    RetireSums(kind, x, s);
  }

  lemma StretchNotLive(v: View, z: nat, len: nat, y: nat, o: nat)
    requires Mergeable(v, z, len, y, o)
    ensures z < |v.kind| && 0 < len && forall i :: z <= i < z + len && i < |v.kind| ==> !v.kind[i].RunHead? && !v.kind[i].Chunks?
  {
    StretchKinds(v, z, len, y, o);
    assert Tile(v.kind, z) && Tile(v.kind, o);
    forall i | z <= i < z + len
      ensures !v.kind[i].RunHead? && !v.kind[i].Chunks?
    {
      if z < i < o {
        assert i < z + v.kind[z].len;
      } else if o < i {
        assert i < o + v.kind[o].len;
      }
    }
  }

  lemma MergeCarried(v: View, z: nat, len: nat, y: nat, o: nat)
    requires Mergeable(v, z, len, y, o)
    ensures Carried(v.kind, Relabel(v.kind, z, len, Loose(len), LooseBody(z)))
  {
    StretchNotLive(v, z, len, y, o);
    LiveRelabelled(v.kind, z, len, Loose(len), LooseBody(z));
    forall s | 0 <= s < SLOTS
      ensures var kind' := Relabel(v.kind, z, len, Loose(len), LooseBody(z));
              Sum(kind', Used(s)) == Sum(v.kind, Used(s)) && Sum(kind', Total(s)) == Sum(v.kind, Total(s))
    {
      MergeSums(v, z, len, y, o, Used(s));
      MergeSums(v, z, len, y, o, Total(s));
    }
  }

  /** What the links of a run that may be unlinked look like. */
  ghost predicate Loops(h: seq<Header>, x: int) {
    0 <= x < |h| && 0 <= h[x].prev < |h| && 0 <= h[x].next < |h| && h[x].prev != x && h[x].next != x
  }

  /** The page behind is inside the pool, of the page type and linked into a list. */
  predicate JoinsNext(h: seq<Header>, x: nat, last: nat)
    requires x <= last < |h|
  {
    var join := x + h[x].slab;
    join < last && h[join].tag == TAG_PAGE && h[join].next != NULL
  }

  function NextSlab(h: seq<Header>, x: nat, last: nat): nat
    requires x <= last < |h|
  {
    if JoinsNext(h, x, last) then h[x + h[x].slab].slab else 0
  }

  ghost predicate NextReady(h: seq<Header>, x: nat, last: nat) {
    x <= last < |h| && 0 < h[x].slab && (JoinsNext(h, x, last) ==> Loops(h, x + h[x].slab))
  }

  ghost function NextJoined(h: seq<Header>, x: nat, last: nat): seq<Header>
    requires NextReady(h, x, last)
  {
    if JoinsNext(h, x, last) then JoinedRight(h, x, x + h[x].slab, h[x].slab + h[x + h[x].slab].slab) else h
  }

  lemma NextMerge(v: View, x: nat, len: nat, y: nat, m: nat) returns (k: nat)
    requires Loosened(v, x, len) && y == x + len && y < |v.kind| && v.kind[y] == FreeHead(m)
    ensures k < |v.free| && v.free[k] == y && FreeRunAt(v, y, m)
    ensures var v' := AfterMerge(v, JoinedRight(v.hdr, x, y, len + m), x, len + m, k);
            Loosened(v', x, len + m) && RightClear(v'.kind, x, len + m) && Carried(v.kind, v'.kind)
  {
    k := FreeIndex(v, y);
    JoinRight(v, x, len, k, y, m);
    RightMergeable(v, x, len, k);
    MergeCarried(v, x, len + m, y, y);
  }

  /** How looking at the run behind the loose run ends. */
  ghost predicate NextDone(v: View, v': View, x: nat, len: nat) {
    && NextReady(v.hdr, x, |v.kind|) && v' == v.(hdr := NextJoined(v.hdr, x, |v.kind|), kind := v'.kind, free := v'.free)
    && var n := len + NextSlab(v.hdr, x, |v.kind|);
       Loosened(v', x, n) && RightClear(v'.kind, x, n) && Carried(v.kind, v'.kind)
  }

  lemma NextShape(h: seq<Header>, x: nat, last: nat, len: nat, m: nat)
    requires x + len < last < |h| && h[x].slab == len && 0 < len && Loops(h, x + len)
    requires h[x + len].tag == TAG_PAGE && h[x + len].next != NULL && h[x + len].slab == m
    ensures NextReady(h, x, last) && NextSlab(h, x, last) == m
    ensures NextJoined(h, x, last) == JoinedRight(h, x, x + len, len + m)
  {
  }

  lemma NextFree(v: View, x: nat, len: nat) returns (v': View)
    requires Loosened(v, x, len) && x + len < |v.kind| < |v.hdr| && v.kind[x + len].FreeHead? && v.hdr[x].slab == len && 0 < len
    requires v.hdr[x + len].tag == TAG_PAGE && v.hdr[x + len].next != NULL && v.hdr[x + len].slab == v.kind[x + len].len
    ensures NextDone(v, v', x, len)
  {
    var m := v.kind[x + len].len;
    var k := NextMerge(v, x, len, x + len, m);
    NextShape(v.hdr, x, |v.kind|, len, m);
    v' := AfterMerge(v, JoinedRight(v.hdr, x, x + len, len + m), x, len + m, k);
  }

  lemma NextBusy(v: View, x: nat, len: nat)
    requires Loosened(v, x, len) && x + len <= |v.kind| < |v.hdr| && v.hdr[x].slab == len && 0 < len
    requires RightClear(v.kind, x, len) && !JoinsNext(v.hdr, x, |v.kind|)
    ensures NextDone(v, v, x, len)
  {
  }

  lemma NextStep(v: View, x: nat, len: nat) returns (v': View)
    requires Loosened(v, x, len)
    ensures NextDone(v, v', x, len)
  {
    LooseHere(v, x, len);
    if x + len < |v.kind| {
      RightTest(v, x, len);
      if v.kind[x + len].FreeHead? {
        v' := NextFree(v, x, len);
        return;
      }
    }
    NextBusy(v, x, len);
    v' := v;
  }

  /** The run before x: found through the page before x, and only if that is of the page type. */
  predicate JoinsPrev(h: seq<Header>, x: nat)
    requires x < |h|
  {
    0 < x && h[x - 1].tag == TAG_PAGE && 0 <= LeftHead(h, x) < |h| && h[LeftHead(h, x)].next != NULL
  }

  function PrevHead(h: seq<Header>, x: nat): nat
    requires x < |h|
  {
    if JoinsPrev(h, x) then LeftHead(h, x) else x
  }

  function PrevSlab(h: seq<Header>, x: nat): nat
    requires x < |h|
  {
    if JoinsPrev(h, x) then h[LeftHead(h, x)].slab else 0
  }

  ghost predicate PrevReady(h: seq<Header>, x: nat) {
    && x < |h| && (0 < x && h[x - 1].tag == TAG_PAGE ==> 0 <= LeftHead(h, x) < |h|)
    && (JoinsPrev(h, x) ==> Loops(h, LeftHead(h, x)) && LeftHead(h, x) < x)
  }

  ghost function PrevJoined(h: seq<Header>, x: nat): seq<Header>
    requires PrevReady(h, x)
  {
    if JoinsPrev(h, x) then JoinedLeft(h, LeftHead(h, x), x, h[LeftHead(h, x)].slab + h[x].slab) else h
  }

  lemma PrevMerge(v: View, x: nat, len: nat, w: nat, m: nat) returns (k: nat)
    requires Loosened(v, x, len) && RightClear(v.kind, x, len) && w + m == x && w < x && v.kind[w] == FreeHead(m)
    ensures k < |v.free| && v.free[k] == w && FreeRunAt(v, w, m)
    ensures var v' := AfterMerge(v, JoinedLeft(v.hdr, w, x, m + len), w, m + len, k);
            Loosened(v', w, m + len) && RightClear(v'.kind, w, m + len) && LeftClear(v'.kind, w) && Carried(v.kind, v'.kind)
  {
    k := FreeIndex(v, w);
    PrevCarried(v, x, len, w);
    JoinLeft(v, x, len, k, w, m);
  }

  lemma PrevCarried(v: View, x: nat, len: nat, w: nat)
    requires Loosened(v, x, len) && w < x && v.kind[w].FreeHead? && w + v.kind[w].len == x
    ensures var n := v.kind[w].len + len; Carried(v.kind, Relabel(v.kind, w, n, Loose(n), LooseBody(w)))
  {
    LeftMergeable(v, x, len, w);
    MergeCarried(v, w, v.kind[w].len + len, w, x);
  }

  /** How looking at the run before the loose run ends. */
  ghost predicate PrevDone(v: View, v': View, x: nat, len: nat) {
    && PrevReady(v.hdr, x) && v' == v.(hdr := PrevJoined(v.hdr, x), kind := v'.kind, free := v'.free)
    && var w, n := PrevHead(v.hdr, x), PrevSlab(v.hdr, x) + len;
       Loosened(v', w, n) && RightClear(v'.kind, w, n) && LeftClear(v'.kind, w) && Carried(v.kind, v'.kind)
  }

  lemma PrevShape(h: seq<Header>, x: nat, w: nat, len: nat, m: nat)
    requires 0 < x < |h| && w == LeftHead(h, x) && w < x && h[x].slab == len && Loops(h, w) && JoinsPrev(h, x) && h[w].slab == m
    ensures PrevReady(h, x) && PrevHead(h, x) == w && PrevSlab(h, x) == m && PrevJoined(h, x) == JoinedLeft(h, w, x, m + len)
  {
  }

  lemma PrevFree(v: View, x: nat, len: nat, w: nat, m: nat) returns (v': View)
    requires Loosened(v, x, len) && RightClear(v.kind, x, len) && 0 < x < |v.hdr| && v.hdr[x].slab == len
    requires 0 <= w < |v.hdr| && LeftHead(v.hdr, x) == w && JoinsPrev(v.hdr, x)
    requires w < x && v.kind[w] == FreeHead(m) && w + m == x && v.hdr[w].slab == m
    ensures PrevDone(v, v', x, len)
  {
    var k := PrevMerge(v, x, len, w, m);
    PrevShape(v.hdr, x, w, len, m);
    v' := AfterMerge(v, JoinedLeft(v.hdr, w, x, m + len), w, m + len, k);
  }

  lemma PrevBusy(v: View, x: nat, len: nat)
    requires Loosened(v, x, len) && RightClear(v.kind, x, len) && LeftClear(v.kind, x) && x < |v.hdr|
    requires 0 < x && v.hdr[x - 1].tag == TAG_PAGE ==> 0 <= LeftHead(v.hdr, x) < |v.hdr|
    requires !JoinsPrev(v.hdr, x)
    ensures PrevDone(v, v, x, len)
  {
  }

  lemma PrevStep(v: View, x: nat, len: nat) returns (v': View)
    requires Loosened(v, x, len) && RightClear(v.kind, x, len)
    ensures PrevDone(v, v', x, len)
  {
    LooseHere(v, x, len);
    if 0 < x {
      LeftTest(v, x, len);
      if JoinsPrev(v.hdr, x) {
        var w := LeftHead(v.hdr, x);
        v' := PrevFree(v, x, len, w, v.kind[w].len);
        return;
      }
    }
    PrevBusy(v, x, len);
    v' := v;
  }

  lemma SettleCarried(v: View, x: nat, len: nat)
    requires Loosened(v, x, len)
    ensures Carried(v.kind, Relabel(v.kind, x, len, FreeHead(len), FreeBody(x)))
  {
    assert Tile(v.kind, x);
    LiveRelabelled(v.kind, x, len, FreeHead(len), FreeBody(x));
    forall s | 0 <= s < SLOTS
      ensures var kind' := Relabel(v.kind, x, len, FreeHead(len), FreeBody(x));
              Sum(kind', Used(s)) == Sum(v.kind, Used(s)) && Sum(kind', Total(s)) == Sum(v.kind, Total(s))
    {
      SettleSums(v.kind, x, len, Used(s));
      SettleSums(v.kind, x, len, Total(s));
    }
  }

  lemma LooseHere(v: View, x: nat, len: nat)
    requires Loosened(v, x, len)
    ensures 0 < len && x + len <= |v.kind| && v.hdr[x].slab == len
    ensures 0 <= v.hdr[FreeRef(v)].next < |v.hdr|
  {
    assert Tile(v.kind, x) && PageHeader(v.hdr[x], v.kind, v.words, x);
    LooseApart(v, x, len);
  }

  /** Nothing is loose or idle. */
  ghost predicate Rested(v: View) {
    Sound(v) && Coalesced(v.kind) && forall i :: 0 <= i < |v.kind| ==> Settled(v.kind[i])
  }

  lemma SettleStep(v: View, x: nat, len: nat) returns (v': View)
    requires Loosened(v, x, len) && RightClear(v.kind, x, len) && LeftClear(v.kind, x)
    ensures 0 < len && x + len <= |v.kind| < |v.hdr| && 0 <= v.hdr[|v.kind|].next < |v.hdr|
    ensures v' == v.(hdr := Pushed(Marked(v.hdr, x, len), |v.kind|, x, TAG_PAGE), kind := v'.kind, free := v'.free)
    ensures Rested(v') && Carried(v.kind, v'.kind)
  {
    LooseHere(v, x, len);
    LooseApart(v, x, len);
    SettleInv(v, x, len);
    SettleCarried(v, x, len);
    v' := AfterSettle(v, x, len);
  }

  lemma LoosenStep(v: View, g: seq<Header>, x: nat, pages: nat) returns (v': View)
    requires Releasable(v, x, pages) && x < |v.hdr| && (v.hdr[x].next != NULL ==> Loops(v.hdr, x))
    requires v.hdr[x].next == NULL ==> Zeroed(WithSlab(v.hdr, x, pages), g, x + 1, x + pages)
    requires v.hdr[x].next != NULL ==> g == Unlinked(WithSlab(v.hdr, x, 1), x)
    ensures v' == v.(hdr := g, pfree := v.pfree + pages, kind := v'.kind, slots := v'.slots)
    ensures Loosened(v', x, pages) && Released(v.kind, v'.kind, x)
  {
    var k := Releasing(v, x, pages);
    if v.kind[x].RunHead? {
      LoosenRun(v, g, x, pages);
      LoosenRunReleased(v.kind, x, pages);
      v' := AfterLoosen(v, g, x, pages);
      LoosenedKinds(v.kind, x, pages);
    } else {
      var s: nat := v.kind[x].shift - MIN_SHIFT;
      RetireSound(v, x, s, k);
      RetireReleased(v.kind, x, s);
      v' := AfterRetire(v, x, s, k);
      LoosenedKinds(v.kind, x, 1);
    }
  }

  lemma LoosenedKinds(kind: seq<Kind>, x: nat, pages: nat)
    requires Tiling(kind) && Coalesced(kind) && x < |kind| && (kind[x] == RunHead(pages) || (pages == 1 && kind[x].Chunks?))
    requires forall i :: 0 <= i < |kind| && i != x ==> Settled(kind[i])
    ensures var kind' := Relabel(kind, x, pages, Loose(pages), LooseBody(x));
      && Coalesced(kind') && kind'[x] == Loose(pages)
      && forall i :: 0 <= i < |kind'| && !(x <= i < x + pages) ==> Settled(kind'[i])
  {
    RelabelAt(kind, x, pages, Loose(pages), LooseBody(x));
    assert Tile(kind, x);
    var kind' := Relabel(kind, x, pages, Loose(pages), LooseBody(x));
    forall i | 0 <= i < |kind'|
      ensures Apart(kind', i)
    {
      assert Apart(kind, i);
    }
  }
}
