/** The rest of ngx_slab_free_pages: joining the loose run with its neighbours and putting it on the free list. */
module SlabJoin {
  import opened SlabList
  import opened SlabView
  import opened SlabAlloc
  import opened SlabFree

  /** What holds while the run of `len` pages at x is loose: everything else is settled and free runs do not touch. */
  ghost predicate Loosened(v: View, x: nat, len: nat) {
    && Sound(v) && Coalesced(v.kind) && x < |v.kind| && v.kind[x] == Loose(len)
    && forall i :: 0 <= i < |v.kind| && !(x <= i < x + len) ==> Settled(v.kind[i])
  }

  ghost predicate RightClear(kind: seq<Kind>, x: nat, len: nat) {
    x + len < |kind| ==> !kind[x + len].FreeHead?
  }

  ghost predicate LeftClear(kind: seq<Kind>, x: nat) {
    forall w :: 0 <= w < x && w < |kind| && kind[w].FreeHead? ==> w + kind[w].len != x
  }

  // ---- what the neighbour tests read ----

  /** The test on the page behind is true exactly if a free run starts there. */
  lemma RightTest(v: View, x: nat, len: nat)
    requires Loosened(v, x, len) && x + len < |v.kind|
    ensures v.hdr[x + len].tag == TAG_PAGE && v.hdr[x + len].next != NULL <==> v.kind[x + len].FreeHead?
    ensures v.kind[x + len].FreeHead? ==> v.hdr[x + len].slab == v.kind[x + len].len
  {
    RunClosed(v.kind, x);
    var y := x + len;
    assert Tile(v.kind, x) && Tile(v.kind, y) && PageHeader(v.hdr[y], v.kind, v.words, y) && Settled(v.kind[y]);
    if v.kind[y].FreeHead? {
      var k := FreeIndex(v, y);
      InsideChain(v.hdr, FreeRef(v), v.free, k);
    }
    AfterRun(v.kind, x);
  }

  /** Right after a run another run or a slab page starts. */
  lemma AfterRun(kind: seq<Kind>, x: nat)
    requires Tiling(kind) && x < |kind| && IsHead(kind[x]) && x + kind[x].len < |kind|
    ensures !IsBody(kind[x + kind[x].len])
  {
    var y := x + kind[x].len;
    assert Tile(kind, x) && Tile(kind, y);
    var w := if IsBody(kind[y]) then kind[y].head else y;
    assert Tile(kind, w);
  }

  lemma FreeIndex(v: View, y: nat) returns (k: nat)
    requires FreeList(v) && y < |v.kind| && v.kind[y].FreeHead?
    ensures k < |v.free| && v.free[k] == y
  {
    assert y in v.free;
    k :| 0 <= k < |v.free| && v.free[k] == y;
  }

  /** The head that the page before x leads to, as the source finds it: through prev if its count is 0. */
  function LeftHead(h: seq<Header>, x: int): int
    requires 0 < x <= |h|
  {
    if h[x - 1].slab == 0 then h[x - 1].prev else x - 1
  }

  lemma LeftTest(v: View, x: nat, len: nat)
    requires Loosened(v, x, len) && 0 < x
    ensures v.hdr[x - 1].tag == TAG_PAGE ==> 0 <= LeftHead(v.hdr, x) < |v.kind|
    ensures v.hdr[x - 1].tag == TAG_PAGE && v.hdr[LeftHead(v.hdr, x)].next != NULL ==>
      var w := LeftHead(v.hdr, x);
      w < x && v.kind[w].FreeHead? && w + v.kind[w].len == x && v.hdr[w].slab == v.kind[w].len
    ensures v.hdr[x - 1].tag == TAG_PAGE && v.hdr[LeftHead(v.hdr, x)].next == NULL ==> LeftClear(v.kind, x)
    ensures v.hdr[x - 1].tag != TAG_PAGE ==> LeftClear(v.kind, x)
  {
    var j := x - 1;
    RunClosed(v.kind, x);
    assert Tile(v.kind, x) && Tile(v.kind, j) && PageHeader(v.hdr[j], v.kind, v.words, j) && Settled(v.kind[j]);
    LeftNeighbour(v.kind, x);
    match v.kind[j]
    case FreeHead(m) =>
      var k := FreeIndex(v, j);
      InsideChain(v.hdr, FreeRef(v), v.free, k);
      LastOfRun(v.kind, j, j, x);
    case FreeBody(w) =>
      assert Tile(v.kind, w) && PageHeader(v.hdr[w], v.kind, v.words, w);
      LastOfRun(v.kind, j, w, x);
      var k := FreeIndex(v, w);
      InsideChain(v.hdr, FreeRef(v), v.free, k);
    case RunHead(_) =>
    case RunBody(_) =>
    case Chunks(_, _) =>
  }

  /** A run that reaches the page before x ends there. */
  lemma LastOfRun(kind: seq<Kind>, j: nat, w: nat, x: nat)
    requires Tiling(kind) && x < |kind| && j + 1 == x && kind[x].Loose? && w <= j && kind[w].FreeHead? && j < w + kind[w].len
    ensures w + kind[w].len == x
  {
    assert Tile(kind, w) && Tile(kind, x);
  }

  /** A free run that ends before x contains the page before x. */
  lemma LeftNeighbour(kind: seq<Kind>, x: nat)
    requires Tiling(kind) && 0 < x < |kind|
    ensures !kind[x - 1].FreeHead? && !kind[x - 1].FreeBody? ==> LeftClear(kind, x)
  {
    forall w | 0 <= w < x && kind[w].FreeHead? && w + kind[w].len == x
      ensures kind[x - 1].FreeHead? || kind[x - 1].FreeBody?
    {
      assert Tile(kind, w);
      if w != x - 1 { assert kind[x - 1] == FreeBody(w); }
    }
  }

  // ---- joining ----

  /** The run counts the pages of the one behind, which leaves its list and becomes a body page. */
  function JoinedRight(h: seq<Header>, x: int, y: int, len: nat): seq<Header>
    requires 0 <= x < |h| && 0 <= y < |h| && 0 <= h[y].prev < |h| && 0 <= h[y].next < |h| && h[y].prev != y && x != y
  {
    Unlinked(WithSlab(h, x, len), y)[y := Header(0, NULL, NULL, TAG_PAGE)]
  }

  lemma RightMergeable(v: View, x: nat, len: nat, k: nat)
    requires Loosened(v, x, len) && k < |v.free| && v.free[k] == x + len
    ensures x + len < |v.kind| && v.kind[x + len].FreeHead?
    ensures Mergeable(v, x, len + v.kind[x + len].len, x + len, x + len)
  {
    FreeRun(v, k);
    assert Tile(v.kind, x) && Tile(v.kind, x + len);
    RunClosed(v.kind, x);
    RunClosed(v.kind, x + len);
    UnionClosed(v.kind, x, len, v.kind[x + len].len);
  }

  lemma RightMerged(v: View, x: nat, len: nat, y: nat, m: nat)
    requires Mergeable(v, x, len + m, y, y) && y == x + len && v.kind[y] == FreeHead(m)
    requires forall i :: 0 <= i < |v.kind| && !(x <= i < x + len + m) ==> Settled(v.kind[i])
    requires FreeRunAt(v, y, m)
    ensures Merged(v, JoinedRight(v.hdr, x, y, len + m), x, len + m, y)
  {
    UnlinkedCells(WithSlab(v.hdr, x, len + m), y);
    JoinBodies(v, x, len + m, y, y);
    StretchKinds(v, x, len + m, y, y);
  }

  lemma RightReady(v: View, x: nat, len: nat, k: nat, y: nat, m: nat)
    requires Loosened(v, x, len) && k < |v.free| && v.free[k] == y && y == x + len && y < |v.kind| && v.kind[y] == FreeHead(m)
    ensures FreeRunAt(v, y, m)
    ensures Mergeable(v, x, len + m, y, y) && Merged(v, JoinedRight(v.hdr, x, y, len + m), x, len + m, y)
  {
    FreeRun(v, k);
    RightMergeable(v, x, len, k);
    RightMerged(v, x, len, y, m);
  }

  lemma JoinRight(v: View, x: nat, len: nat, k: nat, y: nat, m: nat)
    requires Loosened(v, x, len) && k < |v.free| && v.free[k] == y && y == x + len && y < |v.kind| && v.kind[y] == FreeHead(m)
    ensures FreeRunAt(v, y, m)
    ensures var v' := AfterMerge(v, JoinedRight(v.hdr, x, y, len + m), x, len + m, k);
            Loosened(v', x, len + m) && RightClear(v'.kind, x, len + m)
  {
    RightReady(v, x, len, k, y, m);
    MergeLoosened(v, JoinedRight(v.hdr, x, y, len + m), x, len + m, k, y);
  }

  /** Inside the stretch every page but the heads is already zero. */
  lemma JoinBodies(v: View, z: nat, len: nat, y: nat, o: nat)
    requires Mergeable(v, z, len, y, o)
    requires forall i :: 0 <= i < |v.kind| && !(z <= i < z + len) ==> Settled(v.kind[i])
    ensures forall i :: z < i < z + len && i != o ==> BodyHeader(v.hdr[i], 0)
  {
    assert Tile(v.kind, z) && Tile(v.kind, o);
    forall i | z < i < z + len && i != o
      ensures BodyHeader(v.hdr[i], 0)
    {
      assert Tile(v.kind, i) && PageHeader(v.hdr[i], v.kind, v.words, i);
      if i < o {
        assert v.kind[i] == if v.kind[z].FreeHead? then FreeBody(z) else LooseBody(z);
      } else {
        assert v.kind[i] == if v.kind[o].FreeHead? then FreeBody(o) else LooseBody(o);
      }
    }
  }

  lemma MergeKinds(v: View, g: seq<Header>, z: nat, len: nat, k: nat, o: nat)
    requires Sound(v) && Coalesced(v.kind) && k < |v.free| && 0 <= v.free[k] && Mergeable(v, z, len, v.free[k], o)
    requires forall i :: 0 <= i < |v.kind| && !(z <= i < z + len) ==> Settled(v.kind[i])
    ensures var v' := AfterMerge(v, g, z, len, k);
      && Coalesced(v'.kind) && z < |v'.kind| && v'.kind[z] == Loose(len)
      && (forall i :: 0 <= i < |v'.kind| && !(z <= i < z + len) ==> Settled(v'.kind[i]))
      && (v.free[k] == o ==> RightClear(v'.kind, z, len))
      && (v.free[k] == z ==> LeftClear(v'.kind, z))
      && (v.free[k] == z && RightClear(v.kind, o, v.kind[o].len) ==> RightClear(v'.kind, z, len))
  {
    RelabelAt(v.kind, z, len, Loose(len), LooseBody(z));
    StretchKinds(v, z, len, v.free[k], o);
    var kind' := AfterMerge(v, g, z, len, k).kind;
    forall i | 0 <= i < |kind'|
      ensures Apart(kind', i)
    {
      assert Apart(v.kind, i);
    }
    assert Apart(v.kind, o);
    if v.free[k] == z {
      forall w | 0 <= w < z && kind'[w].FreeHead?
        ensures w + kind'[w].len != z
      {
        assert Apart(v.kind, w);
      }
    }
  }

  lemma MergeLoosened(v: View, g: seq<Header>, z: nat, len: nat, k: nat, o: nat)
    requires Sound(v) && Coalesced(v.kind) && k < |v.free| && 0 <= v.free[k] && Mergeable(v, z, len, v.free[k], o)
    requires forall i :: 0 <= i < |v.kind| && !(z <= i < z + len) ==> Settled(v.kind[i])
    requires Merged(v, g, z, len, v.free[k])
    ensures var v' := AfterMerge(v, g, z, len, k);
      && Loosened(v', z, len)
      && (v.free[k] == o ==> RightClear(v'.kind, z, len))
      && (v.free[k] == z ==> LeftClear(v'.kind, z))
      && (v.free[k] == z && RightClear(v.kind, o, v.kind[o].len) ==> RightClear(v'.kind, z, len))
  {
    MergeSound(v, g, z, len, k, o);
    MergeKinds(v, g, z, len, k, o);
  }

  /** The run before counts the pages, leaves its list, and the old head becomes a body page. */
  function JoinedLeft(h: seq<Header>, w: int, x: int, len: nat): seq<Header>
    requires 0 <= x < |h| && 0 <= w < |h| && 0 <= h[w].prev < |h| && 0 <= h[w].next < |h| && h[w].prev != w && x != w
  {
    Unlinked(WithSlab(h, w, len), w)[x := Header(0, NULL, NULL, TAG_PAGE)]
  }

  lemma LeftMergeable(v: View, x: nat, len: nat, w: nat)
    requires Loosened(v, x, len) && w < x && v.kind[w].FreeHead? && w + v.kind[w].len == x
    ensures Mergeable(v, w, v.kind[w].len + len, w, x)
  {
    assert Tile(v.kind, x) && Tile(v.kind, w);
    RunClosed(v.kind, w);
    RunClosed(v.kind, x);
    UnionClosed(v.kind, w, v.kind[w].len, len);
  }

  lemma LeftMerged(v: View, x: nat, len: nat, w: nat, m: nat)
    requires Mergeable(v, w, m + len, w, x) && w + m == x && v.kind[w] == FreeHead(m)
    requires forall i :: 0 <= i < |v.kind| && !(w <= i < x + len) ==> Settled(v.kind[i])
    requires FreeRunAt(v, w, m)
    ensures Merged(v, JoinedLeft(v.hdr, w, x, m + len), w, m + len, w)
  {
    UnlinkedCells(WithSlab(v.hdr, w, m + len), w);
    JoinBodies(v, w, m + len, w, x);
    StretchKinds(v, w, m + len, w, x);
  }

  lemma LeftReady(v: View, x: nat, len: nat, k: nat, w: nat, m: nat)
    requires Loosened(v, x, len) && k < |v.free| && v.free[k] == w && w < x && v.kind[w] == FreeHead(m) && w + m == x
    ensures FreeRunAt(v, w, m)
    ensures Mergeable(v, w, m + len, w, x) && Merged(v, JoinedLeft(v.hdr, w, x, m + len), w, m + len, w)
  {
    FreeRun(v, k);
    LeftMergeable(v, x, len, w);
    LeftMerged(v, x, len, w, m);
  }

  lemma JoinLeft(v: View, x: nat, len: nat, k: nat, w: nat, m: nat)
    requires Loosened(v, x, len) && RightClear(v.kind, x, len)
    requires k < |v.free| && v.free[k] == w && w < x && v.kind[w] == FreeHead(m) && w + m == x
    ensures FreeRunAt(v, w, m)
    ensures var v' := AfterMerge(v, JoinedLeft(v.hdr, w, x, m + len), w, m + len, k);
            Loosened(v', w, m + len) && RightClear(v'.kind, w, m + len) && LeftClear(v'.kind, w)
  {
    LeftReady(v, x, len, k, w, m);
    MergeLoosened(v, JoinedLeft(v.hdr, w, x, m + len), w, m + len, k, x);
  }

  // ---- back on the free list ----

  /** The last page of the run leads back to its head. */
  function Marked(h: seq<Header>, x: int, len: int): seq<Header>
    requires 0 <= x && 0 < len && x + len <= |h|
  {
    if len > 1 then WithPrev(h, x + len - 1, x, TAG_PAGE) else h
  }

  ghost function AfterSettle(v: View, x: nat, len: nat): View
    requires 0 < len && x + len <= |v.kind| < |v.hdr| && 0 <= v.hdr[FreeRef(v)].next < |v.hdr|
  {
    v.(hdr := Pushed(Marked(v.hdr, x, len), FreeRef(v), x, TAG_PAGE),
       kind := Relabel(v.kind, x, len, FreeHead(len), FreeBody(x)), free := [x] + v.free)
  }

  lemma LooseApart(v: View, x: nat, len: nat)
    requires Headers(v) && FreeList(v) && x < |v.kind| && v.kind[x] == Loose(len)
    ensures 0 < len && x + len <= |v.kind| && x !in v.free
    ensures forall i :: x < i < x + len ==> v.kind[i] == LooseBody(x)
    ensures forall i :: 0 <= i < |v.free| ==> 0 <= v.free[i] < |v.kind| && !(x <= v.free[i] < x + len)
    ensures 0 <= v.hdr[FreeRef(v)].next < |v.hdr| && !(x <= v.hdr[FreeRef(v)].next < x + len)
    ensures v.hdr[FreeRef(v)].next == FreeRef(v)
         || (v.hdr[FreeRef(v)].next < |v.kind| && v.kind[v.hdr[FreeRef(v)].next].FreeHead?)
  {
    assert Tile(v.kind, x);
    forall i | 0 <= i < |v.free|
      ensures 0 <= v.free[i] < |v.kind| && v.kind[v.free[i]].FreeHead?
    {
      assert v.free[i] in v.free;
    }
    assert Fwd(v.hdr, FreeRef(v), v.free, -1);
  }

  lemma SettleList(v: View, x: nat, len: nat)
    requires Headers(v) && FreeList(v) && x < |v.kind| && v.kind[x] == Loose(len)
    ensures 0 < len && x + len <= |v.kind| && 0 <= v.hdr[FreeRef(v)].next < |v.hdr|
    ensures FreeList(AfterSettle(v, x, len))
  {
    LooseApart(v, x, len);
    RunClosed(v.kind, x);
    RelabelAt(v.kind, x, len, FreeHead(len), FreeBody(x));
    ChainKept(v.hdr, Marked(v.hdr, x, len), FreeRef(v), v.free);
    PushChain(Marked(v.hdr, x, len), FreeRef(v), v.free, x, TAG_PAGE);
    var v' := AfterSettle(v, x, len);
    forall i | 0 <= i < |v'.kind|
      ensures i in v'.free <==> v'.kind[i].FreeHead?
    {
      assert i in v.free <==> v.kind[i].FreeHead?;
    }
  }

  lemma SettleCells(v: View, x: nat, len: nat)
    requires Headers(v) && FreeList(v) && x < |v.kind| && v.kind[x] == Loose(len)
    ensures 0 < len && x + len <= |v.kind| && 0 <= v.hdr[FreeRef(v)].next < |v.hdr|
    ensures var g := AfterSettle(v, x, len).hdr;
      && |g| == |v.hdr| && g[x].slab == len && g[x].tag == TAG_PAGE
      && (forall i :: x < i < x + len ==> BodyHeader(g[i], 0) && (i + 1 == x + len ==> g[i].prev == x))
      && (forall i :: 0 <= i < |v.kind| && !(x <= i < x + len) ==> HeaderKept(v.hdr[i], g[i], v.kind[i]))
  {
    LooseApart(v, x, len);
    assert PageHeader(v.hdr[x], v.kind, v.words, x);
    forall i | x < i < x + len
      ensures BodyHeader(v.hdr[i], 0)
    {
      assert PageHeader(v.hdr[i], v.kind, v.words, i);
    }
    var f := v.hdr[FreeRef(v)].next;
    assert f < |v.kind| ==> PageHeader(v.hdr[f], v.kind, v.words, f);
  }

  lemma SettleHeaders(v: View, x: nat, len: nat)
    requires Headers(v) && FreeList(v) && x < |v.kind| && v.kind[x] == Loose(len)
    ensures 0 < len && x + len <= |v.kind| && 0 <= v.hdr[FreeRef(v)].next < |v.hdr|
    ensures Headers(AfterSettle(v, x, len))
  {
    SettleCells(v, x, len);
    RunClosed(v.kind, x);
    var v' := AfterSettle(v, x, len);
    RelabelAt(v.kind, x, len, FreeHead(len), FreeBody(x));
    RelabelTiling(v.kind, x, len, FreeHead(len), FreeBody(x));
    forall i | 0 <= i < |v'.kind|
      ensures PageHeader(v'.hdr[i], v'.kind, v'.words, i)
    {
      assert Tile(v'.kind, i);
      if !(x <= i < x + len) {
        RelabelHeader(v, v'.hdr[i], x, len, FreeHead(len), FreeBody(x), i);
      }
    }
  }

  lemma SettleSlot(v: View, x: nat, len: nat, s: nat)
    requires Headers(v) && FreeList(v) && x < |v.kind| && v.kind[x] == Loose(len) && s < SLOTS && s < |v.slots| && SlotList(v, s)
    ensures 0 < len && x + len <= |v.kind| && 0 <= v.hdr[FreeRef(v)].next < |v.hdr|
    ensures SlotList(AfterSettle(v, x, len), s)
  {
    LooseApart(v, x, len);
    RelabelAt(v.kind, x, len, FreeHead(len), FreeBody(x));
    SlotUntouched(v, AfterSettle(v, x, len), s);
  }

  lemma SettleSums(kind: seq<Kind>, x: nat, len: nat, m: Measure)
    requires Tiling(kind) && x < |kind| && kind[x] == Loose(len)
    ensures Sum(Relabel(kind, x, len, FreeHead(len), FreeBody(x)), m) == Sum(kind, m)
  {
    assert Tile(kind, x);
    RelabelAt(kind, x, len, FreeHead(len), FreeBody(x));
    SumSame(kind, Relabel(kind, x, len, FreeHead(len), FreeBody(x)), m);
  }

  /** A loose run with settled neighbours goes back on the free list, and the pages are settled again. */
  lemma SettleInv(v: View, x: nat, len: nat)
    requires Loosened(v, x, len) && RightClear(v.kind, x, len) && LeftClear(v.kind, x)
    ensures 0 < len && x + len <= |v.kind| && 0 <= v.hdr[FreeRef(v)].next < |v.hdr|
    ensures var v' := AfterSettle(v, x, len);
      && Sound(v') && Coalesced(v'.kind) && (forall i :: 0 <= i < |v'.kind| ==> Settled(v'.kind[i]))
      && (forall m :: Sum(v'.kind, m) == Sum(v.kind, m))
  {
    SettleList(v, x, len);
    SettleHeaders(v, x, len);
    var v' := AfterSettle(v, x, len);
    forall s | 0 <= s < SLOTS
      ensures SlotList(v', s)
    {
      SettleSlot(v, x, len, s);
    }
    forall m ensures Sum(v'.kind, m) == Sum(v.kind, m) { SettleSums(v.kind, x, len, m); }
    SettleKinds(v.kind, x, len);
  }

  lemma SettleKinds(kind: seq<Kind>, x: nat, len: nat)
    requires Tiling(kind) && Coalesced(kind) && x < |kind| && kind[x] == Loose(len)
    requires RightClear(kind, x, len) && LeftClear(kind, x)
    requires forall i :: 0 <= i < |kind| && !(x <= i < x + len) ==> Settled(kind[i])
    ensures var kind' := Relabel(kind, x, len, FreeHead(len), FreeBody(x));
      Coalesced(kind') && forall i :: 0 <= i < |kind'| ==> Settled(kind'[i])
  {
    assert Tile(kind, x);
    RunClosed(kind, x);
    RelabelAt(kind, x, len, FreeHead(len), FreeBody(x));
    var kind' := Relabel(kind, x, len, FreeHead(len), FreeBody(x));
    forall i | 0 <= i < |kind'|
      ensures Apart(kind', i)
    {
      assert Apart(kind, i);
    }
  }
}
