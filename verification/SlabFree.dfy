/** Returning pages: loosening a run, joining it with its free neighbours and putting it on the free list. */
module SlabFree {
  import opened SlabList
  import opened SlabView
  import opened SlabAlloc

  // ---- relabelling a stretch of pages ----

  ghost function Relabel(kind: seq<Kind>, x: nat, len: nat, head: Kind, body: Kind): seq<Kind> {
    seq(|kind|, i requires 0 <= i < |kind| => if i == x then head else if x < i < x + len then body else kind[i])
  }

  lemma RelabelAt(kind: seq<Kind>, x: nat, len: nat, head: Kind, body: Kind)
    ensures |Relabel(kind, x, len, head, body)| == |kind|
    ensures forall i :: 0 <= i < |kind| ==>
      Relabel(kind, x, len, head, body)[i] == if i == x then head else if x < i < x + len then body else kind[i]
  {
  }

  ghost predicate IsHead(k: Kind) { k.FreeHead? || k.RunHead? || k.Loose? }

  ghost predicate IsBody(k: Kind) { k.FreeBody? || k.RunBody? || k.LooseBody? }

  /** No run straddles the borders of x .. x + len. */
  ghost predicate Closed(kind: seq<Kind>, x: nat, len: nat) {
    && 0 < len && x + len <= |kind|
    && forall i :: 0 <= i < |kind| && !(x <= i < x + len) ==>
      && (IsHead(kind[i]) ==> i + kind[i].len <= x || x + len <= i)
      && (IsBody(kind[i]) ==> kind[i].head < |kind| && !(x <= kind[i].head < x + len))
  }

  lemma RunClosed(kind: seq<Kind>, x: nat)
    requires Tiling(kind) && x < |kind| && IsHead(kind[x])
    ensures Closed(kind, x, kind[x].len)
  {
    assert Tile(kind, x);
    forall i | 0 <= i < |kind| && !(x <= i < x + kind[x].len)
      ensures IsHead(kind[i]) ==> i + kind[i].len <= x || x + kind[x].len <= i
      ensures IsBody(kind[i]) ==> kind[i].head < |kind| && !(x <= kind[i].head < x + kind[x].len)
    {
      OutsideRun(kind, x, i);
    }
  }

  lemma PageClosed(kind: seq<Kind>, x: nat)
    requires Tiling(kind) && x < |kind| && kind[x].Chunks?
    ensures Closed(kind, x, 1)
  {
    forall i | 0 <= i < |kind| && i != x
      ensures IsHead(kind[i]) ==> i + kind[i].len <= x || x + 1 <= i
      ensures IsBody(kind[i]) ==> kind[i].head < |kind| && kind[i].head != x
    {
      assert Tile(kind, i);
    }
  }

  lemma UnionClosed(kind: seq<Kind>, x: nat, len: nat, m: nat)
    requires Closed(kind, x, len) && Closed(kind, x + len, m)
    ensures Closed(kind, x, len + m)
  {
  }

  ghost predicate Labels(x: nat, len: nat, head: Kind, body: Kind) {
    || (head == FreeHead(len) && body == FreeBody(x))
    || (head == Loose(len) && body == LooseBody(x))
  }

  lemma RelabelTiling(kind: seq<Kind>, x: nat, len: nat, head: Kind, body: Kind)
    requires Tiling(kind) && Closed(kind, x, len) && Labels(x, len, head, body)
    ensures Tiling(Relabel(kind, x, len, head, body))
  {
    RelabelAt(kind, x, len, head, body);
    var kind' := Relabel(kind, x, len, head, body);
    forall i | 0 <= i < |kind'|
      ensures Tile(kind', i)
    {
      assert Tile(kind, i);
    }
  }

  /** Headers of pages outside the stretch that keep their label need only keep what their label asks for. */
  ghost predicate HeaderKept(h: Header, g: Header, k: Kind) {
    && g.slab == h.slab && g.tag == h.tag
    && (k.FreeBody? || k.RunHead? || k.RunBody? || k.LooseBody? ==> g == h)
    && (IsFull(k) ==> g.next == h.next)
  }

  lemma RelabelHeader(v: View, g: Header, x: nat, len: nat, head: Kind, body: Kind, i: nat)
    requires Headers(v) && Closed(v.kind, x, len) && Labels(x, len, head, body)
    requires i < |v.kind| && !(x <= i < x + len) && HeaderKept(v.hdr[i], g, v.kind[i])
    ensures var kind' := Relabel(v.kind, x, len, head, body);
            |kind'| == |v.kind| && Tile(kind', i) && PageHeader(g, kind', v.words, i)
  {
    RelabelAt(v.kind, x, len, head, body);
    RelabelTiling(v.kind, x, len, head, body);
    assert Tile(v.kind, i) && PageHeader(v.hdr[i], v.kind, v.words, i);
    var kind' := Relabel(v.kind, x, len, head, body);
    assert Tile(kind', i) && kind'[i] == v.kind[i];
    if v.kind[i].FreeBody? {
      assert kind'[v.kind[i].head] == v.kind[v.kind[i].head];
    }
  }

  /** The invariant part of a relabelling to a loose run. */
  lemma LooseHeaders(v: View, g: seq<Header>, x: nat, len: nat)
    requires Headers(v) && Closed(v.kind, x, len) && |g| == |v.hdr|
    requires forall i :: 0 <= i < |v.kind| && !(x <= i < x + len) ==> HeaderKept(v.hdr[i], g[i], v.kind[i])
    requires g[x].slab == len && forall i :: x < i < x + len ==> BodyHeader(g[i], 0)
    ensures Headers(v.(hdr := g, kind := Relabel(v.kind, x, len, Loose(len), LooseBody(x))))
  {
    RelabelAt(v.kind, x, len, Loose(len), LooseBody(x));
    RelabelTiling(v.kind, x, len, Loose(len), LooseBody(x));
    var kind' := Relabel(v.kind, x, len, Loose(len), LooseBody(x));
    forall i | 0 <= i < |kind'|
      ensures PageHeader(g[i], kind', v.words, i)
    {
      assert Tile(kind', i);
      if !(x <= i < x + len) {
        RelabelHeader(v, g[i], x, len, Loose(len), LooseBody(x), i);
      }
    }
  }

  // ---- absorbing a free run into a loose one ----

  /** The stretch z .. z + len is the loose run and the free run at y, side by side; o is the later of the two heads. */
  ghost predicate Mergeable(v: View, z: nat, len: nat, y: nat, o: nat) {
    && Headers(v) && y < |v.kind| && z < o < z + len && Closed(v.kind, z, len)
    && (y == z || y == o) && v.kind[y].FreeHead?
    && (if y == z then v.kind[o].Loose? else v.kind[z].Loose?)
    && IsHead(v.kind[z]) && IsHead(v.kind[o]) && z + v.kind[z].len == o && o + v.kind[o].len == z + len
  }

  /** Outside the stretch only the links of the list neighbours of y have changed; inside, the stretch is one loose run. */
  ghost predicate Merged(v: View, g: seq<Header>, z: nat, len: nat, y: nat)
    requires y < |v.hdr|
  {
    && |g| == |v.hdr|
    && (forall i :: 0 <= i < |g| && !(z <= i < z + len) ==>
         g[i] == Header(v.hdr[i].slab, if i == v.hdr[y].prev then v.hdr[y].next else v.hdr[i].next,
                        if i == v.hdr[y].next then v.hdr[y].prev else v.hdr[i].prev,
                        if i == v.hdr[y].next then v.hdr[y].tag else v.hdr[i].tag))
    && (z < |g| ==> g[z].slab == len)
    && (forall i :: z < i < z + len && i < |g| ==> BodyHeader(g[i], 0))
  }

  lemma StretchKinds(v: View, z: nat, len: nat, y: nat, o: nat)
    requires Mergeable(v, z, len, y, o)
    ensures forall i :: z <= i < z + len ==> IsHead(v.kind[i]) || IsBody(v.kind[i])
    ensures forall i :: z <= i < z + len && i != y ==> !v.kind[i].FreeHead?
    ensures forall i, m :: z <= i < z + len && i != z && i != o ==> Weight(v.kind[i], m) == 0
  {
    assert Tile(v.kind, z) && Tile(v.kind, o);
    forall i | z <= i < z + len
      ensures i == z || i == o || IsBody(v.kind[i])
    {
      if z < i < o {
        assert i < z + v.kind[z].len;
      } else if o < i {
        assert i < o + v.kind[o].len;
      }
    }
  }

  ghost function AfterMerge(v: View, g: seq<Header>, z: nat, len: nat, k: nat): View
    requires k < |v.free|
  {
    v.(hdr := g, kind := Relabel(v.kind, z, len, Loose(len), LooseBody(z)), free := Without(v.free, k))
  }

  lemma MergeHeaders(v: View, g: seq<Header>, z: nat, len: nat, k: nat, o: nat)
    requires FreeList(v) && k < |v.free| && 0 <= v.free[k] && Mergeable(v, z, len, v.free[k], o) && Merged(v, g, z, len, v.free[k])
    ensures Headers(AfterMerge(v, g, z, len, k))
  {
    FreeRun(v, k);
    forall i | 0 <= i < |v.kind| && !(z <= i < z + len)
      ensures HeaderKept(v.hdr[i], g[i], v.kind[i])
    {
      assert PageHeader(v.hdr[i], v.kind, v.words, i);
    }
    LooseHeaders(v, g, z, len);
  }

  lemma MergeFreeList(v: View, g: seq<Header>, z: nat, len: nat, k: nat, o: nat)
    requires FreeList(v) && k < |v.free| && 0 <= v.free[k] && Mergeable(v, z, len, v.free[k], o) && Merged(v, g, z, len, v.free[k])
    ensures FreeList(AfterMerge(v, g, z, len, k))
  {
    var y, rest := v.free[k], Without(v.free, k);
    FreeRun(v, k);
    StretchKinds(v, z, len, y, o);
    UnlinkChain(v.hdr, FreeRef(v), v.free, k);
    UnlinkedCells(v.hdr, y);
    WithoutMembers(v.free, k);
    RelabelAt(v.kind, z, len, Loose(len), LooseBody(z));
    forall i | 0 <= i < |rest|
      ensures 0 <= rest[i] < |v.kind| && !(z <= rest[i] < z + len)
    {
      assert rest[i] in rest && rest[i] in v.free;
    }
    ChainKept(Unlinked(v.hdr, y), g, FreeRef(v), rest);
  }

  lemma MergeSlot(v: View, g: seq<Header>, z: nat, len: nat, k: nat, o: nat, s: nat)
    requires FreeList(v) && k < |v.free| && 0 <= v.free[k] && Mergeable(v, z, len, v.free[k], o) && Merged(v, g, z, len, v.free[k])
    requires s < SLOTS && s < |v.slots| && SlotList(v, s)
    ensures SlotList(AfterMerge(v, g, z, len, k), s)
  {
    FreeRun(v, k);
    StretchKinds(v, z, len, v.free[k], o);
    RelabelAt(v.kind, z, len, Loose(len), LooseBody(z));
    SlotUntouched(v, AfterMerge(v, g, z, len, k), s);
  }

  lemma MergeSums(v: View, z: nat, len: nat, y: nat, o: nat, m: Measure)
    requires Mergeable(v, z, len, y, o)
    ensures Sum(Relabel(v.kind, z, len, Loose(len), LooseBody(z)), m) == Sum(v.kind, m)
  {
    StretchKinds(v, z, len, y, o);
    RelabelAt(v.kind, z, len, Loose(len), LooseBody(z));
    SumChange(v.kind, Relabel(v.kind, z, len, Loose(len), LooseBody(z)), z, o, m);
  }

  /** Absorbing the free run at v.free[k] keeps the invariant. */
  lemma MergeSound(v: View, g: seq<Header>, z: nat, len: nat, k: nat, o: nat)
    requires Sound(v) && k < |v.free| && 0 <= v.free[k] && Mergeable(v, z, len, v.free[k], o) && Merged(v, g, z, len, v.free[k])
    ensures Sound(AfterMerge(v, g, z, len, k))
  {
    MergeHeaders(v, g, z, len, k, o);
    MergeFreeList(v, g, z, len, k, o);
    RelabelAt(v.kind, z, len, Loose(len), LooseBody(z));
    forall s | 0 <= s < SLOTS
      ensures SlotList(AfterMerge(v, g, z, len, k), s)
    {
      MergeSlot(v, g, z, len, k, o, s);
    }
    MergeSums(v, z, len, v.free[k], o, FreePages);
  }

  // ---- loosening ----

  /** Pages from..to are zeroed, the rest keeps its headers. */
  ghost predicate Zeroed(h: seq<Header>, g: seq<Header>, from: int, to: int) {
    && |g| == |h|
    && (forall i :: 0 <= i < |h| && from <= i < to ==> g[i] == Header(0, NULL, NULL, TAG_PAGE))
    && (forall i :: 0 <= i < |h| && !(from <= i < to) ==> g[i] == h[i])
  }

  ghost function AfterLoosen(v: View, g: seq<Header>, x: nat, len: nat): View {
    v.(hdr := g, pfree := v.pfree + len, kind := Relabel(v.kind, x, len, Loose(len), LooseBody(x)))
  }

  /** A multi-page allocation becomes a loose run. */
  lemma LoosenRun(v: View, g: seq<Header>, x: nat, len: nat)
    requires Sound(v) && x < |v.kind| && v.kind[x] == RunHead(len)
    requires x < |v.hdr| && Zeroed(WithSlab(v.hdr, x, len), g, x + 1, x + len)
    ensures Sound(AfterLoosen(v, g, x, len))
    ensures forall s :: 0 <= s < SLOTS ==> Sum(AfterLoosen(v, g, x, len).kind, Used(s)) == Sum(v.kind, Used(s))
    ensures forall s :: 0 <= s < SLOTS ==> Sum(AfterLoosen(v, g, x, len).kind, Total(s)) == Sum(v.kind, Total(s))
  {
    var v' := AfterLoosen(v, g, x, len);
    assert Tile(v.kind, x);
    RunClosed(v.kind, x);
    RelabelAt(v.kind, x, len, Loose(len), LooseBody(x));
    LooseHeaders(v, g, x, len);
    LoosenLists(v, v', x, len);
    SumChange(v.kind, v'.kind, x, x, FreePages);
    forall s | 0 <= s < SLOTS
      ensures Sum(v'.kind, Used(s)) == Sum(v.kind, Used(s)) && Sum(v'.kind, Total(s)) == Sum(v.kind, Total(s))
    {
      SumSame(v.kind, v'.kind, Used(s));
      SumSame(v.kind, v'.kind, Total(s));
    }
  }

  /** Lists that do not run through the stretch. */
  lemma LoosenLists(v: View, v': View, x: nat, len: nat)
    requires Headers(v) && Lists(v) && x < |v.kind| && v.kind[x] == RunHead(len)
    requires v'.kind == Relabel(v.kind, x, len, Loose(len), LooseBody(x))
    requires v'.free == v.free && v'.slots == v.slots && |v'.hdr| == |v.hdr|
    requires forall i :: 0 <= i < |v.hdr| && !(x <= i < x + len) ==> v'.hdr[i] == v.hdr[i]
    ensures Lists(v')
  {
    assert Tile(v.kind, x);
    RelabelAt(v.kind, x, len, Loose(len), LooseBody(x));
    forall i | 0 <= i < |v.free|
      ensures 0 <= v.free[i] < |v.kind| && !(x <= v.free[i] < x + len)
    {
      assert v.free[i] in v.free;
    }
    ChainKept(v.hdr, v'.hdr, FreeRef(v), v.free);
    forall s | 0 <= s < SLOTS
      ensures SlotList(v', s)
    {
      assert SlotList(v, s);
      SlotUntouched(v, v', s);
    }
  }

  /** Slot s without its element k. */
  ghost function SlotsWithout(slots: seq<seq<int>>, s: nat, k: nat): seq<seq<int>>
    requires s < |slots| && k < |slots[s]|
  {
    slots[s := Without(slots[s], k)]
  }

  lemma LoosenOwnSlot(v: View, v': View, x: nat, s: nat, k: nat)
    requires s < SLOTS && 0 <= x < |v.hdr| && s < |v.slots| && SlotList(v, s) && k < |v.slots[s]| && v.slots[s][k] == x
    requires 0 <= x < |v.kind| && 0 <= v.hdr[x].prev < |v.hdr| && 0 <= v.hdr[x].next < |v.hdr| && v.hdr[x].prev != x
    requires v'.kind == Relabel(v.kind, x, 1, Loose(1), LooseBody(x))
    requires v'.slots == SlotsWithout(v.slots, s, k) && v'.hdr == Unlinked(WithSlab(v.hdr, x, 1), x)
    ensures SlotList(v', s)
  {
    UnlinkWithSlab(v.hdr, SlotRef(v, s), v.slots[s], k, 1);
    LoosenMembers(v.kind, v.slots[s], s, x, k);
    RelabelAt(v.kind, x, 1, Loose(1), LooseBody(x));
  }

  lemma UnlinkWithSlab(h: seq<Header>, head: int, list: seq<int>, k: nat, w: nat)
    requires Chain(h, head, list) && k < |list|
    ensures 0 <= list[k] < |h| && 0 <= h[list[k]].prev < |h| && 0 <= h[list[k]].next < |h| && h[list[k]].prev != list[k]
    ensures Chain(Unlinked(WithSlab(h, list[k], w), list[k]), head, Without(list, k))
  {
    InsideChain(h, head, list, k);
    ChainKept(h, WithSlab(h, list[k], w), head, list);
    UnlinkChain(WithSlab(h, list[k], w), head, list, k);
  }

  lemma LoosenOtherSlot(v: View, v': View, x: nat, s: nat, k: nat, r: nat)
    requires Headers(v) && s < SLOTS && r < SLOTS && s < |v.slots| && r < |v.slots| && r != s
    requires SlotList(v, s) && SlotList(v, r) && k < |v.slots[s]| && v.slots[s][k] == x
    requires 0 <= x < |v.kind| && 0 <= v.hdr[x].prev < |v.hdr| && 0 <= v.hdr[x].next < |v.hdr| && v.hdr[x].prev != x
    requires v'.kind == Relabel(v.kind, x, 1, Loose(1), LooseBody(x))
    requires v'.slots == SlotsWithout(v.slots, s, k) && v'.hdr == Unlinked(WithSlab(v.hdr, x, 1), x)
    ensures SlotList(v', r)
  {
    RelabelAt(v.kind, x, 1, Loose(1), LooseBody(x));
    SlotNeighbours(v, s, k);
    UnlinkedCells(WithSlab(v.hdr, x, 1), x);
    OtherSlot(v, v', x, s, k, r);
  }

  ghost function AfterRetire(v: View, x: nat, s: nat, k: nat): View
    requires x < |v.hdr| && 0 <= v.hdr[x].prev < |v.hdr| && 0 <= v.hdr[x].next < |v.hdr| && v.hdr[x].prev != x
    requires s < |v.slots| && k < |v.slots[s]|
  {
    v.(hdr := Unlinked(WithSlab(v.hdr, x, 1), x), pfree := v.pfree + 1,
       kind := Relabel(v.kind, x, 1, Loose(1), LooseBody(x)), slots := SlotsWithout(v.slots, s, k))
  }

  lemma RetireHeaders(v: View, x: nat, s: nat, k: nat)
    requires Headers(v) && s < SLOTS && s < |v.slots| && SlotList(v, s) && k < |v.slots[s]| && v.slots[s][k] == x
    requires 0 <= x < |v.kind| && v.kind[x].Chunks?
    requires 0 <= v.hdr[x].prev < |v.hdr| && 0 <= v.hdr[x].next < |v.hdr| && v.hdr[x].prev != x && v.hdr[x].next != x
    ensures Headers(AfterRetire(v, x, s, k))
  {
    PageClosed(v.kind, x);
    SlotNeighbours(v, s, k);
    var h := WithSlab(v.hdr, x, 1);
    UnlinkedCells(h, x);
    var g := Unlinked(h, x);
    forall i | 0 <= i < |v.kind| && i != x
      ensures HeaderKept(v.hdr[i], g[i], v.kind[i])
    {
      assert PageHeader(v.hdr[i], v.kind, v.words, i) && PageHeader(v.hdr[x], v.kind, v.words, x);
      NotFullLinked(v, s, i);
    }
    LooseHeaders(v, g, x, 1);
  }

  /** Only pages that are not full may be relinked. */
  lemma NotFullLinked(v: View, s: nat, i: nat)
    requires i < |v.kind|
    ensures Partial(v.kind[i], s) ==> v.kind[i].Chunks? && v.kind[i].shift == s + MIN_SHIFT && !IsFull(v.kind[i])
  {
  }

  lemma RetireFreeList(v: View, x: nat, s: nat, k: nat)
    requires Headers(v) && FreeList(v) && s < SLOTS && s < |v.slots| && SlotList(v, s) && k < |v.slots[s]| && v.slots[s][k] == x
    requires 0 <= x < |v.kind| && v.kind[x].Chunks?
    requires 0 <= v.hdr[x].prev < |v.hdr| && 0 <= v.hdr[x].next < |v.hdr| && v.hdr[x].prev != x && v.hdr[x].next != x
    ensures FreeList(AfterRetire(v, x, s, k))
  {
    RelabelAt(v.kind, x, 1, Loose(1), LooseBody(x));
    SlotNeighbours(v, s, k);
    UnlinkedCells(WithSlab(v.hdr, x, 1), x);
    forall i | 0 <= i < |v.free|
      ensures 0 <= v.free[i] < |v.kind| && v.kind[v.free[i]].FreeHead?
    {
      assert v.free[i] in v.free;
    }
    ChainKept(v.hdr, AfterRetire(v, x, s, k).hdr, FreeRef(v), v.free);
  }

  /** What the total of slot r loses when a page of slot s is returned. */
  ghost function Retired(r: nat, s: nat): int {
    if r == s then Count(s + MIN_SHIFT) - Reserved(s + MIN_SHIFT) else 0
  }

  /** An idle slab page becomes a loose run of one page. */
  lemma RetireSound(v: View, x: nat, s: nat, k: nat)
    requires Sound(v) && s < SLOTS && k < |v.slots[s]| && v.slots[s][k] == x
    requires 0 <= x < |v.kind| && v.kind[x] == Chunks(s + MIN_SHIFT, {})
    ensures 0 <= v.hdr[x].prev < |v.hdr| && 0 <= v.hdr[x].next < |v.hdr| && v.hdr[x].prev != x
    ensures Sound(AfterRetire(v, x, s, k))
    ensures forall r :: 0 <= r < SLOTS ==> Sum(AfterRetire(v, x, s, k).kind, Used(r)) == Sum(v.kind, Used(r))
    ensures forall r :: 0 <= r < SLOTS ==>
      Sum(AfterRetire(v, x, s, k).kind, Total(r)) == Sum(v.kind, Total(r)) - Retired(r, s)
  {
    assert SlotList(v, s);
    SlotNeighbours(v, s, k);
    RetireHeaders(v, x, s, k);
    RetireFreeList(v, x, s, k);
    var v' := AfterRetire(v, x, s, k);
    RelabelAt(v.kind, x, 1, Loose(1), LooseBody(x));
    forall r | 0 <= r < SLOTS
      ensures SlotList(v', r)
    {
      assert SlotList(v, r);
      if r == s { LoosenOwnSlot(v, v', x, s, k); } else { LoosenOtherSlot(v, v', x, s, k, r); }
    }
    RetireSums(v.kind, x, s);
  }

  lemma RetireSums(kind: seq<Kind>, x: nat, s: nat)
    requires x < |kind| && kind[x] == Chunks(s + MIN_SHIFT, {})
    ensures var kind' := Relabel(kind, x, 1, Loose(1), LooseBody(x));
      && Sum(kind', FreePages) == Sum(kind, FreePages) + 1
      && (forall r :: 0 <= r < SLOTS ==> Sum(kind', Used(r)) == Sum(kind, Used(r)))
      && (forall r :: 0 <= r < SLOTS ==> Sum(kind', Total(r)) == Sum(kind, Total(r)) - Retired(r, s))
  {
    var kind' := Relabel(kind, x, 1, Loose(1), LooseBody(x));
    RelabelAt(kind, x, 1, Loose(1), LooseBody(x));
    SumChange(kind, kind', x, x, FreePages);
    forall r | 0 <= r < SLOTS
      ensures Sum(kind', Used(r)) == Sum(kind, Used(r))
      ensures Sum(kind', Total(r)) == Sum(kind, Total(r)) - Retired(r, s)
    {
      SumChange(kind, kind', x, x, Used(r));
      SumChange(kind, kind', x, x, Total(r));
    }
  }

  lemma LoosenMembers(kind: seq<Kind>, list: seq<int>, s: nat, x: nat, k: nat)
    requires ListsPartial(kind, list, s) && Distinct(list) && k < |list| && list[k] == x && x < |kind|
    ensures ListsPartial(Relabel(kind, x, 1, Loose(1), LooseBody(x)), Without(list, k), s)
  {
    RelabelAt(kind, x, 1, Loose(1), LooseBody(x));
    WithoutMembers(list, k);
    var kind' := Relabel(kind, x, 1, Loose(1), LooseBody(x));
    forall i | 0 <= i < |kind|
      ensures i in Without(list, k) <==> Partial(kind'[i], s)
    {
      assert i in list <==> Partial(kind[i], s);
    }
  }

  /** The neighbours of an element of a slot list are the slot head or pages of the same slot. */
  lemma SlotNeighbours(v: View, s: nat, k: nat)
    requires Headers(v) && s < |v.slots| && s < SLOTS && SlotList(v, s) && k < |v.slots[s]|
    ensures 0 <= v.slots[s][k] < |v.kind| && Partial(v.kind[v.slots[s][k]], s)
    ensures var x := v.slots[s][k];
      && 0 <= v.hdr[x].prev < |v.hdr| && 0 <= v.hdr[x].next < |v.hdr| && v.hdr[x].prev != x && v.hdr[x].next != x
      && (v.hdr[x].prev == SlotRef(v, s) || (v.hdr[x].prev < |v.kind| && Partial(v.kind[v.hdr[x].prev], s)))
      && (v.hdr[x].next == SlotRef(v, s) || (v.hdr[x].next < |v.kind| && Partial(v.kind[v.hdr[x].next], s)))
  {
    var list := v.slots[s];
    InsideChain(v.hdr, SlotRef(v, s), list, k);
    assert list[k] in list;
    assert k > 0 ==> list[k - 1] in list;
    assert k + 1 < |list| ==> list[k + 1] in list;
  }

  /** A slot list is not disturbed by unlinking a page of another slot. */
  lemma OtherSlot(v: View, v': View, x: nat, s: nat, k: nat, r: nat)
    requires Headers(v) && s < |v.slots| && r < |v.slots| && s < SLOTS && r < SLOTS && r != s && SlotList(v, r)
    requires x < |v.kind| && Partial(v.kind[x], s)
    requires 0 <= v.hdr[x].prev < |v.hdr| && 0 <= v.hdr[x].next < |v.hdr|
    requires v.hdr[x].prev == SlotRef(v, s) || (v.hdr[x].prev < |v.kind| && Partial(v.kind[v.hdr[x].prev], s))
    requires v.hdr[x].next == SlotRef(v, s) || (v.hdr[x].next < |v.kind| && Partial(v.kind[v.hdr[x].next], s))
    requires |v'.hdr| == |v.hdr| && |v'.kind| == |v.kind| && r < |v'.slots| && v'.slots[r] == v.slots[r]
    requires forall i :: 0 <= i < |v.hdr| && i != v.hdr[x].prev && i != v.hdr[x].next && i != x ==>
      v'.hdr[i].next == v.hdr[i].next && v'.hdr[i].prev == v.hdr[i].prev
    requires forall i :: 0 <= i < |v.kind| && i != x ==> v'.kind[i] == v.kind[i]
    requires !Partial(v'.kind[x], r)
    ensures SlotList(v', r)
  {
    var list := v.slots[r];
    forall i | 0 <= i < |list|
      ensures 0 <= list[i] < |v.kind| && list[i] != x && list[i] != v.hdr[x].prev && list[i] != v.hdr[x].next
    {
      assert list[i] in list;
      assert Partial(v.kind[list[i]], r);
    }
    ChainKept(v.hdr, v'.hdr, SlotRef(v, r), list);
    forall i | 0 <= i < |v.kind|
      ensures i in list <==> Partial(v'.kind[i], r)
    {
      assert i in list <==> Partial(v.kind[i], r);
    }
  }
}
