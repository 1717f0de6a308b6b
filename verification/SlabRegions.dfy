/** The memory a pool has handed out: which bytes, and that no two allocations share any. */
module SlabRegions {
  import opened Words
  import opened SlabList
  import opened SlabView
  import opened SlabBits

  /** One allocation: `len` whole pages from page x on, or chunk c of page x. */
  datatype Region = Pages(x: nat, len: nat) | Chunk(x: nat, shift: nat, c: nat)

  ghost predicate Live(kind: seq<Kind>, r: Region) {
    r.x < |kind| &&
    match r
    case Pages(x, len) => kind[x] == RunHead(len)
    case Chunk(x, shift, c) => kind[x].Chunks? && kind[x].shift == shift && c in kind[x].busy
  }

  /** The address the caller gets: that of the page, and the shifted chunk number for a chunk. */
  function Addr(start: nat, r: Region): nat {
    match r
    case Pages(x, _) => start + x * PAGE
    case Chunk(x, shift, c) => start + x * PAGE + Join(c, 0, shift)
  }

  function Bytes(r: Region): nat {
    match r
    case Pages(_, len) => len * PAGE
    case Chunk(_, shift, _) => Size(shift)
  }

  /** A shifted chunk number is a multiple of the chunk size. */
  lemma ShlTable(c: nat, shift: nat)
    requires MIN_SHIFT <= shift <= MAX_SHIFT
    ensures shift == 3 ==> Join(c, 0, shift) == 8 * c
    ensures shift == 4 ==> Join(c, 0, shift) == 16 * c
    ensures shift == 5 ==> Join(c, 0, shift) == 32 * c
    ensures shift == 6 ==> Join(c, 0, shift) == 64 * c
    ensures shift == 7 ==> Join(c, 0, shift) == 128 * c
    ensures shift == 8 ==> Join(c, 0, shift) == 256 * c
    ensures shift == 9 ==> Join(c, 0, shift) == 512 * c
    ensures shift == 10 ==> Join(c, 0, shift) == 1024 * c
    ensures shift == 11 ==> Join(c, 0, shift) == 2048 * c
  {
    ShlStep(c, 0);
    ShlStep(c, 1);
    ShlStep(c, 2);
    ShlStep(c, 3);
    ShlStep(c, 4);
    ShlStep(c, 5);
    ShlStep(c, 6);
    ShlStep(c, 7);
    ShlStep(c, 8);
    ShlStep(c, 9);
    ShlStep(c, 10);
  }

  lemma ShlStep(c: nat, k: nat)
    ensures Join(c, 0, k + 1) == 2 * Join(c, 0, k)
  {
  }

  /** A chunk lies inside its page, after the bitmap if the page holds one. */
  lemma ChunkSpan(shift: nat, c: nat)
    requires MIN_SHIFT <= shift <= MAX_SHIFT && Reserved(shift) <= c < Count(shift)
    ensures Join(c, 0, shift) + Size(shift) <= PAGE
    ensures shift < EXACT_SHIFT ==> MapWords(shift) * 8 <= Join(c, 0, shift)
  {
    ShiftTable(shift);
    ShlTable(c, shift);
  }

  lemma ChunksDisjoint(shift: nat, c: nat, d: nat)
    requires MIN_SHIFT <= shift <= MAX_SHIFT && c < d
    ensures Join(c, 0, shift) + Size(shift) <= Join(d, 0, shift)
  {
    ShiftTable(shift);
    ShlTable(c, shift);
    ShlTable(d, shift);
  }

  /** The pages a live region occupies. */
  ghost function PageCount(r: Region): nat {
    if r.Pages? then r.len else 1
  }

  lemma LiveInside(kind: seq<Kind>, start: nat, r: Region)
    requires Tiling(kind) && Live(kind, r)
    ensures 0 < Bytes(r) && r.x + PageCount(r) <= |kind|
    ensures start + r.x * PAGE <= Addr(start, r) && Addr(start, r) + Bytes(r) <= start + (r.x + PageCount(r)) * PAGE
    ensures Addr(start, r) + Bytes(r) <= start + |kind| * PAGE
  {
    assert Tile(kind, r.x);
    if r.Chunk? { ChunkSpan(r.shift, r.c); }
  }

  /** Any two live allocations occupy disjoint bytes. */
  lemma LiveDisjoint(kind: seq<Kind>, start: nat, r: Region, q: Region)
    requires Tiling(kind) && Live(kind, r) && Live(kind, q) && r != q
    ensures Addr(start, r) + Bytes(r) <= Addr(start, q) || Addr(start, q) + Bytes(q) <= Addr(start, r)
  {
    LiveInside(kind, start, r);
    LiveInside(kind, start, q);
    assert Tile(kind, r.x) && Tile(kind, q.x);
    if r.x == q.x {
      if r.c < q.c { ChunksDisjoint(r.shift, r.c, q.c); } else { ChunksDisjoint(r.shift, q.c, r.c); }
    } else if r.x < q.x {
      LaterPage(kind, r, q);
    } else {
      LaterPage(kind, q, r);
    }
  }

  lemma LaterPage(kind: seq<Kind>, r: Region, q: Region)
    requires Tiling(kind) && Live(kind, r) && Live(kind, q) && r.x < q.x
    ensures r.x + PageCount(r) <= q.x
  {
    assert Tile(kind, r.x);
  }

  /** Two live allocations never have the same address. */
  lemma LiveUnique(kind: seq<Kind>, start: nat, r: Region, q: Region)
    requires Tiling(kind) && Live(kind, r) && Live(kind, q) && Addr(start, r) == Addr(start, q)
    ensures r == q
  {
    if r != q {
      LiveDisjoint(kind, start, r, q);
      LiveInside(kind, start, r);
      LiveInside(kind, start, q);
    }
  }

  // ---- everything freed ----

  /** A live region that page i belongs to, if it belongs to one. */
  ghost function RegionOf(kind: seq<Kind>, i: nat): Region
    requires i < |kind|
  {
    match kind[i]
    case RunHead(len) => Pages(i, len)
    case RunBody(h) => Pages(h, if h < |kind| && kind[h].RunHead? then kind[h].len else 0)
    case Chunks(shift, busy) => Chunk(i, shift, if busy == {} then 0 else var c :| c in busy; c)
    case _ => Pages(i, 0)
  }

  lemma FreePage(v: View, i: nat)
    requires Inv(v) && i < |v.kind| && !Live(v.kind, RegionOf(v.kind, i))
    ensures v.kind[i].FreeHead? || v.kind[i].FreeBody?
  {
    assert Tile(v.kind, i) && Settled(v.kind[i]);
  }

  /** Once everything is freed the pool is one free run of all its pages again. */
  lemma AllFreed(v: View)
    requires Inv(v) && forall r :: !Live(v.kind, r)
    ensures v.kind[0] == FreeHead(|v.kind|) && v.free == [0] && v.pfree == |v.kind|
    ensures forall s :: 0 <= s < SLOTS ==> v.slots[s] == []
  {
    forall i | 0 <= i < |v.kind|
      ensures v.kind[i].FreeHead? || v.kind[i].FreeBody?
    {
      assert !Live(v.kind, RegionOf(v.kind, i));
      FreePage(v, i);
    }
    assert Tile(v.kind, 0);
    AfterRunFree(v.kind, 0);
    assert Apart(v.kind, 0);
    OneRun(v);
    forall s | 0 <= s < SLOTS
      ensures v.slots[s] == []
    {
      assert SlotList(v, s);
      NoPartial(v.kind, v.slots[s], s);
    }
  }

  lemma NoPartial(kind: seq<Kind>, list: seq<int>, s: nat)
    requires ListsPartial(kind, list, s) && forall i :: 0 <= i < |kind| ==> !kind[i].Chunks?
    ensures list == []
  {
    if list != [] { SomeChunks(kind, list, s); }
  }

  lemma SomeChunks(kind: seq<Kind>, list: seq<int>, s: nat)
    requires ListsPartial(kind, list, s) && list != []
    ensures exists i :: 0 <= i < |kind| && kind[i].Chunks?
  {
    PartialElements(kind, list, s);
    assert kind[list[0]].Chunks?;
  }

  lemma AfterRunFree(kind: seq<Kind>, x: nat)
    requires Tiling(kind) && x < |kind| && kind[x].FreeHead?
    ensures x + kind[x].len < |kind| ==> !kind[x + kind[x].len].FreeBody?
  {
    assert Tile(kind, x);
    if x + kind[x].len < |kind| {
      var y := x + kind[x].len;
      assert Tile(kind, y);
      var w := if kind[y].FreeBody? then kind[y].head else y;
      assert Tile(kind, w);
    }
  }

  lemma OneRun(v: View)
    requires Sound(v) && 0 < |v.kind| && v.kind[0] == FreeHead(|v.kind|)
    ensures v.free == [0] && v.pfree == |v.kind|
  {
    assert Tile(v.kind, 0);
    assert 0 in v.free;
    forall i | 0 <= i < |v.free|
      ensures v.free[i] == 0
    {
      assert v.free[i] in v.free;
    }
    if |v.free| > 1 { SomeOther(v.free); }
    OneRunSum(v.kind);
  }

  lemma SomeOther(list: seq<int>)
    requires Distinct(list) && |list| > 1
    ensures exists i :: 0 <= i < |list| && list[i] != 0
  {
    assert list[0] != list[1];
  }

  lemma OneRunSum(kind: seq<Kind>)
    requires 0 < |kind| && kind[0].FreeHead? && forall i :: 0 < i < |kind| ==> kind[i].FreeBody?
    ensures Sum(kind, FreePages) == kind[0].len
  {
    assert forall i :: 0 <= i < |kind[1..]| ==> kind[1..][i] == kind[i + 1];
    NoFreeSum(kind[1..]);
  }

  lemma {:induction false} NoFreeSum(kind: seq<Kind>)
    requires forall i :: 0 <= i < |kind| ==> kind[i].FreeBody?
    ensures Sum(kind, FreePages) == 0
  {
    if kind != [] { NoFreeSum(kind[1..]); }
  }

  // ---- decoding an address ----

  /** p & (ngx_pagesize - 1) keeps what p & (size - 1) looks at. */
  lemma LowOfPage(p: nat, shift: nat)
    requires shift <= 12
    ensures Low(p, shift) == Low(p % PAGE, shift)
  {
    LowIsMod(p);
    LowOfLow(p, shift, 12);
  }

  lemma LowIsMod(p: nat)
    ensures Low(p, 12) == p % PAGE
  {
    LowThree(p, 12);
    LowThree(p / 8, 9);
    LowThree(p / 64, 6);
    LowThree(p / 512, 3);
    assert p / 8 / 8 == p / 64 && p / 64 / 8 == p / 512;
    assert Low(p / 512, 3) == p / 512 % 8;
    Mod64(p / 64);
    Mod512(p / 8);
    Mod4096(p);
  }

  lemma Mod64(p: nat)
    ensures p % 64 == 8 * (p / 8 % 8) + p % 8
  {
  }

  lemma Mod512(p: nat)
    ensures p % 512 == 8 * (p / 8 % 64) + p % 8
  {
  }

  lemma Mod4096(p: nat)
    ensures p % 4096 == 8 * (p / 8 % 512) + p % 8
  {
  }

  lemma LowThree(p: nat, k: nat)
    requires 3 <= k
    ensures Low(p, k) == 8 * Low(p / 8, k - 3) + p % 8
  {
    var p2 := p / 2;
    var p4 := p2 / 2;
    assert p4 / 2 == p / 8 by { Eighth(p); }
    assert Low(p, k) == 2 * Low(p2, k - 1) + p % 2;
    assert Low(p2, k - 1) == 2 * Low(p4, k - 2) + p2 % 2;
    assert Low(p4, k - 2) == 2 * Low(p4 / 2, k - 3) + p4 % 2;
    assert 4 * (p4 % 2) + 2 * (p2 % 2) + p % 2 == p % 8 by { Eighth(p); }
  }

  lemma Eighth(p: nat)
    ensures p / 2 / 2 / 2 == p / 8 && 4 * (p / 2 / 2 % 2) + 2 * (p / 2 % 2) + p % 2 == p % 8
  {
  }

  lemma PageOfAddress(start: nat, p: nat)
    requires start % PAGE == 0 && start <= p
    ensures p == start + (p - start) / PAGE * PAGE + p % PAGE
  {
    assert (p - start) % PAGE == p % PAGE;
  }

  /** An address inside a chunked page is the address of a chunk when its low bits are clear. */
  lemma DecodeChunk(start: nat, p: nat, shift: nat)
    requires start % PAGE == 0 && start <= p && MIN_SHIFT <= shift <= MAX_SHIFT && Low(p, shift) == 0
    ensures Shr(p % PAGE, shift) < Count(shift)
    ensures p == Addr(start, Chunk((p - start) / PAGE, shift, Shr(p % PAGE, shift)))
  {
    LowOfPage(p, shift);
    PageOfAddress(start, p);
    JoinShr(p % PAGE, shift);
    ShrBound(p % PAGE, shift);
  }

  lemma {:induction false} JoinShr(w: nat, k: nat)
    requires Low(w, k) == 0
    ensures Join(Shr(w, k), 0, k) == w
  {
    if k > 0 { JoinShr(w / 2, k - 1); }
  }

  lemma {:induction false} ShrMonotone(v: nat, w: nat, k: nat)
    requires v <= w
    ensures Shr(v, k) <= Shr(w, k)
  {
    if k > 0 { ShrMonotone(v / 2, w / 2, k - 1); }
  }

  lemma ShrBound(off: nat, shift: nat)
    requires off < PAGE && MIN_SHIFT <= shift <= MAX_SHIFT
    ensures Shr(off, shift) < Count(shift)
  {
    ShrMonotone(off, PAGE - 1, shift);
    ShrOnes(shift);
  }

  lemma ShrThree(w: nat, k: nat)
    requires 3 <= k
    ensures Shr(w, k) == Shr(w / 8, k - 3)
  {
    assert Shr(w, k) == Shr(w / 2, k - 1);
    assert Shr(w / 2, k - 1) == Shr(w / 4, k - 2);
    assert Shr(w / 4, k - 2) == Shr(w / 8, k - 3);
  }

  lemma ShrOnes(shift: nat)
    requires MIN_SHIFT <= shift <= MAX_SHIFT
    ensures Shr(PAGE - 1, shift) + 1 == Count(shift)
  {
    ShiftTable(shift);
    ShrThree(PAGE - 1, shift);
    if shift >= 6 { ShrThree(511, shift - 3); }
    if shift >= 9 { ShrThree(63, shift - 6); }
  }

  lemma PageOffset(start: nat, x: nat, off: nat)
    requires start % PAGE == 0 && off < PAGE
    ensures (start + x * PAGE + off - start) / PAGE == x && (start + x * PAGE + off) % PAGE == off
  {
    assert (start + x * PAGE) % PAGE == 0;
  }

  /** The address of a chunk decodes to the chunk. */
  lemma EncodeChunk(start: nat, r: Region)
    requires start % PAGE == 0 && r.Chunk? && MIN_SHIFT <= r.shift <= MAX_SHIFT && Reserved(r.shift) <= r.c < Count(r.shift)
    ensures var p := Addr(start, r);
      start <= p && (p - start) / PAGE == r.x && Shr(p % PAGE, r.shift) == r.c && Low(p, r.shift) == 0
  {
    var off := Join(r.c, 0, r.shift);
    assert off < PAGE by { ShiftTable(r.shift); ChunkSpan(r.shift, r.c); }
    JoinParts(r.c, 0, r.shift);
    PageOffset(start, r.x, off);
    LowOfPage(start + r.x * PAGE + off, r.shift);
    LowZero(r.shift);
  }

  /** Chunks are aligned to their size class and stay clear of the bitmap; page runs are aligned to pages. */
  lemma LiveAligned(kind: seq<Kind>, start: nat, r: Region)
    requires Tiling(kind) && Live(kind, r) && start % PAGE == 0
    ensures r.Chunk? ==> Low(Addr(start, r), r.shift) == 0 && Bytes(r) == Size(r.shift)
    ensures r.Chunk? && r.shift < EXACT_SHIFT ==> start + r.x * PAGE + MapWords(r.shift) * 8 <= Addr(start, r)
    ensures r.Pages? ==> Addr(start, r) % PAGE == 0
  {
    assert Tile(kind, r.x);
    if r.Chunk? {
      ChunkSpan(r.shift, r.c);
      EncodeChunk(start, r);
    }
  }

  // ---- the words of the pages ----

  /** Word k of the pool's pages has a byte in common with the region. */
  ghost predicate Touches(r: Region, k: nat) {
    Addr(0, r) < 8 * k + 8 && 8 * k < Addr(0, r) + Bytes(r)
  }

  lemma BitmapUntouched(kind: seq<Kind>, i: nat, k: nat, r: Region)
    requires Tiling(kind) && i < |kind| && kind[i].Chunks? && kind[i].shift < EXACT_SHIFT && Live(kind, r)
    requires i * PAGE_WORDS <= k < i * PAGE_WORDS + MapWords(kind[i].shift)
    ensures !Touches(r, k)
  {
    assert Tile(kind, i) && Tile(kind, r.x);
    ShiftTable(kind[i].shift);
    LiveInside(kind, 0, r);
    if r.x == i {
      ChunkSpan(r.shift, r.c);
    }
  }

  /** Word k belongs to the bitmap that page x holds. */
  ghost predicate BitmapWord(kind: seq<Kind>, x: nat, k: nat) {
    && x < |kind| && kind[x].Chunks? && kind[x].shift < EXACT_SHIFT
    && x * PAGE_WORDS <= k < x * PAGE_WORDS + MapWords(kind[x].shift)
  }

  /** No words have changed but those of the bitmap that page x holds, if it holds one. */
  ghost predicate OnlyBitmap(kind: seq<Kind>, x: nat, words: seq<nat>, words': seq<nat>) {
    |words'| == |words| && forall k :: 0 <= k < |words| && words'[k] != words[k] ==> BitmapWord(kind, x, k)
  }

  /** The contents of a region are what they were. */
  ghost predicate MemoryKept(r: Region, words: seq<nat>, words': seq<nat>) {
    |words'| == |words| && forall k :: 0 <= k < |words| && Touches(r, k) ==> words'[k] == words[k]
  }

  lemma BitmapSparesRegions(kind: seq<Kind>, x: nat, words: seq<nat>, words': seq<nat>)
    requires Tiling(kind) && OnlyBitmap(kind, x, words, words')
    ensures forall r :: Live(kind, r) ==> MemoryKept(r, words, words')
  {
    forall r, k | Live(kind, r) && 0 <= k < |words| && Touches(r, k)
      ensures words'[k] == words[k]
    {
      if BitmapWord(kind, x, k) { BitmapUntouched(kind, x, k, r); }
    }
  }
}
