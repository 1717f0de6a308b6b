/** What ngx_slab_free_locked makes of an address, and taking one chunk back. */
module SlabReturn {
  import opened Words
  import opened SlabList
  import opened SlabView
  import opened SlabBits
  import opened SlabChunks
  import opened SlabRegions
  import opened SlabGrant
  import opened SlabServe

  /** Whether the address was taken back, or the error that is logged instead. */
  datatype Outcome = Freed | OutsideOfPool | WrongChunk | ChunkAlreadyFree | PageAlreadyFree | WrongPage

  ghost predicate LiveAt(kind: seq<Kind>, start: nat, p: nat) {
    exists r :: Live(kind, r) && Addr(start, r) == p
  }

  /** The page an address inside the pool lies on. */
  function PageOf(start: nat, p: nat): nat
    requires start <= p
  {
    (p - start) / PAGE
  }

  /** The address of one of the chunks that hold the bitmap of a small-class page. */
  ghost predicate ReservedAt(kind: seq<Kind>, start: nat, p: nat) {
    && start <= p && PageOf(start, p) < |kind| && kind[PageOf(start, p)].Chunks?
    && var shift := kind[PageOf(start, p)].shift; Low(p, shift) == 0 && Shr(p % PAGE, shift) < Reserved(shift)
  }

  /** What should become of an address on page x, by what the page is used for. */
  ghost function Expected(kind: seq<Kind>, x: nat, p: nat): Outcome
    requires x < |kind|
  {
    match kind[x]
    case Chunks(shift, busy) =>
      if Low(p, shift) != 0 then WrongChunk else if Shr(p % PAGE, shift) in busy then Freed else ChunkAlreadyFree
    case RunHead(_) => if p % PAGE != 0 then WrongChunk else Freed
    case RunBody(_) => if p % PAGE != 0 then WrongChunk else WrongPage
    case _ => if p % PAGE != 0 then WrongChunk else PageAlreadyFree
  }

  /** The live region at an address that is accepted. */
  function RegionAt(k: Kind, x: nat, p: nat): Region {
    match k
    case Chunks(shift, _) => Chunk(x, shift, Shr(p % PAGE, shift))
    case RunHead(len) => Pages(x, len)
    case _ => Pages(x, 0)
  }

  lemma PageBase(start: nat, p: nat)
    requires start % PAGE == 0 && start <= p && p % PAGE == 0
    ensures p == start + PageOf(start, p) * PAGE
  {
    PageOfAddress(start, p);
  }

  lemma PageOfRegion(kind: seq<Kind>, start: nat, r: Region)
    requires Tiling(kind) && start % PAGE == 0 && Live(kind, r)
    ensures start <= Addr(start, r) && PageOf(start, Addr(start, r)) == r.x
    ensures r.Pages? ==> Addr(start, r) % PAGE == 0
    ensures r.Chunk? ==> Low(Addr(start, r), r.shift) == 0 && Shr(Addr(start, r) % PAGE, r.shift) == r.c
  {
    assert Tile(kind, r.x);
    if r.Chunk? { EncodeChunk(start, r); }
  }

  /** Exactly the addresses of live allocations should be accepted, and each of them is that of one allocation. */
  lemma AcceptedIsLive(kind: seq<Kind>, start: nat, p: nat)
    requires Tiling(kind) && start % PAGE == 0 && start <= p && PageOf(start, p) < |kind|
    ensures Expected(kind, PageOf(start, p), p) == Freed <==> LiveAt(kind, start, p)
    ensures LiveAt(kind, start, p) ==>
      var r := RegionAt(kind[PageOf(start, p)], PageOf(start, p), p);
      Live(kind, r) && Addr(start, r) == p && forall q :: Live(kind, q) && Addr(start, q) == p ==> q == r
  {
    var x := PageOf(start, p);
    var r := RegionAt(kind[x], x, p);
    assert Tile(kind, x);
    if Expected(kind, x, p) == Freed {
      if kind[x].Chunks? { DecodeChunk(start, p, kind[x].shift); } else { PageBase(start, p); }
      assert Live(kind, r) && Addr(start, r) == p;
    }
    forall q | Live(kind, q) && Addr(start, q) == p
      ensures q == r && Expected(kind, x, p) == Freed
    {
      PageOfRegion(kind, start, q);
    }
  }

  /** No live allocation starts in the chunks that hold a bitmap. */
  lemma ReservedNotLive(kind: seq<Kind>, start: nat, p: nat)
    requires Tiling(kind) && start % PAGE == 0 && ReservedAt(kind, start, p)
    ensures !LiveAt(kind, start, p)
  {
    assert Tile(kind, PageOf(start, p));
    forall q | Live(kind, q)
      ensures Addr(start, q) != p
    {
      PageOfRegion(kind, start, q);
      assert Tile(kind, q.x);
    }
  }

  /** Every small-class page has the address of such a chunk: its own. */
  lemma BitmapAddress(v: View, start: nat, x: nat)
    requires Inv(v) && start % PAGE == 0 && x < |v.kind| && v.kind[x].Chunks? && v.kind[x].shift < EXACT_SHIFT
    ensures ReservedAt(v.kind, start, start + x * PAGE)
  {
    var shift := v.kind[x].shift;
    assert Tile(v.kind, x);
    PageOffset(start, x, 0);
    ZeroShifted(shift);
    LowOfPage(start + x * PAGE, shift);
  }

  lemma {:induction false} ZeroShifted(k: nat)
    ensures Shr(0, k) == 0 && Low(0, k) == 0
  {
    if k > 0 { ZeroShifted(k - 1); }
  }

  /** A small request, once served, lies on such a page. */
  lemma SmallRequestReserves(v: View, start: nat, r: Region, size: nat)
    requires Inv(v) && start % PAGE == 0 && Live(v.kind, r) && Serves(r, size) && size <= 32
    ensures ReservedAt(v.kind, start, start + r.x * PAGE)
    ensures Addr(start, r) - Addr(start, r) % PAGE == start + r.x * PAGE
  {
    assert Tile(v.kind, r.x);
    SmallClass(r.shift, size);
    EncodeChunk(start, r);
    PageOfAddress(start, Addr(start, r));
    BitmapAddress(v, start, r.x);
  }

  lemma SmallClass(shift: nat, size: nat)
    requires ClassOf(size, shift) && size <= 32
    ensures shift < EXACT_SHIFT
  {
    if shift >= EXACT_SHIFT {
      ShiftTable(5);
      SizeMonotone(5, shift - 1);
    }
  }

  /** For other pages there is none. */
  lemma ReservedIsSmall(v: View, start: nat, p: nat)
    requires Inv(v) && start <= p && PageOf(start, p) < |v.kind| && v.hdr[PageOf(start, p)].tag != TAG_SMALL
    ensures !ReservedAt(v.kind, start, p)
  {
    var x := PageOf(start, p);
    assert Tile(v.kind, x) && PageHeader(v.hdr[x], v.kind, v.words, x);
  }

  /** The state after a free of chunk c, one that holds the bitmap of page x. */
  ghost predicate Spoiled(v: View, v': View, x: nat, s: nat, c: nat) {
    && |v.kind| + 1 + s < |v.hdr| && x < |v.kind| && s < |v.stats| && 0 <= v.hdr[|v.kind| + 1 + s].next < |v.hdr|
    && x * PAGE_WORDS + c / WORD < |v.words| && OnlyBitmap(v.kind, x, v.words, v'.words)
    && v' == v.(hdr := if v.hdr[x].next == NULL then Pushed(v.hdr, |v.kind| + 1 + s, x, TAG_SMALL) else v.hdr,
                words := ChunkCleared(v.words, x * PAGE_WORDS, c), stats := Counted(v.stats, s, 0, -1))
  }

  ghost predicate SpoiledAt(v: View, v': View, start: nat, p: nat) {
    && start <= p && PageOf(start, p) < |v.kind| && v.kind[PageOf(start, p)].Chunks? && v.kind[PageOf(start, p)].shift >= MIN_SHIFT
    && Spoiled(v, v', PageOf(start, p), v.kind[PageOf(start, p)].shift - MIN_SHIFT, Shr(p % PAGE, v.kind[PageOf(start, p)].shift))
  }

  /** Nothing was live there: the slot counts too few chunks now. */
  lemma SpoiledNotInv(v: View, v': View, start: nat, p: nat)
    requires Inv(v) && SpoiledAt(v, v', start, p)
    ensures !Inv(v')
  {
    var s := v.kind[PageOf(start, p)].shift - MIN_SHIFT;
    assert v.stats[s].used == Sum(v.kind, Used(s)) && v'.stats[s].used == v.stats[s].used - 1;
  }

  /** The page of such a chunk has a live chunk, so it is not taken for idle. */
  lemma ReservedReady(v: View, start: nat, p: nat, s: nat)
    requires Inv(v) && ReservedAt(v.kind, start, p) && v.kind[PageOf(start, p)].shift == s + MIN_SHIFT
    ensures var x, c := PageOf(start, p), Shr(p % PAGE, s + MIN_SHIFT);
      && s < SLOTS && |v.kind| + 1 + s < |v.hdr| && 0 <= v.hdr[|v.kind| + 1 + s].next < |v.hdr|
      && x * PAGE_WORDS + c / WORD < |v.words| && 0 < MapWords(s + MIN_SHIFT)
      && x * PAGE_WORDS + MapWords(s + MIN_SHIFT) <= |v.words|
      && OnlyBitmap(v.kind, x, v.words, ChunkCleared(v.words, x * PAGE_WORDS, c))
      && !IdleWords(ChunkCleared(v.words, x * PAGE_WORDS, c), x * PAGE_WORDS, MapWords(s + MIN_SHIFT), Reserved(s + MIN_SHIFT))
  {
    var x, shift := PageOf(start, p), s + MIN_SHIFT;
    var c := Shr(p % PAGE, shift);
    assert Tile(v.kind, x) && PageHeader(v.hdr[x], v.kind, v.words, x) && Settled(v.kind[x]);
    assert SlotList(v, s);
    SlotFirst(v, s);
    ShiftTable(shift);
    var busy := v.kind[x].busy;
    var d :| d in busy;
    SmallAt(v.words, x * PAGE_WORDS, shift, busy, c);
    SmallAt(v.words, x * PAGE_WORDS, shift, busy, d);
    OtherBitStays(v.words, x * PAGE_WORDS, MapWords(shift), Reserved(shift), c, d);
  }

  lemma OtherBitStays(words: seq<nat>, base: nat, n: nat, reserved: nat, c: nat, d: nat)
    requires 0 < n && base + n <= |words| && c / WORD < n && d / WORD < n && c != d && reserved <= d && reserved < WORD
    requires ChunkBit(words, base, d)
    ensures !IdleWords(ChunkCleared(words, base, c), base, n, reserved)
  {
    var words' := ChunkCleared(words, base, c);
    var w := words'[base + d / WORD];
    assert Bit(w, d % WORD) by {
      if c / WORD == d / WORD { BitOfClear(words[base + d / WORD], c % WORD, d % WORD); }
    }
    if d / WORD == 0 {
      BitOfShr(w, reserved, d - reserved);
      ZeroBits(d - reserved);
    } else {
      ZeroBits(d % WORD);
    }
  }

  // ---- a chunk is taken back ----

  /** Chunk c of page x, a page of slot s, is live. */
  ghost predicate Giving(v: View, x: nat, s: nat, c: nat) {
    && Inv(v) && s < SLOTS && x < |v.kind| < |v.hdr| && v.kind[x].Chunks? && v.kind[x].shift == s + MIN_SHIFT
    && c in v.kind[x].busy && Reserved(s + MIN_SHIFT) <= c < Count(s + MIN_SHIFT) && ValidChunks(v.kind[x])
    && BitsOk(v.hdr[x].slab, v.words, x, s + MIN_SHIFT, v.kind[x].busy)
    && (IsFull(v.kind[x]) <==> v.hdr[x].next == NULL)
    && |v.kind| + 1 + s < |v.hdr| && 0 <= v.hdr[|v.kind| + 1 + s].next < |v.hdr|
  }

  lemma LiveGives(v: View, x: nat, s: nat, c: nat)
    requires Inv(v) && x < |v.kind| && v.kind[x].Chunks? && c in v.kind[x].busy && v.kind[x].shift == s + MIN_SHIFT
    ensures Giving(v, x, s, c)
  {
    assert Tile(v.kind, x) && PageHeader(v.hdr[x], v.kind, v.words, x);
    assert SlotList(v, s);
    SlotFirst(v, s);
    if !IsFull(v.kind[x]) {
      var k := PartialIndex(v, x, s);
      InsideChain(v.hdr, SlotRef(v, s), v.slots[s], k);
    }
  }

  /** The headers after the chunk was given back: a page that was full joins its list again. */
  ghost function GivenHeaders(h: seq<Header>, x: nat, slot: nat, slab: nat, wasFull: bool, tag: nat): seq<Header>
    requires x < |h| && slot < |h| && x != slot && 0 <= h[slot].next < |h|
  {
    if wasFull then WithSlab(Pushed(h, slot, x, tag), x, slab) else WithSlab(h, x, slab)
  }

  ghost function Given(v: View, x: nat, s: nat, c: nat, slab: nat, words': seq<nat>): View
    requires Giving(v, x, s, c)
  {
    var k := v.kind[x];
    v.(hdr := GivenHeaders(v.hdr, x, |v.kind| + 1 + s, slab, IsFull(k), TagOf(k.shift)), words := words',
       kind := v.kind[x := k.(busy := k.busy - {c})], slots := if IsFull(k) then v.slots[s := [x] + v.slots[s]] else v.slots)
  }

  /** What the rest of a free can rely on. */
  ghost predicate TakenBack(v: View, v': View, x: nat, s: nat, c: nat) {
    && Sound(v') && Coalesced(v'.kind) && x < |v.kind| && v.kind[x].Chunks? && v.kind[x].shift == s + MIN_SHIFT && s < SLOTS
    && MIN_SHIFT <= v.kind[x].shift <= MAX_SHIFT
    && v'.kind == v.kind[x := v.kind[x].(busy := v.kind[x].busy - {c})] && v'.stats == v.stats && c in v.kind[x].busy
    && SlotsCounted(v) && OnlyBitmap(v.kind, x, v.words, v'.words)
    && forall i :: 0 <= i < |v'.kind| && i != x ==> Settled(v'.kind[i])
  }

  lemma NotFullAfter(k: Kind, c: nat)
    requires ValidChunks(k) && c in k.busy
    ensures ValidChunks(k.(busy := k.busy - {c})) && !IsFull(k.(busy := k.busy - {c}))
  {
  }

  lemma GivenSound(v: View, x: nat, s: nat, c: nat, slab: nat, words': seq<nat>)
    requires Giving(v, x, s, c)
    requires WordsKept(v.words, words', x) && BitsOk(slab, words', x, v.kind[x].shift, v.kind[x].busy - {c})
    ensures Sound(Given(v, x, s, c, slab, words'))
  {
    var busy := v.kind[x].busy - {c};
    NotFullAfter(v.kind[x], c);
    if IsFull(v.kind[x]) {
      ReopenSound(v, slab, words', x, busy, s);
    } else {
      RebusyListed(v, slab, words', x, busy);
    }
  }

  lemma GivenStep(v: View, x: nat, s: nat, c: nat, slab: nat, words': seq<nat>)
    requires Giving(v, x, s, c)
    requires WordsKept(v.words, words', x) && BitsOk(slab, words', x, v.kind[x].shift, v.kind[x].busy - {c})
    requires OnlyBitmap(v.kind, x, v.words, words')
    ensures TakenBack(v, Given(v, x, s, c, slab, words'), x, s, c)
  {
    GivenSound(v, x, s, c, slab, words');
    NotFullAfter(v.kind[x], c);
    OnePageTiling(v.kind, x, v.kind[x].(busy := v.kind[x].busy - {c}));
  }

  ghost predicate IdleWords(words: seq<nat>, base: nat, n: nat, reserved: nat)
    requires base + n <= |words| && 0 < n
  {
    Shr(words[base], reserved) == 0 && forall i :: base < i < base + n ==> words[i] == 0
  }

  lemma SmallWordsReturned(v: View, x: nat, s: nat, c: nat)
    requires Giving(v, x, s, c) && s + MIN_SHIFT < EXACT_SHIFT
    ensures v.hdr[x].slab == s + MIN_SHIFT && x * PAGE_WORDS + c / WORD < |v.words|
    ensures 0 < MapWords(s + MIN_SHIFT) && x * PAGE_WORDS + MapWords(s + MIN_SHIFT) <= |v.words|
    ensures var words', busy := ChunkCleared(v.words, x * PAGE_WORDS, c), v.kind[x].busy - {c};
      && WordsKept(v.words, words', x) && BitsOk(s + MIN_SHIFT, words', x, s + MIN_SHIFT, busy)
      && OnlyBitmap(v.kind, x, v.words, words')
      && (busy == {} <==> IdleWords(words', x * PAGE_WORDS, MapWords(s + MIN_SHIFT), Reserved(s + MIN_SHIFT)))
  {
    ShiftTable(s + MIN_SHIFT);
    SmallGiven(v.words, x, v.kind[x], c);
    SmallAt(v.words, x * PAGE_WORDS, s + MIN_SHIFT, v.kind[x].busy, c);
  }

  lemma SmallReturned(v: View, x: nat, s: nat, c: nat) returns (v': View)
    requires Giving(v, x, s, c) && s + MIN_SHIFT < EXACT_SHIFT
    ensures x * PAGE_WORDS + c / WORD < |v.words|
    ensures 0 < MapWords(s + MIN_SHIFT) && x * PAGE_WORDS + MapWords(s + MIN_SHIFT) <= |v.words|
    ensures TakenBack(v, v', x, s, c)
    ensures v' == v.(hdr := v'.hdr, words := ChunkCleared(v.words, x * PAGE_WORDS, c), kind := v'.kind, slots := v'.slots)
    ensures v'.hdr == if v.hdr[x].next == NULL then Pushed(v.hdr, |v.kind| + 1 + s, x, TAG_SMALL) else v.hdr
    ensures v'.kind[x].busy == {} <==> IdleWords(v'.words, x * PAGE_WORDS, MapWords(s + MIN_SHIFT), Reserved(s + MIN_SHIFT))
  {
    hide OnlyBitmap, WordsKept, BitsOk;
    SmallWordsReturned(v, x, s, c);
    var words' := ChunkCleared(v.words, x * PAGE_WORDS, c);
    GivenStep(v, x, s, c, s + MIN_SHIFT, words');
    v' := Given(v, x, s, c, s + MIN_SHIFT, words');
    SlabKept(v.hdr, |v.kind| + 1 + s, x, s + MIN_SHIFT);
  }

  /** The slab word of a small-class page is its shift before and after. */
  lemma SlabKept(h: seq<Header>, slot: nat, x: nat, slab: nat)
    requires x < |h| && slot < |h| && x != slot && 0 <= h[slot].next < |h| && h[x].slab == slab
    ensures WithSlab(h, x, slab) == h && WithSlab(Pushed(h, slot, x, TAG_SMALL), x, slab) == Pushed(h, slot, x, TAG_SMALL)
  {
  }

  lemma ExactReturned(v: View, x: nat, s: nat, c: nat) returns (v': View)
    requires Giving(v, x, s, c) && s + MIN_SHIFT == EXACT_SHIFT
    ensures TakenBack(v, v', x, s, c)
    ensures v' == v.(hdr := v'.hdr, kind := v'.kind, slots := v'.slots)
    ensures v'.hdr == GivenHeaders(v.hdr, x, |v.kind| + 1 + s, Clear(v.hdr[x].slab, c), v.hdr[x].slab == BUSY, TAG_EXACT)
    ensures v'.kind[x].busy == {} <==> Clear(v.hdr[x].slab, c) == 0
  {
    var k, slab := v.kind[x], v.hdr[x].slab;
    ShiftTable(k.shift);
    ExactFullIdle(slab, k.busy);
    ExactTaken(slab, v.words, x, k, c);
    GivenStep(v, x, s, c, Clear(slab, c), v.words);
    v' := Given(v, x, s, c, Clear(slab, c), v.words);
  }

  lemma BigReturned(v: View, x: nat, s: nat, c: nat) returns (v': View)
    requires Giving(v, x, s, c) && s + MIN_SHIFT > EXACT_SHIFT
    ensures TakenBack(v, v', x, s, c)
    ensures v' == v.(hdr := v'.hdr, kind := v'.kind, slots := v'.slots)
    ensures v'.hdr == GivenHeaders(v.hdr, x, |v.kind| + 1 + s, Clear(v.hdr[x].slab, MAP_SHIFT + c), v.hdr[x].next == NULL, TAG_BIG)
    ensures v'.kind[x].busy == {} <==> Shr(Clear(v.hdr[x].slab, MAP_SHIFT + c), MAP_SHIFT) == 0
  {
    var k, slab := v.kind[x], v.hdr[x].slab;
    BigTaken(slab, v.words, x, k, c);
    GivenStep(v, x, s, c, Clear(slab, MAP_SHIFT + c), v.words);
    v' := Given(v, x, s, c, Clear(slab, MAP_SHIFT + c), v.words);
  }

  lemma Cleared(h: seq<Header>, x: nat, slot: nat, slab: nat, wasFull: bool, tag: nat)
    requires x < |h| && slot < |h| && x != slot && 0 <= h[slot].next < |h|
    ensures var g := GivenHeaders(h, x, slot, slab, wasFull, tag); |g| == |h| && g[x].slab == slab
  {
  }

  // ---- the end of a free ----

  /** The page still has live chunks. */
  lemma KeptInv(v: View, v': View, x: nat, s: nat, c: nat)
    requires TakenBack(v, v', x, s, c) && v'.kind[x].busy != {}
    ensures Inv(v'.(stats := Counted(v.stats, s, 0, -1)))
    ensures Lost(v.kind, v'.kind, Chunk(x, s + MIN_SHIFT, c))
  {
    GaveSums(v.kind, x, s, c);
    LiveGave(v.kind, x, c);
    var stats' := Counted(v.stats, s, 0, -1);
    CountersFollow(v.kind, v'.kind, v.stats, stats', s, 0, -1);
    SoundStats(v', v'.(stats := stats'));
  }

  /** The page was idle and has gone back to the free pages. */
  lemma GoneInv(v: View, v': View, w: View, x: nat, s: nat, c: nat)
    requires TakenBack(v, v', x, s, c) && v'.kind[x].busy == {} && Rested(w) && Released(v'.kind, w.kind, x) && |w.kind| == |v.kind|
    ensures Inv(w.(stats := Counted(Counted(v.stats, s, Reserved(s + MIN_SHIFT) - Count(s + MIN_SHIFT), 0), s, 0, -1)))
    ensures Lost(v.kind, w.kind, Chunk(x, s + MIN_SHIFT, c))
  {
    GaveSums(v.kind, x, s, c);
    LiveGave(v.kind, x, c);
    var lost := Reserved(s + MIN_SHIFT) - Count(s + MIN_SHIFT);
    var stats' := Counted(Counted(v.stats, s, lost, 0), s, 0, -1);
    assert stats' == Counted(v.stats, s, lost, -1);
    CountersFollow(v.kind, w.kind, v.stats, stats', s, lost, -1);
    SoundStats(w, w.(stats := stats'));
    forall q
      ensures Live(w.kind, q) <==> Live(v.kind, q) && q != Chunk(x, s + MIN_SHIFT, c)
    {
      assert Live(v'.kind, q) <==> Live(v.kind, q) && q != Chunk(x, s + MIN_SHIFT, c);
      assert Live(v'.kind, q) && q.x == x ==> q.Chunk?;
    }
  }

  lemma IdleReleasable(v: View, v': View, x: nat, s: nat, c: nat)
    requires TakenBack(v, v', x, s, c) && v'.kind[x].busy == {}
    ensures Releasable(v', x, 1)
  {
  }

  /** A whole allocation has gone back to the free pages. */
  lemma RunGoneInv(v: View, w: View, x: nat, len: nat)
    requires Inv(v) && x < |v.kind| && v.kind[x] == RunHead(len)
    requires Rested(w) && Released(v.kind, w.kind, x) && |w.kind| == |v.kind| && w.stats == v.stats
    ensures Inv(w) && Lost(v.kind, w.kind, Pages(x, len))
  {
    assert Live(v.kind, Pages(x, len));
  }

  // ---- what the checks of a free read ----

  lemma SmallPage(v: View, start: nat, x: nat, p: nat)
    requires Inv(v) && start % PAGE == 0 && start <= p && PageOf(start, p) == x && x < |v.kind| && v.hdr[x].tag == TAG_SMALL
    ensures v.kind[x].Chunks? && MIN_SHIFT <= v.kind[x].shift < EXACT_SHIFT && Low(v.hdr[x].slab, 4) == v.kind[x].shift
    ensures Low(p, v.kind[x].shift) == 0 ==>
      var c := Shr(p % PAGE, v.kind[x].shift);
      && x * PAGE_WORDS + c / WORD < |v.words| && p == Addr(start, Chunk(x, v.kind[x].shift, c))
      && (ChunkBit(v.words, x * PAGE_WORDS, c) <==> c < Reserved(v.kind[x].shift) || c in v.kind[x].busy)
  {
    assert Tile(v.kind, x) && PageHeader(v.hdr[x], v.kind, v.words, x) && Settled(v.kind[x]);
    LowSmall(v.kind[x].shift, 4);
    if Low(p, v.kind[x].shift) == 0 {
      DecodeChunk(start, p, v.kind[x].shift);
      SmallAt(v.words, x * PAGE_WORDS, v.kind[x].shift, v.kind[x].busy, Shr(p % PAGE, v.kind[x].shift));
    }
  }

  lemma ExactPage(v: View, start: nat, x: nat, p: nat)
    requires Inv(v) && start % PAGE == 0 && start <= p && PageOf(start, p) == x && x < |v.kind| && v.hdr[x].tag == TAG_EXACT
    ensures v.kind[x].Chunks? && v.kind[x].shift == EXACT_SHIFT && Shr(p % PAGE, EXACT_SHIFT) < WORD
    ensures Low(p, EXACT_SHIFT) == 0 ==>
      var c := Shr(p % PAGE, EXACT_SHIFT);
      p == Addr(start, Chunk(x, EXACT_SHIFT, c)) && (Bit(v.hdr[x].slab, c) <==> c in v.kind[x].busy)
  {
    assert Tile(v.kind, x) && PageHeader(v.hdr[x], v.kind, v.words, x) && Settled(v.kind[x]);
    ShiftTable(EXACT_SHIFT);
    ShrBound(p % PAGE, EXACT_SHIFT);
    if Low(p, EXACT_SHIFT) == 0 { DecodeChunk(start, p, EXACT_SHIFT); }
  }

  lemma BigPage(v: View, start: nat, x: nat, p: nat)
    requires Inv(v) && start % PAGE == 0 && start <= p && PageOf(start, p) == x && x < |v.kind| && v.hdr[x].tag == TAG_BIG
    ensures v.kind[x].Chunks? && EXACT_SHIFT < v.kind[x].shift <= MAX_SHIFT && Low(v.hdr[x].slab, 4) == v.kind[x].shift
    ensures Low(p, v.kind[x].shift) == 0 ==>
      var c := Shr(p % PAGE, v.kind[x].shift);
      p == Addr(start, Chunk(x, v.kind[x].shift, c)) && (MapBit(v.hdr[x].slab, c) <==> c in v.kind[x].busy)
  {
    assert Tile(v.kind, x) && PageHeader(v.hdr[x], v.kind, v.words, x) && Settled(v.kind[x]);
    BigShift(v.hdr[x].slab, v.kind[x].shift, v.kind[x].busy);
    if Low(p, v.kind[x].shift) == 0 {
      DecodeChunk(start, p, v.kind[x].shift);
      BigAt(v.hdr[x].slab, v.kind[x].shift, v.kind[x].busy, Shr(p % PAGE, v.kind[x].shift));
    }
  }

  lemma PlainPage(v: View, x: nat)
    requires Inv(v) && x < |v.kind| && v.hdr[x].tag == TAG_PAGE
    ensures v.kind[x].FreeHead? || v.kind[x].FreeBody? <==> v.hdr[x].slab < START
    ensures v.kind[x].RunHead? <==> START <= v.hdr[x].slab && v.hdr[x].slab != BUSY
    ensures v.kind[x].RunBody? <==> v.hdr[x].slab == BUSY
    ensures v.kind[x].RunHead? ==> v.hdr[x].slab == START + v.kind[x].len && 0 < v.kind[x].len
  {
    assert Tile(v.kind, x) && PageHeader(v.hdr[x], v.kind, v.words, x) && Settled(v.kind[x]);
  }

  lemma KnownTag(v: View, x: nat)
    requires Inv(v) && x < |v.kind|
    ensures v.hdr[x].tag == TAG_SMALL || v.hdr[x].tag == TAG_EXACT || v.hdr[x].tag == TAG_BIG || v.hdr[x].tag == TAG_PAGE
  {
    assert Tile(v.kind, x) && PageHeader(v.hdr[x], v.kind, v.words, x) && Settled(v.kind[x]);
  }

  lemma RunReleasable(v: View, x: nat)
    requires Inv(v) && x < |v.kind| && v.kind[x].RunHead?
    ensures Releasable(v, x, v.kind[x].len)
  {
  }

  /** How a free of address p on page x ends. */
  ghost predicate Judged(v: View, v': View, x: nat, p: nat, o: Outcome) {
    && Inv(v') && |v'.kind| == |v.kind| && x < |v.kind| && o == Expected(v.kind, x, p)
    && (o == Freed ==> Lost(v.kind, v'.kind, RegionAt(v.kind[x], x, p)))
    && (o != Freed ==> v' == v) && OnlyBitmap(v.kind, x, v.words, v'.words)
  }

  lemma OutsideNotLive(kind: seq<Kind>, start: nat, p: nat)
    requires Tiling(kind) && (p < start || start + |kind| * PAGE <= p)
    ensures !LiveAt(kind, start, p)
  {
    forall r | Live(kind, r)
      ensures Addr(start, r) != p
    {
      LiveInside(kind, start, r);
    }
  }

  /** The test that rejects an address as outside of the pool lets this one through. */
  predicate PassesBounds(start: nat, end: nat, p: nat) {
    !(p < start || p > end)
  }

  /**
   Of the addresses that pass, exactly those behind the last page lead to a header that does not exist. The end of the
   pool itself always does.
   */
  lemma BehindTheHeaders(start: nat, last: nat, end: nat, p: nat)
    requires start + last * PAGE <= end && PassesBounds(start, end, p)
    ensures last <= PageOf(start, p) <==> start + last * PAGE <= p
    ensures PassesBounds(start, end, end) && last <= PageOf(start, end)
  {
  }

  lemma InsidePage(start: nat, n: nat, p: nat)
    requires start <= p < start + n * PAGE
    ensures PageOf(start, p) < n
  {
  }
}
