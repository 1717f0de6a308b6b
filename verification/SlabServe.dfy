/** Handing out and taking back one chunk of a slab page: the step from one pool state to the next. */
module SlabServe {
  import opened Words
  import opened SlabList
  import opened SlabView
  import opened SlabFree
  import opened SlabBits
  import opened SlabChunks
  import opened SlabRegions
  import opened SlabGrant

  ghost predicate AllBusy(words: seq<nat>, base: nat, n: nat)
    requires base + n <= |words|
  {
    forall k :: base <= k < base + n ==> words[k] == BUSY
  }

  /** The bitmap with the bit of chunk c set. */
  function ChunkSet(words: seq<nat>, base: nat, c: nat): seq<nat>
    requires base + c / WORD < |words|
  {
    words[base + c / WORD := Set(words[base + c / WORD], c % WORD)]
  }

  /** The bitmap with the bit of chunk c cleared. */
  function ChunkCleared(words: seq<nat>, base: nat, c: nat): seq<nat>
    requires base + c / WORD < |words|
  {
    words[base + c / WORD := Clear(words[base + c / WORD], c % WORD)]
  }

  /** c is the lowest free chunk. */
  ghost predicate Lowest(k: Kind, c: nat) {
    && k.Chunks? && Reserved(k.shift) <= c < Count(k.shift) && c !in k.busy
    && forall d :: Reserved(k.shift) <= d < c ==> d in k.busy
  }

  // ---- finding the chunk ----

  lemma SmallLowest(words: seq<nat>, base: nat, k: Kind, c: nat)
    requires k.Chunks? && MIN_SHIFT <= k.shift < EXACT_SHIFT && SmallBits(words, base, k.shift, k.busy) && c < Count(k.shift)
    requires base + c / WORD < |words| && !ChunkBit(words, base, c)
    requires forall d :: 0 <= d < c && base + d / WORD < |words| ==> ChunkBit(words, base, d)
    ensures Lowest(k, c)
  {
    SmallAt(words, base, k.shift, k.busy, c);
    forall d | Reserved(k.shift) <= d < c
      ensures d in k.busy
    {
      SmallAt(words, base, k.shift, k.busy, d);
      assert ChunkBit(words, base, d);
    }
  }

  lemma ExactLowest(slab: nat, k: Kind, c: nat)
    requires k.Chunks? && k.shift == EXACT_SHIFT && ExactBits(slab, k.busy) && c < WORD
    requires !Bit(slab, c) && forall d :: 0 <= d < c ==> Bit(slab, d)
    ensures Lowest(k, c)
  {
    ShiftTable(EXACT_SHIFT);
    assert Bit(slab, c) <==> c in k.busy;
    forall d | Reserved(k.shift) <= d < c
      ensures d in k.busy
    {
      assert Bit(slab, d) <==> d in k.busy;
    }
  }

  lemma BigLowest(slab: nat, k: Kind, c: nat)
    requires k.Chunks? && EXACT_SHIFT < k.shift <= MAX_SHIFT && BigBits(slab, k.shift, k.busy) && c < Count(k.shift)
    requires !MapBit(slab, c) && forall d :: 0 <= d < c ==> MapBit(slab, d)
    ensures Lowest(k, c)
  {
    ShiftTable(k.shift);
    forall d | 0 <= d < c
      ensures d in k.busy
    {
      assert MapBit(slab, d) <==> d in k.busy;
    }
  }

  lemma BitsBefore(words: seq<nat>, base: nat, q: nat, i: nat, w: nat)
    requires base + q < |words| && i < WORD && (forall k :: base <= k < base + q ==> words[k] == BUSY)
    requires words[base + q] == w && forall j :: 0 <= j < i ==> Bit(w, j)
    ensures forall d :: 0 <= d < q * WORD + i && base + d / WORD < |words| ==> ChunkBit(words, base, d)
  {
    BusyWord();
    forall d | 0 <= d < q * WORD + i && base + d / WORD < |words|
      ensures ChunkBit(words, base, d)
    {
      if d / WORD < q {
        OnesBits(WORD, d % WORD);
      } else {
        WordIndex(q, d - q * WORD);
        assert Bit(w, d % WORD);
      }
    }
  }

  /** Below the word of the lowest clear bit every word is full. */
  lemma LowerBusy(words: seq<nat>, base: nat, n: nat, c: nat)
    requires base + n <= |words| && c / WORD < n && forall k :: base <= k < base + n ==> Fits(words[k], WORD)
    requires forall d :: 0 <= d < c && base + d / WORD < |words| ==> ChunkBit(words, base, d)
    ensures forall k :: base <= k < base + c / WORD ==> words[k] == BUSY
  {
    BusyWord();
    forall k | base <= k < base + c / WORD
      ensures words[k] == BUSY
    {
      forall i | 0 <= i < WORD
        ensures Bit(words[k], i)
      {
        WordIndex(k - base, i);
        assert ChunkBit(words, base, (k - base) * WORD + i);
      }
      FullIsOnes(words[k], WORD);
    }
  }

  // ---- the bitmap after the change ----

  lemma SmallTaken(words: seq<nat>, x: nat, k: Kind, c: nat)
    requires ValidChunks(k) && k.shift < EXACT_SHIFT && SmallBits(words, x * PAGE_WORDS, k.shift, k.busy)
    requires Reserved(k.shift) <= c < Count(k.shift)
    ensures x * PAGE_WORDS + c / WORD < |words|
    ensures var words' := ChunkSet(words, x * PAGE_WORDS, c);
      && WordsKept(words, words', x) && BitsOk(k.shift, words', x, k.shift, k.busy + {c})
      && (IsFull(k.(busy := k.busy + {c})) <==> AllBusy(words', x * PAGE_WORDS, MapWords(k.shift)))
  {
    ShiftTable(k.shift);
    SmallSet(words, x * PAGE_WORDS, k.shift, k.busy, c);
    SmallFull(ChunkSet(words, x * PAGE_WORDS, c), x * PAGE_WORDS, k.shift, k.busy + {c});
  }

  lemma SmallGiven(words: seq<nat>, x: nat, k: Kind, c: nat)
    requires ValidChunks(k) && k.shift < EXACT_SHIFT && SmallBits(words, x * PAGE_WORDS, k.shift, k.busy)
    requires Reserved(k.shift) <= c < Count(k.shift)
    ensures x * PAGE_WORDS + c / WORD < |words| && x * PAGE_WORDS < |words|
    ensures var words' := ChunkCleared(words, x * PAGE_WORDS, c);
      && WordsKept(words, words', x) && BitsOk(k.shift, words', x, k.shift, k.busy - {c})
      && (k.busy - {c} == {} <==>
           Shr(words'[x * PAGE_WORDS], Reserved(k.shift)) == 0
           && forall i :: x * PAGE_WORDS < i < x * PAGE_WORDS + MapWords(k.shift) ==> words'[i] == 0)
  {
    ShiftTable(k.shift);
    SmallClear(words, x * PAGE_WORDS, k.shift, k.busy, c);
    SmallIdle(ChunkCleared(words, x * PAGE_WORDS, c), x * PAGE_WORDS, k.shift, k.busy - {c});
  }

  lemma ExactTaken(slab: nat, words: seq<nat>, x: nat, k: Kind, c: nat)
    requires ValidChunks(k) && k.shift == EXACT_SHIFT && ExactBits(slab, k.busy) && c < WORD
    ensures BitsOk(Set(slab, c), words, x, k.shift, k.busy + {c}) && BitsOk(Clear(slab, c), words, x, k.shift, k.busy - {c})
    ensures IsFull(k.(busy := k.busy + {c})) <==> Set(slab, c) == BUSY
    ensures k.busy - {c} == {} <==> Clear(slab, c) == 0
  {
    ShiftTable(EXACT_SHIFT);
    ExactSet(slab, k.busy, c);
    ExactFullIdle(Set(slab, c), k.busy + {c});
    ExactFullIdle(Clear(slab, c), k.busy - {c});
  }

  lemma BigTaken(slab: nat, words: seq<nat>, x: nat, k: Kind, c: nat)
    requires ValidChunks(k) && EXACT_SHIFT < k.shift && BigBits(slab, k.shift, k.busy) && c < Count(k.shift)
    ensures BitsOk(Set(slab, MAP_SHIFT + c), words, x, k.shift, k.busy + {c})
    ensures BitsOk(Clear(slab, MAP_SHIFT + c), words, x, k.shift, k.busy - {c})
    ensures IsFull(k.(busy := k.busy + {c})) <==> Shr(Set(slab, MAP_SHIFT + c), MAP_SHIFT) == Ones(Count(k.shift))
    ensures k.busy - {c} == {} <==> Shr(Clear(slab, MAP_SHIFT + c), MAP_SHIFT) == 0
  {
    ShiftTable(k.shift);
    BigSet(slab, k.shift, k.busy, c);
    BigFullIdle(Set(slab, MAP_SHIFT + c), k.shift, k.busy + {c});
    BigFullIdle(Clear(slab, MAP_SHIFT + c), k.shift, k.busy - {c});
  }

  // ---- a chunk is handed out ----

  /** What is known about the first page on the list of slot s. */
  ghost predicate Serving(v: View, x: nat, s: nat) {
    && Inv(v) && s < SLOTS && v.slots[s] != [] && v.slots[s][0] == x
    && x < |v.kind| <= |v.hdr| && v.kind[x].Chunks? && v.kind[x].shift == s + MIN_SHIFT && !IsFull(v.kind[x]) && ValidChunks(v.kind[x])
    && BitsOk(v.hdr[x].slab, v.words, x, s + MIN_SHIFT, v.kind[x].busy) && v.hdr[x].tag == TagOf(s + MIN_SHIFT)
    && Loops(v.hdr, x)
  }

  lemma FirstServes(v: View, x: int, s: nat)
    requires Inv(v) && s < SLOTS && |v.kind| + 1 + s < |v.hdr| && x == v.hdr[SlotRef(v, s)].next && x != SlotRef(v, s)
    ensures 0 <= x && Serving(v, x, s)
  {
    assert SlotList(v, s);
    SlotFirst(v, s);
    SlotNeighbours(v, s, 0);
    assert Tile(v.kind, x) && PageHeader(v.hdr[x], v.kind, v.words, x);
  }

  lemma NoneServes(v: View, s: nat)
    requires Inv(v) && s < SLOTS && |v.kind| + 1 + s < |v.hdr| && v.hdr[SlotRef(v, s)].next == SlotRef(v, s)
    ensures v.slots[s] == [] && !HasPartial(v.kind, s)
  {
    assert SlotList(v, s);
    SlotFirst(v, s);
    NoPartialPage(v, s);
  }

  /** The headers after the bit was set: a page that is full now leaves its list. */
  ghost function ServedHeaders(h: seq<Header>, x: nat, slab: nat, full: bool, tag: nat): seq<Header>
    requires Loops(h, x)
  {
    if full then Detached(WithSlab(h, x, slab), x, tag) else WithSlab(h, x, slab)
  }

  ghost function Served(v: View, x: nat, s: nat, c: nat, slab: nat, words': seq<nat>): View
    requires Serving(v, x, s)
  {
    var k := v.kind[x].(busy := v.kind[x].busy + {c});
    v.(hdr := ServedHeaders(v.hdr, x, slab, IsFull(k), TagOf(k.shift)), words := words', kind := v.kind[x := k],
       stats := Counted(v.stats, s, 0, 1), slots := if IsFull(k) then SlotsWithout(v.slots, s, 0) else v.slots)
  }

  lemma ServedSound(v: View, x: nat, s: nat, c: nat, slab: nat, words': seq<nat>)
    requires Serving(v, x, s) && Lowest(v.kind[x], c)
    requires WordsKept(v.words, words', x) && BitsOk(slab, words', x, v.kind[x].shift, v.kind[x].busy + {c})
    ensures Sound(Served(v, x, s, c, slab, words'))
  {
    var busy := v.kind[x].busy + {c};
    if IsFull(v.kind[x].(busy := busy)) {
      FillSound(v, slab, words', x, busy, s, 0);
      assert Sound(Filled(v, slab, words', x, busy, s, 0));
      SoundStats(Filled(v, slab, words', x, busy, s, 0), Served(v, x, s, c, slab, words'));
    } else {
      RebusyListed(v, slab, words', x, busy);
      SoundStats(Rebusied(v, slab, words', x, busy), Served(v, x, s, c, slab, words'));
    }
  }

  /** Slot counters are no part of Sound. */
  lemma SoundStats(v: View, w: View)
    requires Sound(v) && w == v.(stats := w.stats)
    ensures Sound(w)
  {
    forall s | 0 <= s < SLOTS
      ensures SlotList(w, s)
    {
      assert SlotList(v, s);
    }
  }

  lemma ServedStep(v: View, x: nat, s: nat, c: nat, slab: nat, words': seq<nat>)
    requires Serving(v, x, s) && Lowest(v.kind[x], c)
    requires WordsKept(v.words, words', x) && BitsOk(slab, words', x, v.kind[x].shift, v.kind[x].busy + {c})
    ensures Inv(Served(v, x, s, c, slab, words'))
    ensures Gained(v.kind, Served(v, x, s, c, slab, words').kind, Chunk(x, s + MIN_SHIFT, c))
  {
    ServedSound(v, x, s, c, slab, words');
    var v' := Served(v, x, s, c, slab, words');
    OnePageTiling(v.kind, x, v'.kind[x]);
    LiveTook(v.kind, x, c);
    TookSums(v.kind, x, s, c);
    CountersFollow(v.kind, v'.kind, v.stats, v'.stats, s, 0, 1);
    forall i | 0 <= i < |v'.kind|
      ensures Settled(v'.kind[i])
    {
      assert Settled(v.kind[i]);
      assert i == x ==> c in v'.kind[i].busy;
    }
  }

  /** Chunk c of page x, the lowest free one, was handed out for slot s. */
  ghost predicate Handed(v: View, v': View, x: nat, s: nat, c: nat) {
    && x < |v.kind| && s < |v.stats| && Lowest(v.kind[x], c) && Inv(v')
    && v'.kind == v.kind[x := v.kind[x].(busy := v.kind[x].busy + {c})] && v'.stats == Counted(v.stats, s, 0, 1)
    && v'.free == v.free && v'.pfree == v.pfree && |v'.words| == |v.words| && |v'.hdr| == |v.hdr|
    && Gained(v.kind, v'.kind, Chunk(x, s + MIN_SHIFT, c)) && OnlyBitmap(v'.kind, x, v.words, v'.words)
  }

  lemma ServedHanded(v: View, x: nat, s: nat, c: nat, slab: nat, words': seq<nat>)
    requires Serving(v, x, s) && Lowest(v.kind[x], c)
    requires WordsKept(v.words, words', x) && BitsOk(slab, words', x, v.kind[x].shift, v.kind[x].busy + {c})
    requires OnlyBitmap(v.kind, x, v.words, words')
    ensures Handed(v, Served(v, x, s, c, slab, words'), x, s, c)
  {
    ServedStep(v, x, s, c, slab, words');
  }

  lemma SmallReady(v: View, x: nat, s: nat)
    requires Serving(v, x, s) && s + MIN_SHIFT < EXACT_SHIFT
    ensures v.hdr[x].slab == s + MIN_SHIFT
    ensures x * PAGE_WORDS + MapWords(s + MIN_SHIFT) <= |v.words|
    ensures forall k :: x * PAGE_WORDS <= k < x * PAGE_WORDS + MapWords(s + MIN_SHIFT) ==> Fits(v.words[k], WORD)
    ensures !AllBusy(v.words, x * PAGE_WORDS, MapWords(s + MIN_SHIFT))
  {
    SmallFull(v.words, x * PAGE_WORDS, s + MIN_SHIFT, v.kind[x].busy);
  }

  lemma SmallServed(v: View, x: nat, s: nat, c: nat) returns (v': View)
    requires Serving(v, x, s) && s + MIN_SHIFT < EXACT_SHIFT && c / WORD < MapWords(s + MIN_SHIFT)
    requires x * PAGE_WORDS + c / WORD < |v.words| && !ChunkBit(v.words, x * PAGE_WORDS, c)
    requires forall d :: 0 <= d < c && x * PAGE_WORDS + d / WORD < |v.words| ==> ChunkBit(v.words, x * PAGE_WORDS, d)
    requires x * PAGE_WORDS + MapWords(s + MIN_SHIFT) <= |v.words|
    ensures Handed(v, v', x, s, c)
    ensures v' == v.(hdr := v'.hdr, words := ChunkSet(v.words, x * PAGE_WORDS, c), kind := v'.kind, slots := v'.slots, stats := v'.stats)
    ensures v'.hdr == if AllBusy(v'.words, x * PAGE_WORDS, MapWords(s + MIN_SHIFT)) then Detached(v.hdr, x, TAG_SMALL) else v.hdr
  {
    var k := v.kind[x];
    ShiftTable(k.shift);
    SmallLowest(v.words, x * PAGE_WORDS, k, c);
    SmallTaken(v.words, x, k, c);
    var words' := ChunkSet(v.words, x * PAGE_WORDS, c);
    assert WithSlab(v.hdr, x, k.shift) == v.hdr;
    ServedHanded(v, x, s, c, k.shift, words');
    v' := Served(v, x, s, c, k.shift, words');
  }

  lemma ExactServed(v: View, x: nat, s: nat, c: nat) returns (v': View)
    requires Serving(v, x, s) && s + MIN_SHIFT == EXACT_SHIFT && c < WORD
    requires !Bit(v.hdr[x].slab, c) && forall d :: 0 <= d < c ==> Bit(v.hdr[x].slab, d)
    ensures Handed(v, v', x, s, c)
    ensures v' == v.(hdr := v'.hdr, kind := v'.kind, slots := v'.slots, stats := v'.stats)
    ensures var w := Set(v.hdr[x].slab, c); v'.hdr == ServedHeaders(v.hdr, x, w, w == BUSY, TAG_EXACT)
  {
    var k, slab := v.kind[x], v.hdr[x].slab;
    ExactLowest(slab, k, c);
    ExactTaken(slab, v.words, x, k, c);
    ServedHanded(v, x, s, c, Set(slab, c), v.words);
    v' := Served(v, x, s, c, Set(slab, c), v.words);
  }

  lemma BigServed(v: View, x: nat, s: nat, c: nat) returns (v': View)
    requires Serving(v, x, s) && s + MIN_SHIFT > EXACT_SHIFT && c < Count(s + MIN_SHIFT)
    requires !MapBit(v.hdr[x].slab, c) && forall d :: 0 <= d < c ==> MapBit(v.hdr[x].slab, d)
    ensures Handed(v, v', x, s, c)
    ensures v' == v.(hdr := v'.hdr, kind := v'.kind, slots := v'.slots, stats := v'.stats)
    ensures var w := Set(v.hdr[x].slab, MAP_SHIFT + c);
            v'.hdr == ServedHeaders(v.hdr, x, w, Shr(w, MAP_SHIFT) == Ones(Count(s + MIN_SHIFT)), TAG_BIG)
  {
    var k, slab := v.kind[x], v.hdr[x].slab;
    BigLowest(slab, k, c);
    BigTaken(slab, v.words, x, k, c);
    ServedHanded(v, x, s, c, Set(slab, MAP_SHIFT + c), v.words);
    v' := Served(v, x, s, c, Set(slab, MAP_SHIFT + c), v.words);
  }

  /** A page with a free chunk has a clear bit. */
  lemma ExactNotBusy(v: View, x: nat, s: nat)
    requires Serving(v, x, s) && s + MIN_SHIFT == EXACT_SHIFT
    ensures exists d :: 0 <= d < WORD && !Bit(v.hdr[x].slab, d)
  {
    ShiftTable(EXACT_SHIFT);
    var c :| Reserved(EXACT_SHIFT) <= c < Count(EXACT_SHIFT) && c !in v.kind[x].busy;
    assert Bit(v.hdr[x].slab, c) <==> c in v.kind[x].busy;
  }

  lemma BigNotBusy(v: View, x: nat, s: nat)
    requires Serving(v, x, s) && s + MIN_SHIFT > EXACT_SHIFT
    ensures exists d :: 0 <= d < Count(s + MIN_SHIFT) && !MapBit(v.hdr[x].slab, d)
  {
    ShiftTable(s + MIN_SHIFT);
    var c :| Reserved(s + MIN_SHIFT) <= c < Count(s + MIN_SHIFT) && c !in v.kind[x].busy;
    assert MapBit(v.hdr[x].slab, c) <==> c in v.kind[x].busy;
  }

  // ---- a fresh page ----

  ghost function CutAndCounted(v: View, slab: nat, words': seq<nat>, x: nat, s: nat): View
    requires x < |v.kind| && x < |v.hdr| && s < |v.slots| && SlotRef(v, s) < |v.hdr| && s < |v.stats|
  {
    var shift := s + MIN_SHIFT;
    Cut(v, slab, words', x, s).(stats := Counted(v.stats, s, Count(shift) - Reserved(shift), 1))
  }

  lemma CutStep(v: View, slab: nat, words': seq<nat>, x: nat, s: nat)
    requires Inv(v) && s < SLOTS && v.slots[s] == [] && x < |v.kind| && v.kind[x] == RunHead(1)
    requires WordsKept(v.words, words', x) && BitsOk(slab, words', x, s + MIN_SHIFT, {Reserved(s + MIN_SHIFT)})
    ensures Inv(CutAndCounted(v, slab, words', x, s))
  {
    CutSound(v, slab, words', x, s);
    var v' := CutAndCounted(v, slab, words', x, s);
    SoundStats(Cut(v, slab, words', x, s), v');
    FirstChunk(s);
    OnePageTiling(v.kind, x, v'.kind[x]);
    CutSums(v.kind, x, s);
    CountersFollow(v.kind, v'.kind, v.stats, v'.stats, s, Count(s + MIN_SHIFT) - Reserved(s + MIN_SHIFT), 1);
    forall i | 0 <= i < |v'.kind|
      ensures Settled(v'.kind[i])
    {
      assert Settled(v.kind[i]);
      assert i == x ==> Reserved(s + MIN_SHIFT) in v'.kind[i].busy;
    }
  }

  /** The bitmap of a page just cut into small chunks. */
  lemma SmallStart(words: seq<nat>, words': seq<nat>, x: nat, shift: nat)
    requires MIN_SHIFT <= shift < EXACT_SHIFT && |words'| == |words| && x * PAGE_WORDS + PAGE_WORDS <= |words|
    requires forall k :: 0 <= k < |words| ==>
      words'[k] == if k == x * PAGE_WORDS then Ones(Reserved(shift) + 1)
                   else if x * PAGE_WORDS < k < x * PAGE_WORDS + MapWords(shift) then 0 else words[k]
    ensures WordsKept(words, words', x) && BitsOk(shift, words', x, shift, {Reserved(shift)})
  {
    ShiftTable(shift);
    SmallFresh(words', x * PAGE_WORDS, shift);
  }

  lemma BigStart(words: seq<nat>, x: nat, shift: nat)
    requires EXACT_SHIFT <= shift <= MAX_SHIFT
    ensures Reserved(shift) == 0
    ensures BitsOk(if shift == EXACT_SHIFT then 1 else Join(1, shift, MAP_SHIFT), words, x, shift, {0})
  {
    ShiftTable(shift);
    if shift == EXACT_SHIFT { ExactFresh(); } else { BigFresh(shift); }
  }

  /** Page x, taken as a run of its own, was cut for slot s and its first chunk handed out. */
  ghost predicate Opened(v: View, v': View, x: nat, s: nat) {
    && x < |v.kind| && s < |v.stats| && Inv(v')
    && v'.kind == v.kind[x := Chunks(s + MIN_SHIFT, {Reserved(s + MIN_SHIFT)})]
    && v'.stats == Counted(v.stats, s, Count(s + MIN_SHIFT) - Reserved(s + MIN_SHIFT), 1)
    && OnlyBitmap(v'.kind, x, v.words, v'.words)
  }

  lemma FreshBitmap(kind: seq<Kind>, words: seq<nat>, words': seq<nat>, x: nat, shift: nat)
    requires x < |kind| && MIN_SHIFT <= shift < EXACT_SHIFT && |words'| == |words|
    requires forall k :: 0 <= k < |words| && k != x * PAGE_WORDS && !(x * PAGE_WORDS < k < x * PAGE_WORDS + MapWords(shift)) ==>
      words'[k] == words[k]
    ensures OnlyBitmap(kind[x := Chunks(shift, {Reserved(shift)})], x, words, words')
  {
    ShiftTable(shift);
  }

  lemma SmallTag(shift: nat)
    requires shift < EXACT_SHIFT
    ensures TagOf(shift) == TAG_SMALL
  {
  }

  lemma OnePageOfWords(v: View, x: nat, s: nat)
    requires Inv(v) && s < SLOTS && x < |v.kind|
    ensures |v.slots| == |v.stats| == SLOTS && x * PAGE_WORDS + PAGE_WORDS <= |v.words|
  {
  }

  lemma OpenSmall(v: View, words': seq<nat>, x: nat, s: nat) returns (v': View)
    requires Inv(v) && s < SLOTS && v.slots[s] == [] && x < |v.kind| < |v.hdr| && v.kind[x] == RunHead(1)
    requires s + MIN_SHIFT < EXACT_SHIFT && |v.kind| + 1 + s < |v.hdr| && |words'| == |v.words|
    requires forall k :: 0 <= k < |v.words| ==>
      words'[k] == if k == x * PAGE_WORDS then Ones(Reserved(s + MIN_SHIFT) + 1)
                   else if x * PAGE_WORDS < k < x * PAGE_WORDS + MapWords(s + MIN_SHIFT) then 0 else v.words[k]
    ensures v' == v.(hdr := Enlisted(v.hdr, x, |v.kind| + 1 + s, s + MIN_SHIFT, TAG_SMALL), words := words', kind := v'.kind,
                     slots := v'.slots, stats := v'.stats)
    ensures Opened(v, v', x, s)
  {
    hide Inv, BitsOk, WordsKept, OnlyBitmap, Reserved, MapWords, Count;
    OnePageOfWords(v, x, s);
    SmallStart(v.words, words', x, s + MIN_SHIFT);
    FreshBitmap(v.kind, v.words, words', x, s + MIN_SHIFT);
    SmallTag(s + MIN_SHIFT);
    CutStep(v, s + MIN_SHIFT, words', x, s);
    v' := CutAndCounted(v, s + MIN_SHIFT, words', x, s);
  }

  lemma OpenBig(v: View, x: nat, s: nat) returns (v': View)
    requires Inv(v) && s < SLOTS && v.slots[s] == [] && x < |v.kind| < |v.hdr| && v.kind[x] == RunHead(1)
    requires s + MIN_SHIFT >= EXACT_SHIFT && |v.kind| + 1 + s < |v.hdr|
    ensures var slab := if s + MIN_SHIFT == EXACT_SHIFT then 1 else Join(1, s + MIN_SHIFT, MAP_SHIFT);
            v' == v.(hdr := Enlisted(v.hdr, x, |v.kind| + 1 + s, slab, TagOf(s + MIN_SHIFT)), kind := v'.kind,
                     slots := v'.slots, stats := v'.stats)
    ensures Opened(v, v', x, s) && Reserved(s + MIN_SHIFT) == 0
  {
    var shift := s + MIN_SHIFT;
    BigStart(v.words, x, shift);
    var slab := if shift == EXACT_SHIFT then 1 else Join(1, shift, MAP_SHIFT);
    CutStep(v, slab, v.words, x, s);
    v' := CutAndCounted(v, slab, v.words, x, s);
  }

  lemma SmallRoom(v: View, x: nat, s: nat)
    requires Inv(v) && x < |v.kind| && s < SLOTS && s + MIN_SHIFT < EXACT_SHIFT
    ensures 0 < MapWords(s + MIN_SHIFT) && x * PAGE_WORDS + MapWords(s + MIN_SHIFT) <= |v.words|
  {
    ShiftTable(s + MIN_SHIFT);
  }

  // ---- requests ----

  /** Requests of `size` bytes go to slot s. */
  ghost predicate OfSlot(size: nat, s: nat) {
    ClassOf(size, s + MIN_SHIFT)
  }

  lemma {:induction false} ShrNext(w: nat, k: nat)
    ensures Shr(w, k + 1) == Shr(w, k) / 2
    decreases k
  {
    if k > 0 { ShrNext(w / 2, k - 1); }
  }

  /** Halving size - 1 until nothing is left gives the class. */
  lemma ClassFound(size: nat, shift: nat)
    requires 8 < size <= MAX_SIZE && 0 < shift && Shr(size - 1, shift) == 0 && Shr(size - 1, shift - 1) != 0
    ensures ClassOf(size, shift)
  {
    ShrZero(size - 1, shift);
    ShrZero(size - 1, shift - 1);
    ShiftTable(3);
    ShiftTable(11);
    if shift < MIN_SHIFT { SizeMonotone(shift, MIN_SHIFT); }
    if shift > MAX_SHIFT { SizeMonotone(MAX_SHIFT, shift - 1); }
  }

  /** The pool has room for the request: a long enough free run, or for a small request a free chunk or any free page. */
  ghost predicate CanServe(kind: seq<Kind>, size: nat) {
    if size > MAX_SIZE then HasRun(kind, PagesFor(size))
    else HasRun(kind, 1) || exists s :: 0 <= s < SLOTS && OfSlot(size, s) && HasPartial(kind, s)
  }

  /** Slot s served or refused one request. */
  function Requested(stats: seq<Stat>, s: nat): seq<Stat>
    requires s < |stats|
  {
    stats[s := stats[s].(reqs := stats[s].reqs + 1)]
  }

  function Refused(stats: seq<Stat>, s: nat): seq<Stat>
    requires s < |stats|
  {
    stats[s := stats[s].(fails := stats[s].fails + 1)]
  }

  /** The slot of a small request counts it, and counts it as failed if it got nothing; no other slot counts anything. */
  ghost predicate RequestCounted(stats: seq<Stat>, stats': seq<Stat>, size: nat, failed: bool) {
    && |stats| == |stats'| == SLOTS
    && forall s :: 0 <= s < SLOTS ==>
      var mine := size <= MAX_SIZE && OfSlot(size, s);
      && stats'[s].reqs == stats[s].reqs + (if mine then 1 else 0)
      && stats'[s].fails == stats[s].fails + (if mine && failed then 1 else 0)
  }

  lemma RequestedInv(v: View, s: nat, stats': seq<Stat>)
    requires Inv(v) && s < SLOTS && (stats' == Requested(v.stats, s) || stats' == Refused(v.stats, s))
    ensures Inv(v.(stats := stats'))
  {
    SoundStats(v, v.(stats := stats'));
    forall t | 0 <= t < SLOTS
      ensures stats'[t].used == Sum(v.kind, Used(t)) && stats'[t].total == Sum(v.kind, Total(t))
    {
      assert v.stats[t].used == Sum(v.kind, Used(t)) && v.stats[t].total == Sum(v.kind, Total(t));
    }
  }

  lemma CountedOnce(stats: seq<Stat>, stats': seq<Stat>, size: nat, s: nat, failed: bool)
    requires |stats| == |stats'| == SLOTS && size <= MAX_SIZE && s < SLOTS && OfSlot(size, s)
    requires forall t :: 0 <= t < SLOTS ==>
      && stats'[t].reqs == stats[t].reqs + (if t == s then 1 else 0)
      && stats'[t].fails == stats[t].fails + (if t == s && failed then 1 else 0)
    ensures RequestCounted(stats, stats', size, failed)
  {
    forall t: nat | t < SLOTS
      ensures OfSlot(size, t) <==> t == s
    {
      OneSlot(size, s, t);
    }
  }

  lemma OneSlot(size: nat, s: nat, t: nat)
    requires OfSlot(size, s)
    ensures OfSlot(size, t) <==> t == s
  {
    if OfSlot(size, t) { ClassUnique(size, s + MIN_SHIFT, t + MIN_SHIFT); }
  }

  /** A list is empty exactly when its head, or what stands for the first page, leads to itself. */
  lemma FirstOrNone(v: View, s: nat)
    requires Inv(v) && s < SLOTS
    ensures |v.kind| + 1 + s < |v.hdr| && 0 <= v.hdr[|v.kind| + 1 + s].next < |v.hdr|
    ensures var x := v.hdr[|v.kind| + 1 + s].next;
      if v.hdr[x].next != x then x != SlotRef(v, s) && Serving(v, x, s) && HasPartial(v.kind, s)
      else v.slots[s] == [] && !HasPartial(v.kind, s)
  {
    assert SlotList(v, s);
    SlotFirst(v, s);
    var x := v.hdr[|v.kind| + 1 + s].next;
    if x == SlotRef(v, s) {
      NoneServes(v, s);
    } else {
      FirstServes(v, x, s);
      assert Partial(v.kind[x], s);
    }
  }

  lemma OpenedGains(kind: seq<Kind>, kind': seq<Kind>, x: nat, s: nat)
    requires x < |kind| && kind[x].FreeHead? && Gained(kind, kind', Pages(x, 1)) && x < |kind'| && kind'[x] == RunHead(1)
    ensures Gained(kind, kind'[x := Chunks(s + MIN_SHIFT, {Reserved(s + MIN_SHIFT)})], Chunk(x, s + MIN_SHIFT, Reserved(s + MIN_SHIFT)))
  {
    LiveCut(kind, kind', x, s + MIN_SHIFT, Reserved(s + MIN_SHIFT));
  }

  /** Slot s has its request counted, as failed if it got nothing. */
  ghost predicate SlotRequest(stats: seq<Stat>, stats': seq<Stat>, s: nat, failed: bool) {
    && |stats| == |stats'| == SLOTS
    && forall t :: 0 <= t < SLOTS ==>
      && stats'[t].reqs == stats[t].reqs + (if t == s then 1 else 0)
      && stats'[t].fails == stats[t].fails + (if t == s && failed then 1 else 0)
  }

  lemma OneClass(kind: seq<Kind>, size: nat, s: nat)
    requires size <= MAX_SIZE && s < SLOTS && ClassOf(size, s + MIN_SHIFT)
    ensures OfSlot(size, s) && (CanServe(kind, size) <==> HasRun(kind, 1) || HasPartial(kind, s))
  {
    assert OfSlot(size, s);
    forall t: nat | t < SLOTS && OfSlot(size, t)
      ensures t == s
    {
      OneSlot(size, s, t);
    }
  }
}
