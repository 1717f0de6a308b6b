/** Theorems about a pool in use: what its counters count, and that callers may write to what they own. */
module SlabUse {
  import opened Words
  import opened SlabList
  import opened SlabView
  import opened SlabBits
  import opened SlabRegions

  // ---- `used` is the number of live chunks ----

  ghost function ChunksOn(k: Kind, x: nat, s: nat): set<Region> {
    if k.Chunks? && k.shift == s + MIN_SHIFT then set c | c in k.busy :: Chunk(x, k.shift, c) else {}
  }

  ghost function ChunksFrom(kind: seq<Kind>, x: nat, s: nat): set<Region>
    requires x <= |kind|
    decreases |kind| - x
  {
    if x == |kind| then {} else ChunksOn(kind[x], x, s) + ChunksFrom(kind, x + 1, s)
  }

  lemma {:induction false} ChunksFromExact(kind: seq<Kind>, x: nat, s: nat, r: Region)
    requires x <= |kind|
    ensures r in ChunksFrom(kind, x, s) <==> x <= r.x && Live(kind, r) && r.Chunk? && r.shift == s + MIN_SHIFT
    decreases |kind| - x
  {
    if x < |kind| { ChunksFromExact(kind, x + 1, s, r); }
  }

  lemma {:induction false} SameSize(busy: set<nat>, x: nat, shift: nat)
    ensures |set c | c in busy :: Chunk(x, shift, c)| == |busy|
    decreases busy
  {
    var image := set c | c in busy :: Chunk(x, shift, c);
    if busy == {} {
      assert image == {};
    } else {
      var d :| d in busy;
      SameSize(busy - {d}, x, shift);
      var rest := set c | c in busy - {d} :: Chunk(x, shift, c);
      assert image == rest + {Chunk(x, shift, d)} && Chunk(x, shift, d) !in rest;
    }
  }

  lemma {:induction false} ChunksFromSize(kind: seq<Kind>, x: nat, s: nat)
    requires x <= |kind|
    ensures |ChunksFrom(kind, x, s)| == Sum(kind[x..], Used(s))
    decreases |kind| - x
  {
    if x < |kind| {
      ChunksFromSize(kind, x + 1, s);
      assert kind[x..][1..] == kind[x + 1..];
      if kind[x].Chunks? { SameSize(kind[x].busy, x, kind[x].shift); }
      assert ChunksOn(kind[x], x, s) !! ChunksFrom(kind, x + 1, s) by {
        forall r | r in ChunksOn(kind[x], x, s)
          ensures r !in ChunksFrom(kind, x + 1, s)
        {
          ChunksFromExact(kind, x + 1, s, r);
        }
      }
    }
  }

  /** stats[slot].used is the number of chunks of the slot's class that are handed out. */
  lemma UsedCountsLive(v: View, s: nat) returns (live: set<Region>)
    requires Inv(v) && s < SLOTS
    ensures forall r :: r in live <==> Live(v.kind, r) && r.Chunk? && r.shift == s + MIN_SHIFT
    ensures v.stats[s].used == |live|
  {
    live := ChunksFrom(v.kind, 0, s);
    forall r
      ensures r in live <==> Live(v.kind, r) && r.Chunk? && r.shift == s + MIN_SHIFT
    {
      ChunksFromExact(v.kind, 0, s, r);
    }
    ChunksFromSize(v.kind, 0, s);
    assert v.kind[0..] == v.kind;
  }

  // ---- `pfree` is the number of free pages ----

  /** The free pages from page x on. */
  ghost function FreeFrom(kind: seq<Kind>, x: nat): nat
    requires x <= |kind|
    decreases |kind| - x
  {
    if x == |kind| then 0 else (if kind[x].FreeHead? || kind[x].FreeBody? then 1 else 0) + FreeFrom(kind, x + 1)
  }

  lemma {:induction false} RestOfRun(kind: seq<Kind>, x: nat, j: nat)
    requires Tiling(kind) && x < |kind| && kind[x].FreeHead? && x < j <= x + kind[x].len <= |kind|
    ensures Sum(kind[j..], FreePages) == Sum(kind[x + kind[x].len..], FreePages)
    ensures FreeFrom(kind, j) == x + kind[x].len - j + FreeFrom(kind, x + kind[x].len)
    decreases |kind| - j
  {
    if j < x + kind[x].len {
      assert Tile(kind, x);
      assert kind[j..][1..] == kind[j + 1..];
      RestOfRun(kind, x, j + 1);
    }
  }

  /** The page behind one that is not free does not continue a free run. */
  lemma NextNotBody(kind: seq<Kind>, x: nat)
    requires Tiling(kind) && x + 1 < |kind| && !kind[x].FreeHead? && !kind[x].FreeBody?
    ensures !kind[x + 1].FreeBody?
  {
    assert Tile(kind, x + 1);
    var h := if kind[x + 1].FreeBody? then kind[x + 1].head else x;
    assert Tile(kind, h);
  }

  lemma {:induction false} FreeFromIsSum(kind: seq<Kind>, x: nat)
    requires Tiling(kind) && x <= |kind| && (x < |kind| ==> !kind[x].FreeBody?)
    requires forall i :: 0 <= i < |kind| ==> !kind[i].Loose?
    ensures Sum(kind[x..], FreePages) == FreeFrom(kind, x)
    decreases |kind| - x
  {
    if x < |kind| {
      assert Tile(kind, x);
      assert kind[x..][1..] == kind[x + 1..];
      if kind[x].FreeHead? {
        RestOfRun(kind, x, x + 1);
        AfterRunFree(kind, x);
        FreeFromIsSum(kind, x + kind[x].len);
      } else {
        if x + 1 < |kind| { NextNotBody(kind, x); }
        FreeFromIsSum(kind, x + 1);
      }
    }
  }

  /** pool->pfree is the number of free pages. */
  lemma PfreeCountsPages(v: View)
    requires Inv(v)
    ensures v.pfree == FreeFrom(v.kind, 0)
  {
    assert Tile(v.kind, 0);
    forall i | 0 <= i < |v.kind| ensures !v.kind[i].Loose? { assert Settled(v.kind[i]); }
    FreeFromIsSum(v.kind, 0);
    assert v.kind[0..] == v.kind;
  }

  // ---- machine words ----

  lemma {:induction false} FitsBound(w: nat, n: nat)
    requires Fits(w, n)
    ensures w < Size(n)
    decreases n
  {
    if n > 0 { FitsBound(w / 2, n - 1); }
  }

  /** The word of every page header, and every word of a bitmap, is a machine word. */
  lemma WordsOfMachine(v: View, x: nat)
    requires Inv(v) && x < |v.kind| < |v.hdr|
    ensures 0 <= v.hdr[x].slab < 0x1_0000_0000_0000_0000
    ensures forall k :: 0 <= k < |v.words| && BitmapWord(v.kind, x, k) ==> v.words[k] < 0x1_0000_0000_0000_0000
  {
    assert Tile(v.kind, x) && PageHeader(v.hdr[x], v.kind, v.words, x) && Settled(v.kind[x]);
    SizeOfWord();
    if v.kind[x].Chunks? {
      ChunkWords(v.hdr[x], v.words, x, v.kind[x]);
    }
  }

  lemma SizeOfWord()
    ensures Size(WORD) == 0x1_0000_0000_0000_0000 && Size(MAP_SHIFT) == 0x1_0000_0000
  {
    assert Size(8) == 0x100;
    assert Size(16) == 0x1_0000;
    assert Size(24) == 0x100_0000;
    assert Size(32) == 0x1_0000_0000;
    assert Size(40) == 0x100_0000_0000;
    assert Size(48) == 0x1_0000_0000_0000;
    assert Size(56) == 0x100_0000_0000_0000;
  }

  lemma ChunkWords(h: Header, words: seq<nat>, x: nat, k: Kind)
    requires k.Chunks? && MIN_SHIFT <= k.shift <= MAX_SHIFT && ChunkHeader(h, words, x, k)
    ensures 0 <= h.slab < Size(WORD)
    ensures k.shift < EXACT_SHIFT ==> forall i :: x * PAGE_WORDS <= i < x * PAGE_WORDS + MapWords(k.shift) && i < |words| ==> words[i] < Size(WORD)
  {
    SizeOfWord();
    ShiftTable(k.shift);
    if k.shift < EXACT_SHIFT {
      forall i | x * PAGE_WORDS <= i < x * PAGE_WORDS + MapWords(k.shift) && i < |words| ensures words[i] < Size(WORD) { FitsBound(words[i], WORD); }
    } else if k.shift == EXACT_SHIFT {
      FitsBound(h.slab, WORD);
    } else {
      UpperHalf(h.slab, Count(k.shift));
    }
  }

  lemma UpperHalf(w: nat, n: nat)
    requires Fits(Shr(w, MAP_SHIFT), n) && n <= 32
    ensures w < Size(WORD)
  {
    FitsFromShr(w, MAP_SHIFT, n);
    FitsBound(w, MAP_SHIFT + n);
    SizeGrows(MAP_SHIFT + n, WORD);
  }

  lemma {:induction false} FitsFromShr(w: nat, k: nat, n: nat)
    requires Fits(Shr(w, k), n)
    ensures Fits(w, k + n)
    decreases k
  {
    if k > 0 { FitsFromShr(w / 2, k - 1, n); }
  }

  lemma {:induction false} SizeGrows(i: nat, j: nat)
    requires i <= j
    ensures Size(i) <= Size(j)
    decreases j
  {
    if i < j { SizeGrows(i, j - 1); }
  }

  // ---- callers write to their own memory ----

  /** Whatever callers write into their live regions, the bitmaps and with them the whole invariant are safe. */
  lemma WritesKeepInv(v: View, words': seq<nat>)
    requires Inv(v) && |words'| == |v.words|
    requires forall k :: 0 <= k < |v.words| && words'[k] != v.words[k] ==> exists r :: Live(v.kind, r) && Touches(r, k)
    ensures Inv(v.(words := words'))
  {
    var w := v.(words := words');
    forall i | 0 <= i < |v.kind|
      ensures PageHeader(w.hdr[i], w.kind, w.words, i)
    {
      WritesKeepPage(v, words', i);
    }
    forall s | 0 <= s < SLOTS
      ensures SlotList(w, s)
    {
      assert SlotList(v, s);
    }
  }

  lemma WritesKeepPage(v: View, words': seq<nat>, i: nat)
    requires Headers(v) && |words'| == |v.words| && i < |v.kind|
    requires forall k :: 0 <= k < |v.words| && words'[k] != v.words[k] ==> exists r :: Live(v.kind, r) && Touches(r, k)
    ensures PageHeader(v.hdr[i], v.kind, words', i)
  {
    assert Tile(v.kind, i) && PageHeader(v.hdr[i], v.kind, v.words, i);
    if v.kind[i].Chunks? && v.kind[i].shift < EXACT_SHIFT {
      var shift := v.kind[i].shift;
      ShiftTable(shift);
      forall k | i * PAGE_WORDS <= k < i * PAGE_WORDS + MapWords(shift)
        ensures words'[k] == v.words[k]
      {
        forall r | Live(v.kind, r) ensures !Touches(r, k) { BitmapUntouched(v.kind, i, k, r); }
      }
      SmallKept(v.words, words', i * PAGE_WORDS, shift, v.kind[i].busy);
    }
  }
}
