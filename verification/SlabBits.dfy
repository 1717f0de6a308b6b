/** The three bitmap layouts of a slab page: setting, clearing and testing the bit of one chunk. */
module SlabBits {
  import opened Words
  import opened SlabView

  /** The bitmap of slab page i, wherever its class keeps it, agrees with `busy`. */
  ghost predicate BitsOk(slab: nat, words: seq<nat>, i: nat, shift: nat, busy: set<nat>) {
    if shift < EXACT_SHIFT then slab == shift && SmallBits(words, i * PAGE_WORDS, shift, busy)
    else if shift == EXACT_SHIFT then ExactBits(slab, busy)
    else BigBits(slab, shift, busy)
  }

  // ---- in-page bitmap ----

  lemma SmallAt(words: seq<nat>, base: nat, shift: nat, busy: set<nat>, c: nat)
    requires MIN_SHIFT <= shift < EXACT_SHIFT && SmallBits(words, base, shift, busy) && c < Count(shift)
    ensures c / WORD < MapWords(shift) && base + c / WORD < |words|
    ensures ChunkBit(words, base, c) <==> c < Reserved(shift) || c in busy
  {
    ShiftTable(shift);
  }

  lemma SmallSet(words: seq<nat>, base: nat, shift: nat, busy: set<nat>, c: nat)
    requires MIN_SHIFT <= shift < EXACT_SHIFT && SmallBits(words, base, shift, busy) && Reserved(shift) <= c < Count(shift)
    ensures base + c / WORD < |words|
    ensures SmallBits(words[base + c / WORD := Set(words[base + c / WORD], c % WORD)], base, shift, busy + {c})
  {
    ShiftTable(shift);
    SmallAt(words, base, shift, busy, c);
    var at := base + c / WORD;
    var words' := words[at := Set(words[at], c % WORD)];
    forall d | 0 <= d < Count(shift) && d / WORD < MapWords(shift)
      ensures ChunkBit(words', base, d) <==> d < Reserved(shift) || d in busy + {c}
    {
      SmallAt(words, base, shift, busy, d);
      if d / WORD == c / WORD { BitOfSet(words[at], c % WORD, d % WORD); }
    }
    SetFits(words[at], c % WORD, WORD);
  }

  lemma SmallClear(words: seq<nat>, base: nat, shift: nat, busy: set<nat>, c: nat)
    requires MIN_SHIFT <= shift < EXACT_SHIFT && SmallBits(words, base, shift, busy) && Reserved(shift) <= c < Count(shift)
    ensures base + c / WORD < |words|
    ensures SmallBits(words[base + c / WORD := Clear(words[base + c / WORD], c % WORD)], base, shift, busy - {c})
  {
    ShiftTable(shift);
    SmallAt(words, base, shift, busy, c);
    var at := base + c / WORD;
    var words' := words[at := Clear(words[at], c % WORD)];
    forall d | 0 <= d < Count(shift) && d / WORD < MapWords(shift)
      ensures ChunkBit(words', base, d) <==> d < Reserved(shift) || d in busy - {c}
    {
      SmallAt(words, base, shift, busy, d);
      if d / WORD == c / WORD { BitOfClear(words[at], c % WORD, d % WORD); }
    }
    ClearFits(words[at], c % WORD, WORD);
  }

  lemma SmallKept(words: seq<nat>, words': seq<nat>, base: nat, shift: nat, busy: set<nat>)
    requires SmallBits(words, base, shift, busy) && |words'| == |words|
    requires forall k :: base <= k < base + MapWords(shift) ==> words'[k] == words[k]
    ensures SmallBits(words', base, shift, busy)
  {
    forall c | 0 <= c < Count(shift) && c / WORD < MapWords(shift)
      ensures ChunkBit(words', base, c) <==> c < Reserved(shift) || c in busy
    {
      assert words'[base + c / WORD] == words[base + c / WORD];
      assert ChunkBit(words, base, c) <==> c < Reserved(shift) || c in busy;
    }
  }

  /** The page is full exactly when every word of its bitmap is NGX_SLAB_BUSY. */
  lemma SmallFull(words: seq<nat>, base: nat, shift: nat, busy: set<nat>)
    requires MIN_SHIFT <= shift < EXACT_SHIFT && SmallBits(words, base, shift, busy)
    ensures IsFull(Chunks(shift, busy)) <==> forall k :: base <= k < base + MapWords(shift) ==> words[k] == BUSY
  {
    ShiftTable(shift);
    BusyWord();
    if IsFull(Chunks(shift, busy)) {
      forall k | base <= k < base + MapWords(shift)
        ensures words[k] == BUSY
      {
        forall i | 0 <= i < WORD
          ensures Bit(words[k], i)
        {
          SmallAt(words, base, shift, busy, (k - base) * WORD + i);
          WordIndex(k - base, i);
        }
        FullIsOnes(words[k], WORD);
      }
    }
    if forall k :: base <= k < base + MapWords(shift) ==> words[k] == BUSY {
      forall c | Reserved(shift) <= c < Count(shift)
        ensures c in busy
      {
        SmallAt(words, base, shift, busy, c);
        OnesBits(WORD, c % WORD);
      }
    }
  }

  lemma WordIndex(q: nat, i: nat)
    requires i < WORD
    ensures (q * WORD + i) / WORD == q && (q * WORD + i) % WORD == i
  {
  }

  /** The page is idle exactly when only the reserved bits are left. */
  lemma SmallIdle(words: seq<nat>, base: nat, shift: nat, busy: set<nat>)
    requires MIN_SHIFT <= shift < EXACT_SHIFT && SmallBits(words, base, shift, busy)
    requires forall c :: c in busy ==> Reserved(shift) <= c < Count(shift)
    ensures base < |words|
    ensures busy == {} <==>
      Shr(words[base], Reserved(shift)) == 0 && forall k :: base < k < base + MapWords(shift) ==> words[k] == 0
  {
    ShiftTable(shift);
    var n := Reserved(shift);
    if busy == {} {
      forall i | 0 <= i < WORD - n
        ensures !Bit(Shr(words[base], n), i)
      {
        SmallAt(words, base, shift, busy, n + i);
        WordIndex(0, n + i);
        BitOfShr(words[base], n, i);
      }
      FitsAfterShr(words[base], n, WORD - n);
      EmptyIsZero(Shr(words[base], n), WORD - n);
      forall k | base < k < base + MapWords(shift)
        ensures words[k] == 0
      {
        forall i | 0 <= i < WORD
          ensures !Bit(words[k], i)
        {
          SmallAt(words, base, shift, busy, (k - base) * WORD + i);
          WordIndex(k - base, i);
        }
        EmptyIsZero(words[k], WORD);
      }
    } else {
      var c :| c in busy;
      SmallAt(words, base, shift, busy, c);
      if c / WORD == 0 {
        BitOfShr(words[base], n, c - n);
        ZeroBits(c - n);
      } else {
        ZeroBits(c % WORD);
      }
    }
  }

  /** A fresh page: the bitmap's own chunks and the first chunk after them. */
  lemma SmallFresh(words: seq<nat>, base: nat, shift: nat)
    requires MIN_SHIFT <= shift < EXACT_SHIFT && base < |words| && base + MapWords(shift) <= |words|
    requires words[base] == Ones(Reserved(shift) + 1)
    requires forall k :: base < k < base + MapWords(shift) ==> words[k] == 0
    ensures SmallBits(words, base, shift, {Reserved(shift)})
  {
    ShiftTable(shift);
    var n := Reserved(shift);
    forall c | 0 <= c < Count(shift) && c / WORD < MapWords(shift)
      ensures ChunkBit(words, base, c) <==> c < n || c in {n}
    {
      if c / WORD == 0 { OnesBits(n + 1, c % WORD); } else { ZeroBits(c % WORD); }
    }
    OnesBits(n + 1, 0);
    FitsMore(Ones(n + 1), n + 1, WORD);
    ZeroBits(WORD);
  }

  lemma {:induction false} FitsMore(w: nat, m: nat, n: nat)
    requires Fits(w, m) && m <= n
    ensures Fits(w, n)
  {
    if m == 0 { ZeroBits(n); } else { FitsMore(w / 2, m - 1, n - 1); }
  }

  // ---- bitmap in the slab word ----

  lemma ExactSet(slab: nat, busy: set<nat>, c: nat)
    requires ExactBits(slab, busy) && c < WORD
    ensures ExactBits(Set(slab, c), busy + {c}) && ExactBits(Clear(slab, c), busy - {c})
  {
    forall d | 0 <= d < WORD
      ensures Bit(Set(slab, c), d) <==> d in busy + {c}
      ensures Bit(Clear(slab, c), d) <==> d in busy - {c}
    {
      BitOfSet(slab, c, d);
      BitOfClear(slab, c, d);
    }
    SetFits(slab, c, WORD);
    ClearFits(slab, c, WORD);
  }

  lemma ExactFullIdle(slab: nat, busy: set<nat>)
    requires ExactBits(slab, busy) && forall c :: c in busy ==> c < WORD
    ensures IsFull(Chunks(EXACT_SHIFT, busy)) <==> slab == BUSY
    ensures busy == {} <==> slab == 0
  {
    ShiftTable(EXACT_SHIFT);
    BusyWord();
    FullIsOnes(slab, WORD);
    EmptyIsZero(slab, WORD);
    if busy != {} {
      var c :| c in busy;
      assert Bit(slab, c);
    }
  }

  // ---- bitmap in the upper half of the slab word ----

  lemma BigAt(slab: nat, shift: nat, busy: set<nat>, c: nat)
    requires BigBits(slab, shift, busy) && c < Count(shift)
    ensures MapBit(slab, c) <==> c in busy
    ensures Bit(Shr(slab, MAP_SHIFT), c) <==> c in busy
  {
    BitOfShr(slab, MAP_SHIFT, c);
  }

  lemma BigSet(slab: nat, shift: nat, busy: set<nat>, c: nat)
    requires BigBits(slab, shift, busy) && c < Count(shift)
    ensures BigBits(Set(slab, MAP_SHIFT + c), shift, busy + {c}) && BigBits(Clear(slab, MAP_SHIFT + c), shift, busy - {c})
  {
    SetAbove(slab, MAP_SHIFT, c);
    ClearAbove(slab, MAP_SHIFT, c);
    SetFits(Shr(slab, MAP_SHIFT), c, Count(shift));
    ClearFits(Shr(slab, MAP_SHIFT), c, Count(shift));
    forall d | 0 <= d < Count(shift)
      ensures MapBit(Set(slab, MAP_SHIFT + c), d) <==> d in busy + {c}
      ensures MapBit(Clear(slab, MAP_SHIFT + c), d) <==> d in busy - {c}
    {
      BigAt(slab, shift, busy, d);
      BitOfSet(slab, MAP_SHIFT + c, MAP_SHIFT + d);
      BitOfClear(slab, MAP_SHIFT + c, MAP_SHIFT + d);
    }
  }

  lemma BigFullIdle(slab: nat, shift: nat, busy: set<nat>)
    requires EXACT_SHIFT < shift <= MAX_SHIFT && BigBits(slab, shift, busy) && forall c :: c in busy ==> c < Count(shift)
    ensures IsFull(Chunks(shift, busy)) <==> Shr(slab, MAP_SHIFT) == Ones(Count(shift))
    ensures busy == {} <==> Shr(slab, MAP_SHIFT) == 0
  {
    ShiftTable(shift);
    FullIsOnes(Shr(slab, MAP_SHIFT), Count(shift));
    EmptyIsZero(Shr(slab, MAP_SHIFT), Count(shift));
    forall c | 0 <= c < Count(shift)
      ensures Bit(Shr(slab, MAP_SHIFT), c) <==> c in busy
    {
      BigAt(slab, shift, busy, c);
    }
    if busy != {} {
      var c :| c in busy;
      assert Bit(Shr(slab, MAP_SHIFT), c);
    }
  }

  /** The header word of a big-class page just cut: the shift, and the bit of the first chunk. */
  lemma BigFresh(shift: nat)
    requires EXACT_SHIFT < shift <= MAX_SHIFT
    ensures BigBits(Join(1, shift, MAP_SHIFT), shift, {0})
  {
    ShiftTable(shift);
    JoinParts(1, shift, MAP_SHIFT);
    LowSmall(shift, MAP_SHIFT);
    OneBit(Count(shift));
    forall c | 0 <= c < Count(shift)
      ensures MapBit(Join(1, shift, MAP_SHIFT), c) <==> c in {0}
    {
      BitOfShr(Join(1, shift, MAP_SHIFT), MAP_SHIFT, c);
      OneBits(c);
    }
  }

  /** slab & NGX_SLAB_SHIFT_MASK */
  lemma BigShift(slab: nat, shift: nat, busy: set<nat>)
    requires EXACT_SHIFT < shift <= MAX_SHIFT && BigBits(slab, shift, busy)
    ensures Low(slab, 4) == shift
  {
    LowOfLow(slab, 4, MAP_SHIFT);
    LowSmall(shift, 4);
  }

  lemma LowSmall(w: nat, k: nat)
    requires w < 16 && 4 <= k
    ensures Low(w, k) == w
  {
    assert Size(4) == 16;
    ShrZero(w, 4);
    FitsMore(w, 4, k);
    LowFits(w, k);
  }

  lemma {:induction false} LowFits(w: nat, k: nat)
    requires Fits(w, k)
    ensures Low(w, k) == w
  {
    if k > 0 { LowFits(w / 2, k - 1); }
  }

  lemma {:induction false} LowZero(k: nat)
    ensures Low(0, k) == 0
  {
    if k > 0 { LowZero(k - 1); }
  }

  lemma OneBits(i: nat)
    ensures Bit(1, i) <==> i == 0
  {
    if i > 0 { ZeroBits(i - 1); }
  }

  lemma OneBit(n: nat)
    requires 0 < n
    ensures Fits(1, n)
  {
    ZeroBits(n - 1);
  }

  lemma ExactFresh()
    ensures ExactBits(1, {0})
  {
    OneBit(WORD);
    forall c | 0 <= c < WORD ensures Bit(1, c) <==> c in {0} { OneBits(c); }
  }
}
