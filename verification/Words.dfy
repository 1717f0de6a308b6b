/** Machine words as natural numbers, by their bits. */
module Words {

  /** The word shifted right by k places. */
  function Shr(w: nat, k: nat): nat {
    if k == 0 then w else Shr(w / 2, k - 1)
  }

  /** The k lowest bits. */
  function Low(w: nat, k: nat): nat {
    if k == 0 then 0 else 2 * Low(w / 2, k - 1) + w % 2
  }

  /** `lo`, of at most k bits, and above it `hi`. */
  function Join(hi: nat, lo: nat, k: nat): nat {
    if k == 0 then hi else 2 * Join(hi, lo / 2, k - 1) + lo % 2
  }

  /** Whether bit i is set. */
  predicate Bit(w: nat, i: nat) {
    if i == 0 then w % 2 == 1 else Bit(w / 2, i - 1)
  }

  /** The word with bit i set. */
  function Set(w: nat, i: nat): nat {
    if i == 0 then (if w % 2 == 1 then w else w + 1) else 2 * Set(w / 2, i - 1) + w % 2
  }

  /** The word with bit i cleared. */
  function Clear(w: nat, i: nat): nat {
    if i == 0 then (if w % 2 == 1 then w - 1 else w) else 2 * Clear(w / 2, i - 1) + w % 2
  }

  /** The n lowest bits set. */
  function Ones(n: nat): nat {
    if n == 0 then 0 else 2 * Ones(n - 1) + 1
  }

  /** `w` has no bit at or above n. */
  ghost predicate Fits(w: nat, n: nat) {
    Shr(w, n) == 0
  }

  lemma SetHalf(w: nat, i: nat)
    ensures Set(w, i) / 2 == if i == 0 then w / 2 else Set(w / 2, i - 1)
    ensures Clear(w, i) / 2 == if i == 0 then w / 2 else Clear(w / 2, i - 1)
    ensures Set(w, i) % 2 == (if i == 0 then 1 else w % 2) && Clear(w, i) % 2 == (if i == 0 then 0 else w % 2)
  {
  }

  lemma {:induction false} BitOfSet(w: nat, i: nat, j: nat)
    ensures Bit(Set(w, i), j) <==> i == j || Bit(w, j)
    decreases i
  {
    SetHalf(w, i);
    if i > 0 && j > 0 { BitOfSet(w / 2, i - 1, j - 1); }
  }

  lemma {:induction false} BitOfClear(w: nat, i: nat, j: nat)
    ensures Bit(Clear(w, i), j) <==> i != j && Bit(w, j)
    decreases i
  {
    SetHalf(w, i);
    if i > 0 && j > 0 { BitOfClear(w / 2, i - 1, j - 1); }
  }

  lemma {:induction false} SetFits(w: nat, i: nat, n: nat)
    requires Fits(w, n) && i < n
    ensures Fits(Set(w, i), n)
  {
    SetHalf(w, i);
    if i > 0 { SetFits(w / 2, i - 1, n - 1); }
  }

  lemma {:induction false} ClearFits(w: nat, i: nat, n: nat)
    requires Fits(w, n) && i < n
    ensures Fits(Clear(w, i), n)
  {
    SetHalf(w, i);
    if i > 0 { ClearFits(w / 2, i - 1, n - 1); }
  }

  lemma {:induction false} OnesBits(n: nat, i: nat)
    ensures Fits(Ones(n), n) && (Bit(Ones(n), i) <==> i < n)
  {
    if n > 0 {
      assert Ones(n) / 2 == Ones(n - 1);
      OnesBits(n - 1, if i > 0 then i - 1 else 0);
    } else {
      ZeroBits(i);
    }
  }

  lemma {:induction false} ZeroBits(i: nat)
    ensures !Bit(0, i) && Fits(0, i)
  {
    if i > 0 { ZeroBits(i - 1); }
  }

  /** A word is determined by its bits. */
  lemma {:induction false} SameBits(v: nat, w: nat, n: nat)
    requires Fits(v, n) && Fits(w, n)
    requires forall i :: 0 <= i < n ==> (Bit(v, i) <==> Bit(w, i))
    ensures v == w
  {
    if n > 0 {
      assert Bit(v, 0) <==> Bit(w, 0);
      forall i | 0 <= i < n - 1
        ensures Bit(v / 2, i) <==> Bit(w / 2, i)
      {
        assert Bit(v, i + 1) <==> Bit(w, i + 1);
      }
      SameBits(v / 2, w / 2, n - 1);
    }
  }

  /** All of the n bits are set. */
  ghost predicate Full(w: nat, n: nat) {
    forall i :: 0 <= i < n ==> Bit(w, i)
  }

  /** None of the n bits is set. */
  ghost predicate Empty(w: nat, n: nat) {
    forall i :: 0 <= i < n ==> !Bit(w, i)
  }

  lemma FullIsOnes(w: nat, n: nat)
    requires Fits(w, n)
    ensures Full(w, n) <==> w == Ones(n)
  {
    OnesBits(n, 0);
    forall i | 0 <= i < n ensures Bit(Ones(n), i) { OnesBits(n, i); }
    if Full(w, n) { SameBits(w, Ones(n), n); }
  }

  lemma EmptyIsZero(w: nat, n: nat)
    requires Fits(w, n)
    ensures Empty(w, n) <==> w == 0
  {
    ZeroBits(n);
    forall i | 0 <= i < n ensures !Bit(0, i) { ZeroBits(i); }
    if Empty(w, n) { SameBits(w, 0, n); }
  }

  /** The bits from k on are those of the shifted word. */
  lemma {:induction false} BitOfShr(w: nat, k: nat, i: nat)
    ensures Bit(w, k + i) <==> Bit(Shr(w, k), i)
    decreases k
  {
    if k > 0 { BitOfShr(w / 2, k - 1, i); }
  }

  /** Setting or clearing a bit at or above k leaves the k low bits alone and works on the rest. */
  lemma {:induction false} SetAbove(w: nat, k: nat, i: nat)
    ensures Shr(Set(w, k + i), k) == Set(Shr(w, k), i) && Low(Set(w, k + i), k) == Low(w, k)
    decreases k
  {
    if k > 0 {
      assert Set(w, k + i) / 2 == Set(w / 2, k - 1 + i) && Set(w, k + i) % 2 == w % 2;
      SetAbove(w / 2, k - 1, i);
    }
  }

  lemma {:induction false} ClearAbove(w: nat, k: nat, i: nat)
    ensures Shr(Clear(w, k + i), k) == Clear(Shr(w, k), i) && Low(Clear(w, k + i), k) == Low(w, k)
    decreases k
  {
    if k > 0 {
      assert Clear(w, k + i) / 2 == Clear(w / 2, k - 1 + i) && Clear(w, k + i) % 2 == w % 2;
      ClearAbove(w / 2, k - 1, i);
    }
  }

  lemma {:induction false} JoinParts(hi: nat, lo: nat, k: nat)
    ensures Shr(Join(hi, lo, k), k) == hi && Low(Join(hi, lo, k), k) == Low(lo, k)
  {
    if k > 0 {
      assert Join(hi, lo, k) / 2 == Join(hi, lo / 2, k - 1);
      JoinParts(hi, lo / 2, k - 1);
    }
  }

  lemma {:induction false} LowOfLow(w: nat, j: nat, k: nat)
    requires j <= k
    ensures Low(Low(w, k), j) == Low(w, j)
  {
    if j > 0 {
      assert Low(w, k) / 2 == Low(w / 2, k - 1);
      LowOfLow(w / 2, j - 1, k - 1);
    }
  }

  lemma {:induction false} FitsAfterShr(w: nat, k: nat, n: nat)
    ensures Fits(Shr(w, k), n) <==> Fits(w, k + n)
    decreases k
  {
    if k > 0 { FitsAfterShr(w / 2, k - 1, n); }
  }

  lemma BusyWord()
    ensures Ones(64) == 0xffff_ffff_ffff_ffff
  {
    assert Ones(8) == 0xff;
    assert Ones(16) == 0xffff;
    assert Ones(24) == 0xffffff;
    assert Ones(32) == 0xffffffff;
    assert Ones(40) == 0xffffffffff;
    assert Ones(48) == 0xffffffffffff;
    assert Ones(56) == 0xffffffffffffff;
  }
}
