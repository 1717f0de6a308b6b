/** What a mask means for the keys that a stored prefix covers. */
module RadixMask {
  import opened BitMasks
  import opened RadixShape

  lemma PrefixStep(k: bv32, mask: bv32, bit: bv32)
    ensures Prefix(k, mask, bit) == if Has(mask, bit) then [Has(k, bit)] + Prefix(k, mask, Down(bit)) else []
  {
    MeetEither(mask, bit);
  }

  lemma BitsStep(key: bv32, bit: bv32)
    requires bit != 0
    ensures Bits(key, bit) == [Has(key, bit)] + Bits(key, Down(bit))
  {
  }

  lemma PrefixMore(x: bool, y: bool, a: seq<bool>, b: seq<bool>)
    ensures [x] + a <= [y] + b <==> x == y && a <= b
  {
    assert ([x] + a)[1..] == a && ([y] + b)[1..] == b;
    if [x] + a <= [y] + b {
      assert ([x] + a)[0] == ([y] + b)[0];
      forall i | 0 <= i < |a| ensures a[i] == b[i] { assert ([x] + a)[i + 1] == ([y] + b)[i + 1]; }
    }
  }

  lemma {:induction false} PrefixAgrees(k: bv32, key: bv32, mask: bv32, bit: bv32)
    requires OneBit(bit)
    ensures Prefix(k, mask, bit) <= Bits(key, bit) <==> And(k, Leading(mask, bit)) == And(key, Leading(mask, bit))
    decreases bit
  {
    hide *;
    PrefixStep(k, mask, bit);
    LeadingStep(mask, bit);
    if Has(mask, bit) {
      HasNonzero(mask, bit);
      AgreeSplit(k, key, bit, Leading(mask, Down(bit)));
      BitsStep(key, bit);
      BitDown(bit);
      PrefixAgrees(k, key, mask, Down(bit));
      PrefixMore(Has(k, bit), Has(key, bit), Prefix(k, mask, Down(bit)), Bits(key, Down(bit)));
    } else {
      AgreeNothing(k, key);
    }
  }

  /** A key has the prefix of k and a mask exactly if it agrees with k in the ones of the mask before its first zero. */
  lemma PrefixMatches(k: bv32, key: bv32, mask: bv32)
    ensures Prefix(k, mask, TOP_BIT) <= Bits(key, TOP_BIT) <==> Agree(k, key, Leading(mask, TOP_BIT))
  {
    hide Prefix, Bits, Leading, Agree, And, Below, OneBit, Netmask;
    TopDown(mask);
    PrefixAgrees(k, key, mask, TOP_BIT);
    AgreeIs(k, key, Leading(mask, TOP_BIT));
  }

  /** Whether the key has the prefix is whether it agrees with k under the mask. */
  ghost predicate Fair(k: bv32, key: bv32, mask: bv32) {
    Prefix(k, mask, TOP_BIT) <= Bits(key, TOP_BIT) <==> Agree(k, key, mask)
  }

  function Hole(mask: bv32, m: bv32): bv32 {
    mask ^ m
  }

  lemma HoleKey(mask: bv32, m: bv32)
    requires And(mask, m) == m && m != mask
    ensures Agree(0, Hole(mask, m), m) && !Agree(0, Hole(mask, m), mask)
  {
  }

  lemma FairFor(k: bv32, key: bv32, mask: bv32)
    ensures Leading(mask, TOP_BIT) == mask ==> Fair(k, key, mask)
    ensures Agree(k, key, Leading(mask, TOP_BIT)) && !Agree(k, key, mask) ==> !Fair(k, key, mask)
  {
    hide Agree, Leading, Prefix, Bits;
    PrefixMatches(k, key, mask);
  }

  /** This is so for all keys exactly if the mask is ones and then zeros: the walk ignores what comes after the first zero. */
  lemma FairExactly(mask: bv32)
    ensures (forall k, key :: Fair(k, key, mask)) <==> Netmask(mask)
  {
    hide Fair, Leading, Agree, And, Below, OneBit, Netmask, Hole, Solid, Minus;
    NetmaskExactly(mask);
    if Netmask(mask) {
      forall k, key ensures Fair(k, key, mask) { FairFor(k, key, mask); }
    } else {
      var m := Leading(mask, TOP_BIT);
      TopDown(mask);
      LeadingShape(mask, TOP_BIT);
      HoleKey(mask, m);
      FairFor(0, Hole(mask, m), mask);
      assert !Fair(0, Hole(mask, m), mask);
    }
  }
}
