/** Network masks of 32 bits, and when two words agree under one. */
module BitMasks {

  /** Ones, then zeros. */
  predicate Netmask(mask: bv32) {
    !mask & (!mask + 1) == 0
  }

  predicate OneBit(bit: bv32) {
    bit & (bit - 1) == 0
  }

  predicate Has(w: bv32, bit: bv32) {
    w & bit != 0
  }

  function Down(bit: bv32): bv32 {
    bit >> 1
  }

  /** The bit and all bits below it. */
  function Below(bit: bv32): bv32 {
    if bit == 0 then 0 else bit | (bit - 1)
  }

  function And(a: bv32, b: bv32): bv32 {
    a & b
  }

  function Or(a: bv32, b: bv32): bv32 {
    a | b
  }

  /** The ones of a mask before its first zero, from `bit` down. */
  function Leading(mask: bv32, bit: bv32): bv32
    decreases bit
  {
    if bit & mask == 0 then 0 else bit | Leading(mask, bit >> 1)
  }

  lemma LeadingStep(mask: bv32, bit: bv32)
    ensures Leading(mask, bit) == if Has(mask, bit) then Or(bit, Leading(mask, Down(bit))) else 0
  {
    MeetEither(mask, bit);
  }

  lemma MeetEither(mask: bv32, bit: bv32)
    ensures bit & mask == mask & bit
  {
  }

  lemma HasNonzero(mask: bv32, bit: bv32)
    ensures Has(mask, bit) ==> bit != 0
  {
  }

  lemma BitDown(bit: bv32)
    requires OneBit(bit)
    ensures OneBit(Down(bit)) && (bit != 0 ==> Down(bit) < bit)
  {
  }

  lemma BelowDown(bit: bv32)
    requires OneBit(bit) && bit != 0
    ensures Below(bit) == Or(bit, Below(Down(bit)))
  {
  }

  lemma AndOr(a: bv32, m: bv32, n: bv32)
    ensures And(a, Or(m, n)) == Or(And(a, m), And(a, n))
  {
    assert a & (m | n) == (a & m) | (a & n);
  }

  lemma AndAssoc(a: bv32, b: bv32, c: bv32)
    ensures And(And(a, b), c) == And(a, And(b, c))
  {
    assert (a & b) & c == a & (b & c);
  }

  lemma AndFirst(m: bv32, n: bv32)
    ensures And(Or(m, n), m) == m
  {
    assert (m | n) & m == m;
  }

  lemma AndSecond(m: bv32, n: bv32)
    ensures And(Or(m, n), n) == n
  {
    assert (m | n) & n == n;
  }

  lemma AndParts(a: bv32, m: bv32, n: bv32)
    ensures And(And(a, Or(m, n)), m) == And(a, m) && And(And(a, Or(m, n)), n) == And(a, n)
  {
    hide *;
    AndFirst(m, n);
    AndSecond(m, n);
    AndAssoc(a, Or(m, n), m);
    AndAssoc(a, Or(m, n), n);
  }

  lemma AgreeBit(a: bv32, b: bv32, bit: bv32)
    requires OneBit(bit)
    ensures And(a, bit) == And(b, bit) <==> Has(a, bit) == Has(b, bit)
  {
  }

  lemma AgreeNothing(a: bv32, b: bv32)
    ensures And(a, 0) == And(b, 0)
  {
  }

  lemma AgreeSplit(a: bv32, b: bv32, bit: bv32, rest: bv32)
    requires OneBit(bit)
    ensures And(a, Or(bit, rest)) == And(b, Or(bit, rest)) <==> Has(a, bit) == Has(b, bit) && And(a, rest) == And(b, rest)
  {
    hide *;
    AndOr(a, bit, rest);
    AndOr(b, bit, rest);
    AndParts(a, bit, rest);
    AndParts(b, bit, rest);
    AgreeBit(a, b, bit);
  }

  // ---- network masks are their leading ones ----

  function Minus(a: bv32, b: bv32): bv32 {
    a & !b
  }

  predicate Solid(w: bv32) {
    w & (w + 1) == 0
  }

  lemma RestNothing(bit: bv32)
    requires OneBit(bit)
    ensures Solid(Minus(Below(bit), 0))
  {
  }

  lemma BelowMinus(bit: bv32)
    requires OneBit(bit) && bit != 0
    ensures Minus(Below(bit), bit) == Below(Down(bit))
  {
  }

  lemma MinusOr(a: bv32, b: bv32, c: bv32)
    ensures Minus(a, Or(b, c)) == Minus(Minus(a, b), c)
  {
    assert a & !(b | c) == (a & !b) & !c;
  }

  lemma WithinMore(bit: bv32, m: bv32)
    requires OneBit(bit) && bit != 0 && And(m, Below(Down(bit))) == m
    ensures And(Or(bit, m), Below(bit)) == Or(bit, m)
  {
    assert (bit | m) & Below(bit) == bit | m;
  }

  lemma BitOfMask(mask: bv32, bit: bv32)
    requires OneBit(bit) && Has(mask, bit)
    ensures And(mask, bit) == bit
  {
  }

  lemma MaskSplit(mask: bv32, bit: bv32, rest: bv32)
    requires OneBit(bit) && Has(mask, bit)
    ensures And(mask, Or(bit, rest)) == Or(bit, And(mask, rest))
  {
    hide *;
    BitOfMask(mask, bit);
    AndOr(mask, bit, rest);
  }

  lemma MaskNothing(mask: bv32)
    ensures And(mask, 0) == 0 && And(0, mask) == 0
  {
  }

  /** The leading ones are bits of the mask, at and below `bit`, and from the first zero on there are none. */
  lemma {:induction false} LeadingShape(mask: bv32, bit: bv32)
    requires OneBit(bit)
    ensures var m := Leading(mask, bit);
      And(mask, m) == m && And(m, Below(bit)) == m && Solid(Minus(Below(bit), m))
    decreases bit
  {
    hide *;
    LeadingStep(mask, bit);
    if Has(mask, bit) {
      HasNonzero(mask, bit);
      BitDown(bit);
      LeadingShape(mask, Down(bit));
      BelowMinus(bit);
      MinusOr(Below(bit), bit, Leading(mask, Down(bit)));
      WithinMore(bit, Leading(mask, Down(bit)));
      MaskSplit(mask, bit, Leading(mask, Down(bit)));
    } else {
      MaskNothing(mask);
      MaskNothing(Below(bit));
      RestNothing(bit);
    }
  }

  lemma NothingBelowMask(mask: bv32, bit: bv32)
    requires Netmask(mask) && OneBit(bit) && !Has(mask, bit)
    ensures And(mask, Below(bit)) == 0
  {
  }

  lemma {:induction false} NetmaskLeads(mask: bv32, bit: bv32)
    requires Netmask(mask) && OneBit(bit)
    ensures Leading(mask, bit) == And(mask, Below(bit))
    decreases bit
  {
    hide *;
    LeadingStep(mask, bit);
    if Has(mask, bit) {
      HasNonzero(mask, bit);
      BitDown(bit);
      NetmaskLeads(mask, Down(bit));
      BelowDown(bit);
      MaskSplit(mask, bit, Below(Down(bit)));
    } else {
      NothingBelowMask(mask, bit);
    }
  }

  lemma WholeRest(mask: bv32)
    ensures Solid(Minus(Below(0x8000_0000), mask)) <==> Netmask(mask)
  {
  }

  /** A mask is its leading ones exactly if it is a network mask. */
  lemma NetmaskExactly(mask: bv32)
    ensures Leading(mask, 0x8000_0000) == mask <==> Netmask(mask)
  {
    hide *;
    TopDown(mask);
    LeadingShape(mask, 0x8000_0000);
    WholeRest(mask);
    if Netmask(mask) { NetmaskLeads(mask, 0x8000_0000); }
  }

  lemma TopDown(mask: bv32)
    ensures OneBit(0x8000_0000) && And(mask, Below(0x8000_0000)) == mask
  {
  }

  /** The two words have the same bits where the mask has ones. */
  predicate Agree(a: bv32, b: bv32, mask: bv32) {
    a & mask == b & mask
  }

  lemma AgreeIs(a: bv32, b: bv32, mask: bv32)
    ensures Agree(a, b, mask) <==> And(a, mask) == And(b, mask)
  {
  }
}
