/** The division behind the CRC of section 3.4 of RFC 2083, one bit at a time, on reflected words. */
module CrcBits {

  /** x^32 + x^26 + x^23 + ... + 1 without its leading term, the coefficient of x^31 in the lowest bit */
  const POLY: bv32 := 0xedb8_8320

  /** One step of the division: the lowest bit leaves, and takes the polynomial with it. */
  function Shift(c: bv32): bv32 {
    if c & 1 == 1 then (c >> 1) ^ POLY else c >> 1
  }

  function Xor(a: bv32, b: bv32): bv32 {
    a ^ b
  }

  function Shr1(c: bv32): bv32 {
    c >> 1
  }

  function Shr4(c: bv32): bv32 {
    c >> 4
  }

  function Shr8(c: bv32): bv32 {
    c >> 8
  }

  function LowNibble(c: bv32): bv32 {
    c & 0xf
  }

  function LowByte(c: bv32): bv32 {
    c & 0xff
  }

  function Step4(c: bv32): bv32 {
    Shift(Shift(Shift(Shift(c))))
  }

  function Step8(c: bv32): bv32 {
    Step4(Step4(c))
  }

  function Bit(b: bool): bv32 {
    if b then 1 else 0
  }

  /** The remainder after a message, given bit by bit. */
  function Divide(crc: bv32, bits: seq<bool>): bv32
    decreases bits
  {
    if bits == [] then crc else Divide(Shift(Xor(crc, Bit(bits[0]))), bits[1..])
  }

  lemma {:induction false} DivideConcat(crc: bv32, a: seq<bool>, b: seq<bool>)
    ensures Divide(crc, a + b) == Divide(Divide(crc, a), b)
    decreases a
  {
    hide Shift, Bit, Xor;
    if a == [] {
      assert a + b == b;
    } else {
      assert (a + b)[1..] == a[1..] + b;
      DivideConcat(Shift(Xor(crc, Bit(a[0]))), a[1..], b);
    }
  }

  // ---- a step is linear and one-to-one ----

  predicate Odd(w: bv32) {
    w & 1 == 1
  }

  lemma ShrXor(a: bv32, b: bv32)
    ensures Shr1(Xor(a, b)) == Xor(Shr1(a), Shr1(b))
  {
  }

  lemma OddXor(a: bv32, b: bv32)
    ensures Odd(Xor(a, b)) <==> Odd(a) != Odd(b)
  {
  }

  lemma PolyBoth(a: bv32, b: bv32)
    ensures Xor(Xor(a, POLY), Xor(b, POLY)) == Xor(a, b)
  {
  }

  lemma XorAssoc(a: bv32, b: bv32, c: bv32)
    ensures Xor(Xor(a, b), c) == Xor(a, Xor(b, c))
  {
  }

  lemma XorSwap(a: bv32, b: bv32)
    ensures Xor(a, b) == Xor(b, a)
  {
  }

  lemma PolyOnce(a: bv32, b: bv32)
    ensures Xor(Xor(a, POLY), b) == Xor(Xor(a, b), POLY) && Xor(a, Xor(b, POLY)) == Xor(Xor(a, b), POLY)
  {
    hide *;
    XorAssoc(a, b, POLY);
    XorAssoc(a, POLY, b);
    XorSwap(POLY, b);
  }

  lemma ShiftCases(c: bv32)
    ensures Shift(c) == if Odd(c) then Xor(Shr1(c), POLY) else Shr1(c)
  {
  }

  lemma ShiftXor(a: bv32, b: bv32)
    ensures Shift(Xor(a, b)) == Xor(Shift(a), Shift(b))
  {
    hide *;
    ShrXor(a, b);
    OddXor(a, b);
    PolyBoth(Shr1(a), Shr1(b));
    PolyOnce(Shr1(a), Shr1(b));
    ShiftCases(a);
    ShiftCases(b);
    ShiftCases(Xor(a, b));
  }

  lemma Step4Xor(a: bv32, b: bv32)
    ensures Step4(Xor(a, b)) == Xor(Step4(a), Step4(b))
  {
    hide Shift, Xor;
    ShiftXor(a, b);
    ShiftXor(Shift(a), Shift(b));
    ShiftXor(Shift(Shift(a)), Shift(Shift(b)));
    ShiftXor(Shift(Shift(Shift(a))), Shift(Shift(Shift(b))));
  }

  lemma Apart(s: bv32, t: bv32, a: bv32, b: bv32)
    requires s == Shr1(a) && t == Shr1(b)
    ensures Xor(s, POLY) != t && s != Xor(t, POLY)
  {
  }

  lemma CancelPoly(s: bv32, t: bv32)
    ensures Xor(s, POLY) == Xor(t, POLY) ==> s == t
  {
  }

  lemma Halves(a: bv32, b: bv32)
    ensures Shr1(a) == Shr1(b) && (Odd(a) <==> Odd(b)) ==> a == b
  {
  }

  lemma ShiftOneToOne(a: bv32, b: bv32)
    requires Shift(a) == Shift(b)
    ensures a == b
  {
    hide *;
    ShiftCases(a);
    ShiftCases(b);
    Apart(Shr1(a), Shr1(b), a, b);
    CancelPoly(Shr1(a), Shr1(b));
    Halves(a, b);
  }

  lemma CancelXor(a: bv32, b: bv32, c: bv32)
    ensures Xor(a, c) == Xor(b, c) ==> a == b
  {
  }

  /** The same message bits keep different remainders different. */
  lemma {:induction false} DivideOneToOne(s: bv32, t: bv32, bits: seq<bool>)
    requires Divide(s, bits) == Divide(t, bits)
    ensures s == t
    decreases bits
  {
    hide Shift, Bit, Xor;
    if bits != [] {
      var b := Bit(bits[0]);
      DivideOneToOne(Shift(Xor(s, b)), Shift(Xor(t, b)), bits[1..]);
      ShiftOneToOne(Xor(s, b), Xor(t, b));
      CancelXor(s, t, b);
    }
  }

  // ---- low bits leave without a trace ----

  lemma ShiftEven(c: bv32)
    ensures !Odd(c) ==> Shift(c) == Shr1(c)
  {
    ShiftCases(c);
  }

  function HighPart(c: bv32): bv32 {
    c & 0xffff_fff0
  }

  function HighBytes(c: bv32): bv32 {
    c & 0xffff_ff00
  }

  lemma EvenPart0(c: bv32)
    requires LowNibble(c) == 0
    ensures !Odd(c)
  {
  }

  lemma EvenPart1(c: bv32)
    requires LowNibble(c) == 0
    ensures !Odd(Shr1(c))
  {
  }

  lemma EvenPart2(c: bv32)
    requires LowNibble(c) == 0
    ensures !Odd(Shr1(Shr1(c)))
  {
  }

  lemma EvenPart3(c: bv32)
    requires LowNibble(c) == 0
    ensures !Odd(Shr1(Shr1(Shr1(c))))
  {
  }

  lemma FourDown(c: bv32)
    ensures Shr1(Shr1(Shr1(Shr1(c)))) == Shr4(c)
  {
  }

  lemma Step4Low(c: bv32)
    requires LowNibble(c) == 0
    ensures Step4(c) == Shr4(c)
  {
    hide Shift, Shr1, Shr4, LowNibble, Odd;
    EvenPart0(c);
    EvenPart1(c);
    EvenPart2(c);
    EvenPart3(c);
    FourDown(c);
    ShiftEven(c);
    ShiftEven(Shr1(c));
    ShiftEven(Shr1(Shr1(c)));
    ShiftEven(Shr1(Shr1(Shr1(c))));
  }

  lemma SplitNibble(c: bv32)
    ensures c == Xor(LowNibble(c), HighPart(c)) && LowNibble(HighPart(c)) == 0 && Shr4(HighPart(c)) == Shr4(c)
  {
  }

  /** Four steps only mix in the lowest nibble. */
  lemma Step4Split(c: bv32)
    ensures Step4(c) == Xor(Step4(LowNibble(c)), Shr4(c))
  {
    hide *;
    SplitNibble(c);
    Step4Xor(LowNibble(c), HighPart(c));
    Step4Low(HighPart(c));
  }

  lemma SplitByte(c: bv32)
    ensures c == Xor(LowByte(c), HighBytes(c))
  {
  }

  lemma HighBytesLow(c: bv32)
    ensures LowNibble(HighBytes(c)) == 0 && LowNibble(Shr4(HighBytes(c))) == 0
  {
  }

  lemma HighBytesDown(c: bv32)
    ensures Shr4(Shr4(HighBytes(c))) == Shr8(c)
  {
  }

  /** Eight steps only mix in the lowest byte. */
  lemma Step8Split(c: bv32)
    ensures Step8(c) == Xor(Step8(LowByte(c)), Shr8(c))
  {
    hide Step4, Xor, LowByte, HighBytes, LowNibble, Shr4, Shr8;
    SplitByte(c);
    HighBytesLow(c);
    HighBytesDown(c);
    Step4Xor(LowByte(c), HighBytes(c));
    Step4Low(HighBytes(c));
    Step4Xor(Step4(LowByte(c)), Shr4(HighBytes(c)));
    Step4Low(Shr4(HighBytes(c)));
  }

  // ---- the bits of a byte, lowest first ----

  function Bits(w: bv32, n: nat): seq<bool>
    decreases n
  {
    if n == 0 then [] else [Odd(w)] + Bits(Shr1(w), n - 1)
  }

  function Steps(c: bv32, n: nat): bv32
    decreases n
  {
    if n == 0 then c else Steps(Shift(c), n - 1)
  }

  /** `w` has no bit at or above n. */
  ghost predicate Fits(w: bv32, n: nat)
    decreases n
  {
    if n == 0 then w == 0 else Fits(Shr1(w), n - 1)
  }

  function Above(w: bv32): bv32 {
    w & 0xffff_fffe
  }

  lemma AboveEven(w: bv32)
    ensures !Odd(Above(w)) && Shr1(Above(w)) == Shr1(w)
  {
  }

  lemma LowAndAbove(w: bv32)
    ensures w == Xor(Bit(Odd(w)), Above(w))
  {
  }

  lemma OneBit(c: bv32, w: bv32)
    ensures Shift(Xor(c, w)) == Xor(Shift(Xor(c, Bit(Odd(w)))), Shr1(w))
  {
    hide *;
    AboveEven(w);
    LowAndAbove(w);
    XorAssoc(c, Bit(Odd(w)), Above(w));
    ShiftXor(Xor(c, Bit(Odd(w))), Above(w));
    ShiftEven(Above(w));
  }

  lemma XorZero(c: bv32)
    ensures Xor(c, 0) == c
  {
  }

  /** Feeding n bits one by one is mixing them in at once and taking n steps. */
  lemma {:induction false} BitsAtOnce(c: bv32, w: bv32, n: nat)
    requires Fits(w, n)
    ensures Divide(c, Bits(w, n)) == Steps(Xor(c, w), n)
    decreases n
  {
    hide Shift, Bit, Xor, Shr1, Odd;
    if n == 0 {
      XorZero(c);
    } else {
      assert Bits(w, n)[1..] == Bits(Shr1(w), n - 1);
      OneBit(c, w);
      BitsAtOnce(Shift(Xor(c, Bit(Odd(w)))), Shr1(w), n - 1);
    }
  }

  lemma EightSteps(c: bv32)
    ensures Steps(c, 8) == Step8(c)
  {
    hide Shift;
    assert Steps(c, 8) == Steps(Shift(Shift(c)), 6);
    assert Steps(Shift(Shift(c)), 6) == Steps(Step4(c), 4);
    assert Steps(Step4(c), 4) == Steps(Shift(Shift(Step4(c))), 2);
  }

  lemma ByteGone(w: bv32)
    requires w <= 0xff
    ensures Shr1(Shr1(Shr1(Shr1(Shr1(Shr1(Shr1(Shr1(w)))))))) == 0
  {
  }

  lemma ByteFits(w: bv32)
    requires w <= 0xff
    ensures Fits(w, 8)
  {
    hide Shr1;
    ByteGone(w);
    var w2 := Shr1(Shr1(w));
    var w4 := Shr1(Shr1(w2));
    var w6 := Shr1(Shr1(w4));
    assert Fits(w6, 2);
    assert Fits(w4, 4);
    assert Fits(w2, 6);
  }

  lemma ByteSmall(b: bv8)
    ensures b as bv32 <= 0xff
  {
  }

  /** One message byte, whole or bit by bit. */
  lemma ByteAtOnce(c: bv32, b: bv8)
    ensures Divide(c, Bits(b as bv32, 8)) == Step8(Xor(c, b as bv32))
  {
    hide *;
    ByteSmall(b);
    ByteFits(b as bv32);
    BitsAtOnce(c, b as bv32, 8);
    EightSteps(Xor(c, b as bv32));
  }
}
