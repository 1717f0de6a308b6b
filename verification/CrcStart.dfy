/** What the start value and the last inversion are for: leading zeros count, and a checksum behind its message shows. */
module CrcStart {
  import opened CrcBits
  import opened Crc32
  import opened CrcBurst

  // ---- the start value inverts the first 32 bits ----

  /** The first n bits are inverted, the others stay. */
  function FirstInverted(m: seq<bool>, n: nat): seq<bool> {
    seq(|m|, i requires 0 <= i < |m| => if i < n then !m[i] else m[i])
  }

  /** The n lowest bits are set and no others. */
  ghost predicate Full(w: bv32, n: nat)
    decreases n
  {
    if n == 0 then w == 0 else Odd(w) && Full(Shr1(w), n - 1)
  }

  lemma {:induction false} FullBits(w: bv32, n: nat)
    requires Full(w, n)
    ensures Fits(w, n) && |Bits(w, n)| == n && forall i :: 0 <= i < n ==> Bits(w, n)[i]
    decreases n
  {
    hide Shr1, Odd;
    if n > 0 {
      FullBits(Shr1(w), n - 1);
      forall i | 0 <= i < n ensures Bits(w, n)[i] {
        assert i > 0 ==> Bits(w, n)[i] == Bits(Shr1(w), n - 1)[i - 1];
      }
    }
  }

  lemma FullFour(w: bv32, n: nat)
    requires LowNibble(w) == 0xf && Full(Shr4(w), n)
    ensures Full(w, n + 4)
  {
    FourOdd(w);
    FourDown(w);
    hide Shr1, Shr4, Odd, LowNibble;
    var w2 := Shr1(Shr1(w));
    assert Full(w2, n + 2);
  }

  lemma FourOdd(w: bv32)
    requires LowNibble(w) == 0xf
    ensures Odd(w) && Odd(Shr1(w)) && Odd(Shr1(Shr1(w))) && Odd(Shr1(Shr1(Shr1(w))))
  {
  }

  lemma FullOnes()
    ensures Full(0xffff_ffff, 32)
  {
    FullFour(0xf, 0);
    FullFour(0xff, 4);
    FullFour(0xfff, 8);
    FullFour(0xffff, 12);
    FullFour(0xf_ffff, 16);
    FullFour(0xff_ffff, 20);
    FullFour(0xfff_ffff, 24);
    FullFour(0xffff_ffff, 28);
  }

  lemma {:induction false} StepsZero(n: nat)
    ensures Steps(0, n) == 0
    decreases n
  {
    if n > 0 { StepsZero(n - 1); }
  }

  /** Dividing 32 set bits from 32 set bits leaves nothing. */
  lemma OnesCancel()
    ensures Divide(0xffff_ffff, Bits(0xffff_ffff, 32)) == 0
  {
    hide Divide, Xor, Steps, Bits;
    FullOnes();
    FullBits(0xffff_ffff, 32);
    BitsAtOnce(0xffff_ffff, 0xffff_ffff, 32);
    XorSame(0xffff_ffff);
    StepsZero(32);
  }

  lemma XorNothing(a: bv32, b: bv32)
    ensures Xor(a, b) == 0 ==> a == b
    ensures Xor(a, 0) == a
  {
  }

  lemma HeadInverted(head: seq<bool>)
    requires |head| == 32
    ensures Divide(0xffff_ffff, head) == Divide(0, FirstInverted(head, 32))
  {
    hide Divide, Xor, Bits;
    var flipped := FirstInverted(head, 32);
    FullOnes();
    FullBits(0xffff_ffff, 32);
    assert Diff(head, flipped) == Bits(0xffff_ffff, 32);
    DivideXor(0xffff_ffff, 0, head, flipped);
    XorNothing(0xffff_ffff, 0);
    OnesCancel();
    XorNothing(Divide(0xffff_ffff, head), Divide(0, flipped));
  }

  lemma InvertedParts(m: seq<bool>)
    requires |m| >= 32
    ensures FirstInverted(m, 32) == FirstInverted(m[..32], 32) + m[32..]
  {
  }

  lemma StartInverts(m: seq<bool>)
    requires |m| >= 32
    ensures Divide(0xffff_ffff, m) == Divide(0, FirstInverted(m, 32))
  {
    hide Divide, FirstInverted;
    assert m == m[..32] + m[32..];
    DivideConcat(0xffff_ffff, m[..32], m[32..]);
    DivideConcat(0, FirstInverted(m[..32], 32), m[32..]);
    HeadInverted(m[..32]);
    InvertedParts(m);
  }

  /** The checksum is the inverted remainder, from 0 on, of the message with its first 32 bits inverted. */
  lemma ChecksumFromZero(p: seq<bv8>)
    requires |p| >= 4
    ensures Crc(p) == 0xffff_ffff ^ Divide(0, FirstInverted(Message(p), 32))
  {
    hide Divide, Message, FirstInverted;
    MessageLength(p);
    StartInverts(Message(p));
    XorSwap(Divide(ONES, Message(p)), ONES);
  }

  // ---- a checksum behind its message ----

  function LowestByte(w: bv32): bv8 {
    (w & 0xff) as bv8
  }

  /** The bytes of a word, the lowest one first. */
  function LowestFirst(w: bv32): (p: seq<bv8>)
    ensures |p| == 4
  {
    [LowestByte(w), LowestByte(Shr8(w)), LowestByte(Shr8(Shr8(w))), LowestByte(Shr8(Shr8(Shr8(w))))]
  }

  lemma LowestByteIs(w: bv32)
    ensures LowestByte(w) as bv32 == LowByte(w)
  {
  }

  lemma FourBytesGone(w: bv32)
    ensures Shr8(Shr8(Shr8(Shr8(w)))) == 0
  {
  }

  lemma HighIsRest(c: bv32)
    ensures Xor(c, LowByte(c)) == HighBytes(c)
  {
  }

  /** Feeding the lowest byte of c shifts it out of a remainder that c was mixed into. */
  lemma FeedLowest(e: bv32, c: bv32)
    ensures Step8(Xor(Xor(e, c), LowByte(c))) == Xor(Step8(e), Shr8(c))
  {
    hide Step4, Xor, LowByte, HighBytes, Shr4, Shr8;
    XorAssoc(e, c, LowByte(c));
    HighIsRest(c);
    HighBytesLow(c);
    HighBytesDown(c);
    Step4Xor(e, HighBytes(c));
    Step4Low(HighBytes(c));
    Step4Xor(Step4(e), Shr4(HighBytes(c)));
    Step4Low(Shr4(HighBytes(c)));
  }

  lemma FeedByte(crc: bv32, p: seq<bv8>, b: bv8)
    ensures Divide(crc, Message(p + [b])) == Step8(Xor(Divide(crc, Message(p)), b as bv32))
  {
    hide Step8, Xor, Divide, Message;
    DivideNextByte(crc, p + [b]);
    assert (p + [b])[..|p|] == p;
  }

  lemma FeedFour(crc: bv32, a: bv8, b: bv8, c: bv8, d: bv8)
    ensures Divide(crc, Message([a, b, c, d])) ==
      Step8(Xor(Step8(Xor(Step8(Xor(Step8(Xor(crc, a as bv32)), b as bv32)), c as bv32)), d as bv32))
  {
    hide Step8, Xor, Divide, Message;
    MessageNothing(crc, []);
    FeedByte(crc, [], a);
    FeedByte(crc, [a], b);
    FeedByte(crc, [a, b], c);
    FeedByte(crc, [a, b, c], d);
    assert [] + [a] == [a] && [a] + [b] == [a, b] && [a, b] + [c] == [a, b, c] && [a, b, c] + [d] == [a, b, c, d];
  }

  lemma FeedFourSteps(e: bv32, c: bv32)
    ensures Step8(Xor(Step8(Xor(Step8(Xor(Step8(Xor(Xor(e, c), LowByte(c))), LowByte(Shr8(c)))), LowByte(Shr8(Shr8(c))))),
                LowByte(Shr8(Shr8(Shr8(c)))))) == Step8(Step8(Step8(Step8(e))))
  {
    hide *;
    FeedLowest(e, c);
    FeedLowest(Step8(e), Shr8(c));
    FeedLowest(Step8(Step8(e)), Shr8(Shr8(c)));
    FeedLowest(Step8(Step8(Step8(e))), Shr8(Shr8(Shr8(c))));
    FourBytesGone(c);
    XorNothing(Step8(Step8(Step8(Step8(e)))), 0);
  }

  lemma LowestFirstIs(w: bv32)
    ensures LowestFirst(w) == [LowestByte(w), LowestByte(Shr8(w)), LowestByte(Shr8(Shr8(w))), LowestByte(Shr8(Shr8(Shr8(w))))]
  {
    hide LowestByte, Shr8;
  }

  /** What is left when all four bytes of c have been fed to a remainder that c was mixed into. */
  lemma FeedWord(e: bv32, c: bv32)
    ensures Divide(Xor(e, c), Message(LowestFirst(c))) == Step8(Step8(Step8(Step8(e))))
  {
    hide *;
    LowestFirstIs(c);
    FeedFour(Xor(e, c), LowestByte(c), LowestByte(Shr8(c)), LowestByte(Shr8(Shr8(c))), LowestByte(Shr8(Shr8(Shr8(c)))));
    LowestByteIs(c);
    LowestByteIs(Shr8(c));
    LowestByteIs(Shr8(Shr8(c)));
    LowestByteIs(Shr8(Shr8(Shr8(c))));
    FeedFourSteps(e, c);
  }

  lemma EightWords()
    ensures Step8(0xffff_ffff) == 0x2dfd_1072 && Step8(0x2dfd_1072) == 0xbe26_ed00
    ensures Step8(0xbe26_ed00) == 0x00be_26ed && Step8(0x00be_26ed) == 0xdebb_20e3
  {
    assert Step4(0xffff_ffff) == 0xb242_0de3 && Step4(0xb242_0de3) == 0x2dfd_1072;
    assert Step4(0x2dfd_1072) == 0x39b1_f1cf && Step4(0x39b1_f1cf) == 0xbe26_ed00;
    assert Step4(0xbe26_ed00) == 0x0be2_6ed0 && Step4(0x0be2_6ed0) == 0x00be_26ed;
    assert Step4(0x00be_26ed) == 0x86d8_30ba && Step4(0x86d8_30ba) == 0xdebb_20e3;
  }

  /** Without its inversion the remainder is the checksum mixed into 32 set bits. */
  lemma RemainderOf(p: seq<bv8>)
    ensures Divide(ONES, Message(p)) == Xor(0xffff_ffff, Crc(p))
  {
    hide Divide, Message;
  }

  /** A message with its checksum behind it, lowest byte first, always has the same checksum. */
  lemma ChecksumBehind(p: seq<bv8>)
    ensures Crc(p + LowestFirst(Crc(p))) == 0x2144_df1c
  {
    hide Divide, Message, LowestFirst, Step8;
    MessageConcat(p, LowestFirst(Crc(p)));
    DivideConcat(ONES, Message(p), Message(LowestFirst(Crc(p))));
    RemainderOf(p);
    FeedWord(0xffff_ffff, Crc(p));
    EightWords();
  }

  /** So four bytes behind a message give that constant exactly if they are its checksum. */
  lemma CheckedExactly(p: seq<bv8>, q: seq<bv8>)
    requires |q| == 4
    ensures Crc(p + q) == 0x2144_df1c <==> q == LowestFirst(Crc(p))
  {
    hide Crc, LowestFirst;
    ChecksumBehind(p);
    var r := LowestFirst(Crc(p));
    if q != r {
      BurstDetected(p, q, r, []);
      assert p + q + [] == p + q && p + r + [] == p + r;
    }
  }
}
