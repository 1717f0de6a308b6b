/** What the checksum is for: a burst of up to 32 wrong bits never goes unnoticed. */
module CrcBurst {
  import opened CrcBits
  import opened Crc32

  // ---- differences divide by themselves ----

  function Diff(xs: seq<bool>, ys: seq<bool>): seq<bool>
    requires |xs| == |ys|
  {
    seq(|xs|, i requires 0 <= i < |xs| => xs[i] != ys[i])
  }

  lemma FourXor(s: bv32, x: bv32, t: bv32, y: bv32)
    ensures Xor(Xor(s, x), Xor(t, y)) == Xor(Xor(s, t), Xor(x, y))
  {
    hide *;
    XorAssoc(s, x, Xor(t, y));
    XorAssoc(x, t, y);
    XorSwap(x, t);
    XorAssoc(t, x, y);
    XorAssoc(s, t, Xor(x, y));
  }

  lemma BitXor(a: bool, b: bool)
    ensures Xor(Bit(a), Bit(b)) == Bit(a != b)
  {
  }

  lemma {:induction false} DivideXor(s: bv32, t: bv32, xs: seq<bool>, ys: seq<bool>)
    requires |xs| == |ys|
    ensures Xor(Divide(s, xs), Divide(t, ys)) == Divide(Xor(s, t), Diff(xs, ys))
    decreases xs
  {
    hide Shift, Bit, Xor;
    if xs != [] {
      var x, y := Bit(xs[0]), Bit(ys[0]);
      assert Diff(xs, ys)[1..] == Diff(xs[1..], ys[1..]);
      DivideXor(Shift(Xor(s, x)), Shift(Xor(t, y)), xs[1..], ys[1..]);
      ShiftXor(Xor(s, x), Xor(t, y));
      FourXor(s, x, t, y);
      BitXor(xs[0], ys[0]);
    }
  }

  // ---- running the division backwards ----

  function Shl1(c: bv32): bv32 {
    c << 1
  }

  predicate TopClear(c: bv32) {
    c & 0x8000_0000 == 0
  }

  /** The n highest bits are clear. */
  ghost predicate Clear(c: bv32, n: nat)
    decreases n
  {
    n > 0 ==> TopClear(c) && Clear(Shl1(c), n - 1)
  }

  /** The number with the given bits, the first one lowest. */
  function Num(d: seq<bool>): bv32 {
    if d == [] then 0 else Xor(Shl1(Num(d[1..])), Bit(d[0]))
  }

  lemma ShlXor(a: bv32, b: bv32)
    ensures Shl1(Xor(a, b)) == Xor(Shl1(a), Shl1(b))
  {
  }

  lemma TopXor(a: bv32, b: bv32)
    ensures TopClear(a) && TopClear(b) ==> TopClear(Xor(a, b))
  {
  }

  lemma {:induction false} ClearXor(a: bv32, b: bv32, n: nat)
    requires Clear(a, n) && Clear(b, n)
    ensures Clear(Xor(a, b), n)
    decreases n
  {
    hide Xor, Shl1, TopClear;
    if n > 0 {
      ShlXor(a, b);
      TopXor(a, b);
      ClearXor(Shl1(a), Shl1(b), n - 1);
    }
  }

  lemma {:induction false} ClearLess(c: bv32, m: nat, n: nat)
    requires Clear(c, n) && m <= n
    ensures Clear(c, m)
    decreases n
  {
    hide Shl1, TopClear;
    if m > 0 { ClearLess(Shl1(c), m - 1, n - 1); }
  }

  lemma ClearOne()
    ensures Clear(1, 31)
  {
    assert Clear(0x4000_0000, 1);
    assert Clear(0x2000_0000, 2);
    assert Clear(0x1000_0000, 3);
    assert Clear(0x0800_0000, 4);
    assert Clear(0x0400_0000, 5);
    assert Clear(0x0200_0000, 6);
    assert Clear(0x0100_0000, 7);
    assert Clear(0x0080_0000, 8);
    assert Clear(0x0040_0000, 9);
    assert Clear(0x0020_0000, 10);
    assert Clear(0x0010_0000, 11);
    assert Clear(0x0008_0000, 12);
    assert Clear(0x0004_0000, 13);
    assert Clear(0x0002_0000, 14);
    assert Clear(0x0001_0000, 15);
    assert Clear(0x0000_8000, 16);
    assert Clear(0x0000_4000, 17);
    assert Clear(0x0000_2000, 18);
    assert Clear(0x0000_1000, 19);
    assert Clear(0x0000_0800, 20);
    assert Clear(0x0000_0400, 21);
    assert Clear(0x0000_0200, 22);
    assert Clear(0x0000_0100, 23);
    assert Clear(0x0000_0080, 24);
    assert Clear(0x0000_0040, 25);
    assert Clear(0x0000_0020, 26);
    assert Clear(0x0000_0010, 27);
    assert Clear(0x0000_0008, 28);
    assert Clear(0x0000_0004, 29);
    assert Clear(0x0000_0002, 30);
    assert Clear(0x0000_0001, 31);
  }

  lemma {:induction false} ClearZero(n: nat)
    ensures Clear(0, n)
    decreases n
  {
    if n > 0 {
      assert Shl1(0) == 0;
      ClearZero(n - 1);
    }
  }

  lemma ClearBit(b: bool, n: nat)
    requires n <= 31
    ensures Clear(Bit(b), n)
  {
    hide Clear;
    ClearOne();
    ClearLess(1, n, 31);
    ClearZero(n);
  }

  lemma {:induction false} ClearNum(d: seq<bool>)
    requires |d| <= 32
    ensures Clear(Num(d), 32 - |d|)
    decreases d
  {
    hide Xor, Shl1, TopClear, Bit;
    if d == [] {
      ClearZero(32);
    } else {
      ClearNum(d[1..]);
      ClearBit(d[0], 32 - |d|);
      ClearXor(Shl1(Num(d[1..])), Bit(d[0]), 32 - |d|);
    }
  }

  lemma TopOfShift(y: bv32)
    ensures Odd(y) ==> !TopClear(Shift(y))
  {
  }

  lemma EvenBack(y: bv32)
    ensures !Odd(y) ==> y == Shl1(Shift(y))
  {
  }

  lemma XorBack(a: bv32, b: bv32, c: bv32)
    ensures Xor(a, b) == c ==> a == Xor(c, b)
  {
  }

  /** A short message that is divided down to 0 tells what the division started from. */
  lemma {:induction false} DivideBack(s: bv32, d: seq<bool>)
    requires Divide(s, d) == 0 && |d| <= 32
    ensures s == Num(d)
    decreases d
  {
    hide Xor, Shl1, TopClear, Bit, Shift, Odd;
    if d != [] {
      var y := Xor(s, Bit(d[0]));
      DivideBack(Shift(y), d[1..]);
      ClearNum(d[1..]);
      TopOfShift(y);
      EvenBack(y);
      XorBack(s, Bit(d[0]), y);
    }
  }

  lemma BothZero(z: bv32, b: bool)
    ensures Xor(Shl1(z), Bit(b)) == 0 ==> !b
    ensures Xor(Shl1(z), Bit(b)) == 0 && TopClear(z) ==> z == 0
  {
  }

  lemma {:induction false} NumZero(d: seq<bool>)
    requires |d| <= 32 && Num(d) == 0
    ensures forall i :: 0 <= i < |d| ==> !d[i]
    decreases d
  {
    hide Xor, Shl1, TopClear, Bit;
    if d != [] {
      ClearNum(d[1..]);
      BothZero(Num(d[1..]), d[0]);
      NumZero(d[1..]);
      forall i | 0 <= i < |d| ensures !d[i] { assert i > 0 ==> d[i] == d[1..][i - 1]; }
    }
  }

  lemma XorSame(s: bv32)
    ensures Xor(s, s) == 0
  {
  }

  /** From the same remainder, different strings of up to 32 bits lead to different remainders. */
  lemma ShortDiffers(s: bv32, xs: seq<bool>, ys: seq<bool>)
    requires |xs| == |ys| <= 32 && Divide(s, xs) == Divide(s, ys)
    ensures xs == ys
  {
    hide Divide, Xor;
    DivideXor(s, s, xs, ys);
    XorSame(s);
    XorSame(Divide(s, xs));
    DivideBack(0, Diff(xs, ys));
    NumZero(Diff(xs, ys));
    forall i | 0 <= i < |xs| ensures xs[i] == ys[i] { assert !Diff(xs, ys)[i]; }
  }

  // ---- bytes ----

  lemma {:induction false} BitsLength(w: bv32, n: nat)
    ensures |Bits(w, n)| == n
    decreases n
  {
    if n > 0 { BitsLength(Shr1(w), n - 1); }
  }

  lemma {:induction false} BitsOneToOne(v: bv32, w: bv32, n: nat)
    requires Fits(v, n) && Fits(w, n) && Bits(v, n) == Bits(w, n)
    ensures v == w
    decreases n
  {
    hide Shr1, Odd;
    if n > 0 {
      assert Bits(v, n)[0] == Bits(w, n)[0];
      assert Bits(v, n)[1..] == Bits(Shr1(v), n - 1) && Bits(w, n)[1..] == Bits(Shr1(w), n - 1);
      BitsOneToOne(Shr1(v), Shr1(w), n - 1);
      Halves(v, w);
    }
  }

  lemma WidenOneToOne(a: bv8, b: bv8)
    ensures a as bv32 == b as bv32 ==> a == b
  {
  }

  lemma {:induction false} MessageOneToOne(x: seq<bv8>, y: seq<bv8>)
    requires |x| == |y| && Message(x) == Message(y)
    ensures x == y
    decreases x
  {
    hide Bits;
    if x != [] {
      var n := |x| - 1;
      var a, b := x[n], y[n];
      BitsLength(a as bv32, 8);
      BitsLength(b as bv32, 8);
      LastEight(Message(x[..n]), Bits(a as bv32, 8), Message(y[..n]), Bits(b as bv32, 8));
      MessageOneToOne(x[..n], y[..n]);
      ByteSmall(a);
      ByteSmall(b);
      ByteFits(a as bv32);
      ByteFits(b as bv32);
      BitsOneToOne(a as bv32, b as bv32, 8);
      WidenOneToOne(a, b);
      assert x == x[..n] + [a] && y == y[..n] + [b];
    }
  }

  lemma LastEight(a: seq<bool>, b: seq<bool>, c: seq<bool>, d: seq<bool>)
    requires a + b == c + d && |b| == |d|
    ensures a == c && b == d
  {
    assert a == (a + b)[..|a|] && c == (c + d)[..|c|];
    assert b == (a + b)[|a|..] && d == (c + d)[|c|..];
  }

  lemma {:induction false} MessageLength(p: seq<bv8>)
    ensures |Message(p)| == 8 * |p|
    decreases p
  {
    hide Bits;
    if p != [] {
      MessageLength(p[..|p| - 1]);
      BitsLength(p[|p| - 1] as bv32, 8);
    }
  }

  /** The two strings of bits agree except at n consecutive places from i on. */
  ghost predicate Within(a: seq<bool>, b: seq<bool>, i: nat, n: nat) {
    |a| == |b| && forall k :: 0 <= k < |a| && !(i <= k < i + n) ==> a[k] == b[k]
  }

  /** Such strings are the same before and behind a piece of at most n bits. */
  lemma Pieces(a: seq<bool>, b: seq<bool>, i: nat, n: nat) returns (head: seq<bool>, xs: seq<bool>, ys: seq<bool>, tail: seq<bool>)
    requires Within(a, b, i, n)
    ensures a == head + (xs + tail) && b == head + (ys + tail) && |xs| == |ys| <= n
  {
    var from := if i < |a| then i else |a|;
    var to := if i + n < |a| then i + n else |a|;
    head, xs, ys, tail := a[..from], a[from..to], b[from..to], a[to..];
    assert b[..from] == head && b[to..] == tail;
  }

  /** From the same remainder, strings that differ only within 32 consecutive bits lead to different remainders. */
  lemma BitsDiffer(s: bv32, a: seq<bool>, b: seq<bool>, i: nat)
    requires Within(a, b, i, 32) && Divide(s, a) == Divide(s, b)
    ensures a == b
  {
    hide Divide, Xor, Within;
    var head, xs, ys, tail := Pieces(a, b, i, 32);
    var t := Divide(s, head);
    DivideConcat(s, head, xs + tail);
    DivideConcat(s, head, ys + tail);
    DivideConcat(t, xs, tail);
    DivideConcat(t, ys, tail);
    DivideOneToOne(Divide(t, xs), Divide(t, ys), tail);
    ShortDiffers(t, xs, ys);
  }

  /** Two different messages that differ only within 32 consecutive bits have different checksums. */
  lemma BitBurstDetected(p: seq<bv8>, q: seq<bv8>, i: nat)
    requires |p| == |q| && p != q && Within(Message(p), Message(q), i, 32)
    ensures Crc(p) != Crc(q)
  {
    hide Divide, Xor, Message, Within;
    if Crc(p) == Crc(q) {
      CancelXor(Divide(ONES, Message(p)), Divide(ONES, Message(q)), ONES);
      BitsDiffer(ONES, Message(p), Message(q), i);
      MessageOneToOne(p, q);
    }
  }

  /** In particular two messages that differ only within four neighbouring bytes have different checksums. */
  lemma BurstDetected(head: seq<bv8>, x: seq<bv8>, y: seq<bv8>, tail: seq<bv8>)
    requires |x| == |y| <= 4 && x != y
    ensures Crc(head + x + tail) != Crc(head + y + tail)
  {
    hide Crc, Message, Within;
    var p, q := head + x + tail, head + y + tail;
    assert p != q by { assert p[|head|..|head| + |x|] == x && q[|head|..|head| + |y|] == y; }
    MessageConcat(head + x, tail);
    MessageConcat(head + y, tail);
    MessageConcat(head, x);
    MessageConcat(head, y);
    MessageLength(head);
    MessageLength(x);
    MessageLength(y);
    SameAround(Message(head), Message(x), Message(y), Message(tail));
    BitBurstDetected(p, q, 8 * |head|);
  }

  lemma SameAround(head: seq<bool>, x: seq<bool>, y: seq<bool>, tail: seq<bool>)
    requires |x| == |y| <= 32
    ensures Within(head + x + tail, head + y + tail, |head|, 32)
  {
  }
}
