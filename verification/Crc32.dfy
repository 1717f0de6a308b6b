/** ngx_crc32.h: the checksum by nibbles, by bytes and in pieces, against the division bit by bit. */
module Crc32 {
  import opened CrcBits
  import opened CrcTables

  const ONES: bv32 := 0xffff_ffff

  /** The bits of the data in the order of the division: byte by byte, lowest bit first. */
  function Message(p: seq<bv8>): seq<bool> {
    if p == [] then [] else Message(p[..|p| - 1]) + Bits(p[|p| - 1] as bv32, 8)
  }

  /** The checksum: start from all ones, divide, and invert the remainder. */
  function Crc(p: seq<bv8>): bv32 {
    Xor(Divide(ONES, Message(p)), ONES)
  }

  // ---- one byte by the tables ----

  /** The index into the long table. */
  function ByteIndex(crc: bv32, c: bv8): bv8 {
    ((crc ^ (c as bv32)) & 0xff) as bv8
  }

  /** The index into the short table. */
  function NibbleIndex(crc: bv32, n: bv8): bv8 {
    ((crc ^ (n as bv32)) & 0xf) as bv8
  }

  lemma ByteIndexBits(crc: bv32, c: bv8)
    ensures ByteIndex(crc, c) as bv32 == LowByte(Xor(crc, c as bv32))
  {
  }

  lemma ByteLeaves(crc: bv32, c: bv8)
    ensures Shr8(Xor(crc, c as bv32)) == Shr8(crc)
  {
  }

  lemma NibbleIndexBits(crc: bv32, n: bv8)
    ensures NibbleIndex(crc, n) as bv32 == LowNibble(Xor(crc, n as bv32))
  {
  }

  lemma NibbleIndexSmall(crc: bv32, n: bv8)
    ensures NibbleIndex(crc, n) < 16
  {
  }

  lemma NibbleLeaves(crc: bv32, n: bv8)
    requires n < 16
    ensures Shr4(Xor(crc, n as bv32)) == Shr4(crc)
  {
  }

  /** A table entry and a shift by a byte do what eight steps of the division do. */
  lemma LongByte(crc: bv32, c: bv8)
    ensures Xor(Table256(ByteIndex(crc, c)), Shr8(crc)) == Step8(Xor(crc, c as bv32))
  {
    hide *;
    var i := ByteIndex(crc, c);
    Table256Steps(i);
    ByteIndexBits(crc, c);
    ByteLeaves(crc, c);
    Step8Split(Xor(crc, c as bv32));
  }

  /** A table entry and a shift by a nibble do what four steps of the division do. */
  lemma ShortNibble(crc: bv32, n: bv8)
    requires n < 16
    ensures Xor(Table16(NibbleIndex(crc, n)), Shr4(crc)) == Step4(Xor(crc, n as bv32))
  {
    hide *;
    NibbleIndexSmall(crc, n);
    Table16Steps(NibbleIndex(crc, n));
    NibbleIndexBits(crc, n);
    NibbleLeaves(crc, n);
    Step4Split(Xor(crc, n as bv32));
  }

  function Raised(n: bv8): bv32 {
    (n as bv32) << 4
  }

  lemma ByteParts(c: bv8)
    ensures c as bv32 == Xor((c & 0xf) as bv32, Raised(c >> 4)) && c & 0xf < 16 && c >> 4 < 16
  {
  }

  lemma RaisedDown(n: bv8)
    ensures LowNibble(Raised(n)) == 0 && Shr4(Raised(n)) == n as bv32
  {
  }

  /** Two nibbles, the low one first, are one byte. */
  lemma TwoNibbles(crc: bv32, c: bv8)
    ensures Step4(Xor(Step4(Xor(crc, (c & 0xf) as bv32)), (c >> 4) as bv32)) == Step8(Xor(crc, c as bv32))
  {
    hide Step4, Xor, Raised, Shr4, LowNibble;
    var lo, hi := (c & 0xf) as bv32, c >> 4;
    ByteParts(c);
    XorAssoc(crc, lo, Raised(hi));
    Step4Xor(Xor(crc, lo), Raised(hi));
    RaisedDown(hi);
    Step4Low(Raised(hi));
  }

  lemma OneMoreByte(p: seq<bv8>, i: nat)
    requires i < |p|
    ensures Divide(ONES, Message(p[..i + 1])) == Step8(Xor(Divide(ONES, Message(p[..i])), p[i] as bv32))
  {
    DivideNextByte(ONES, p[..i + 1]);
    assert p[..i + 1][..i] == p[..i];
  }

  lemma DivideNextByte(crc: bv32, p: seq<bv8>)
    requires p != []
    ensures Divide(crc, Message(p)) == Step8(Xor(Divide(crc, Message(p[..|p| - 1])), p[|p| - 1] as bv32))
  {
    hide Step8, Xor, Divide, Bits;
    var last := p[|p| - 1];
    DivideConcat(crc, Message(p[..|p| - 1]), Bits(last as bv32, 8));
    ByteAtOnce(Divide(crc, Message(p[..|p| - 1])), last);
  }

  /** ngx_crc32_short */
  method Short(p: seq<bv8>) returns (crc: bv32)
    ensures crc == Crc(p)
  {
    hide Step4, Step8, Divide, Xor, Shr4, Table16, NibbleIndex;
    crc := ONES;
    var i := 0;
    assert p[..0] == [] && Message(p[..0]) == [];
    DivideNothing(ONES);
    while i < |p|
      invariant i <= |p| && crc == Divide(ONES, Message(p[..i]))
    {
      var c := p[i];
      ByteParts(c);
      ShortNibble(crc, c & 0xf);
      TwoNibbles(crc, c);
      OneMoreByte(p, i);
      crc := Xor(Table16(NibbleIndex(crc, c & 0xf)), Shr4(crc));
      ShortNibble(crc, c >> 4);
      crc := Xor(Table16(NibbleIndex(crc, c >> 4)), Shr4(crc));
      i := i + 1;
    }
    assert p[..i] == p;
    crc := Xor(crc, ONES);
  }

  lemma DivideNothing(crc: bv32)
    ensures Divide(crc, []) == crc
  {
  }

  /** ngx_crc32_long */
  method Long(p: seq<bv8>) returns (crc: bv32)
    ensures crc == Crc(p)
  {
    hide Step8, Divide, Xor, Shr8, Table256, ByteIndex;
    crc := ONES;
    var i := 0;
    assert p[..0] == [] && Message(p[..0]) == [];
    DivideNothing(ONES);
    while i < |p|
      invariant i <= |p| && crc == Divide(ONES, Message(p[..i]))
    {
      LongByte(crc, p[i]);
      OneMoreByte(p, i);
      crc := Xor(Table256(ByteIndex(crc, p[i])), Shr8(crc));
      i := i + 1;
    }
    assert p[..i] == p;
    crc := Xor(crc, ONES);
  }

  // ---- the laws ----

  lemma {:induction false} MessageConcat(a: seq<bv8>, b: seq<bv8>)
    ensures Message(a + b) == Message(a) + Message(b)
    decreases b
  {
    hide Bits;
    if b == [] {
      assert a + b == a;
    } else {
      var ab, last := a + b, b[|b| - 1];
      assert ab[..|ab| - 1] == a + b[..|b| - 1] && ab[|ab| - 1] == last;
      MessageConcat(a, b[..|b| - 1]);
    }
  }

  // ---- in pieces ----

  /** A checksum under way: ngx_crc32_init, ngx_crc32_update and ngx_crc32_final on one variable. */
  class Running {
    var crc: bv32
    // the data so far
    ghost var fed: seq<bv8>

    /** The variable holds the remainder of the data so far. */
    ghost predicate Valid()
      reads this
    {
      crc == Divide(ONES, Message(fed))
    }

    /** ngx_crc32_init */
    constructor ()
      ensures Valid() && fed == []
    {
      crc := ONES;
      fed := [];
    }

    /** ngx_crc32_update */
    method Update(p: seq<bv8>)
      requires Valid()
      modifies this
      ensures Valid() && fed == old(fed) + p
    {
      hide Step8, Divide, Xor, Shr8, Table256, ByteIndex, Message;
      var c := crc;
      var i := 0;
      MessageNothing(crc, p);
      while i < |p|
        invariant i <= |p| && c == Divide(old(crc), Message(p[..i])) && crc == old(crc) && fed == old(fed)
      {
        LongByte(c, p[i]);
        DivideNextByte(crc, p[..i + 1]);
        assert p[..i + 1][..i] == p[..i];
        c := Xor(Table256(ByteIndex(c, p[i])), Shr8(c));
        i := i + 1;
      }
      assert p[..i] == p;
      MessageConcat(fed, p);
      DivideConcat(ONES, Message(fed), Message(p));
      crc := c;
      fed := fed + p;
    }

    /** ngx_crc32_final: the variable now holds the checksum of the data, in however many pieces it came. */
    method Final()
      requires Valid()
      modifies this
      ensures fed == old(fed) && crc == Crc(fed)
    {
      crc := Xor(crc, ONES);
    }
  }

  lemma MessageNothing(crc: bv32, p: seq<bv8>)
    ensures Divide(crc, Message(p[..0])) == crc
  {
  }

  ghost function Concat(pieces: seq<seq<bv8>>): seq<bv8> {
    if pieces == [] then [] else Concat(pieces[..|pieces| - 1]) + pieces[|pieces| - 1]
  }

  /** One piece after the other, from the start value on. */
  ghost function DivideAll(pieces: seq<seq<bv8>>): bv32 {
    if pieces == [] then ONES else Divide(DivideAll(pieces[..|pieces| - 1]), Message(pieces[|pieces| - 1]))
  }

  lemma {:induction false} AllPieces(pieces: seq<seq<bv8>>)
    ensures DivideAll(pieces) == Divide(ONES, Message(Concat(pieces)))
    decreases |pieces|
  {
    if pieces != [] {
      hide Divide, Message, Xor;
      var before := pieces[..|pieces| - 1];
      AllPieces(before);
      MessageConcat(Concat(before), pieces[|pieces| - 1]);
      DivideConcat(ONES, Message(Concat(before)), Message(pieces[|pieces| - 1]));
    }
  }

  /** However the data is cut, dividing on from piece to piece and finishing gives the checksum of the whole. */
  lemma CutAnywhere(pieces: seq<seq<bv8>>)
    ensures Xor(DivideAll(pieces), ONES) == Crc(Concat(pieces))
  {
    AllPieces(pieces);
  }

  /** The checksum and a message determine the state before: a common tail cannot hide a difference. */
  lemma TailKeepsDifference(a: seq<bv8>, b: seq<bv8>, tail: seq<bv8>)
    requires Crc(a) != Crc(b)
    ensures Crc(a + tail) != Crc(b + tail)
  {
    hide Xor, Divide;
    if Crc(a + tail) == Crc(b + tail) {
      MessageConcat(a, tail);
      MessageConcat(b, tail);
      DivideConcat(ONES, Message(a), Message(tail));
      DivideConcat(ONES, Message(b), Message(tail));
      CancelXor(Divide(ONES, Message(a + tail)), Divide(ONES, Message(b + tail)), ONES);
      DivideOneToOne(Divide(ONES, Message(a)), Divide(ONES, Message(b)), Message(tail));
    }
  }
}
