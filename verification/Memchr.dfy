/** Byte search by words (__memchr in memchr.c), for 8-byte longwords of either byte order. */
module Memchr {
  import opened Options

  /** The value in the longword at address (base + p), whose bytes are mem[p..p + 8]. It must
      be aligned. */
  function Load(mem: seq<bv8>, base: nat, p: nat, littleEndian: bool): bv64
    requires p + 8 <= |mem| && (base + p) % 8 == 0
  {
    if littleEndian
    then Word(mem[p], mem[p + 1], mem[p + 2], mem[p + 3], mem[p + 4], mem[p + 5], mem[p + 6], mem[p + 7])
    else Word(mem[p + 7], mem[p + 6], mem[p + 5], mem[p + 4], mem[p + 3], mem[p + 2], mem[p + 1], mem[p])
  }

  /** The longword with the given bytes, least significant first. */
  function Word(b0: bv8, b1: bv8, b2: bv8, b3: bv8, b4: bv8, b5: bv8, b6: bv8, b7: bv8): bv64 {
    (b0 as bv64) | ((b1 as bv64) << 8) | ((b2 as bv64) << 16) | ((b3 as bv64) << 24)
    | ((b4 as bv64) << 32) | ((b5 as bv64) << 40) | ((b6 as bv64) << 48) | ((b7 as bv64) << 56)
  }

  /** A 1 in every byte, and c in every byte, as the code builds them. */
  function RepeatedOne(): bv64 {
    var r: bv64 := 0x01010101;
    r | ((r << 31) << 1)
  }

  function RepeatedC(c: bv8): bv64 {
    var r := (c as bv64) | ((c as bv64) << 8);
    var r := r | (r << 16);
    r | ((r << 31) << 1)
  }

  /** The subtraction trick. */
  function Test(x: bv64): bv64 { (x - RepeatedOne()) & !x & (RepeatedOne() << 7) }

  predicate HasZeroByte(x: bv64) {
    || x & 0xff == 0 || x & 0xff00 == 0 || x & 0xff_0000 == 0 || x & 0xff00_0000 == 0
    || x & 0xff_0000_0000 == 0 || x & 0xff00_0000_0000 == 0
    || x & 0xff_0000_0000_0000 == 0 || x & 0xff00_0000_0000_0000 == 0
  }

  /** The test finds exactly the longwords with a zero byte, whatever the borrows do. */
  lemma TestFindsZeroByte(x: bv64)
    ensures Test(x) != 0 <==> HasZeroByte(x)
  {
    assert RepeatedOne() == 0x0101_0101_0101_0101;
    assert RepeatedOne() << 7 == 0x8080_8080_8080_8080;
  }

  /** Two longwords agree in the byte that the mask covers. */
  predicate Agree(w: bv64, r: bv64, mask: bv64) { w & mask == r & mask }

  lemma XorZero(x: bv64, y: bv64)
    ensures x ^ y == 0 <==> x == y
  {}

  lemma XorUnderMask(w: bv64, r: bv64, mask: bv64)
    ensures (w ^ r) & mask == (w & mask) ^ (r & mask)
  {}

  lemma MaskedXor(w: bv64, r: bv64, mask: bv64)
    ensures (w ^ r) & mask == 0 <==> w & mask == r & mask
  {
    XorUnderMask(w, r, mask);
    XorZero(w & mask, r & mask);
  }

  /** Comparing with c in every byte turns the bytes that are c into zero bytes. */
  lemma XorFindsC(w: bv64, r: bv64)
    ensures HasZeroByte(w ^ r) <==>
      || Agree(w, r, 0xff) || Agree(w, r, 0xff00) || Agree(w, r, 0xff_0000) || Agree(w, r, 0xff00_0000)
      || Agree(w, r, 0xff_0000_0000) || Agree(w, r, 0xff00_0000_0000)
      || Agree(w, r, 0xff_0000_0000_0000) || Agree(w, r, 0xff00_0000_0000_0000)
  {
    MaskedXor(w, r, 0xff); MaskedXor(w, r, 0xff00); MaskedXor(w, r, 0xff_0000); MaskedXor(w, r, 0xff00_0000);
    MaskedXor(w, r, 0xff_0000_0000); MaskedXor(w, r, 0xff00_0000_0000);
    MaskedXor(w, r, 0xff_0000_0000_0000); MaskedXor(w, r, 0xff00_0000_0000_0000);
  }

  lemma AgreeLow(b0: bv8, b1: bv8, b2: bv8, b3: bv8, b4: bv8, b5: bv8, b6: bv8, b7: bv8, c: bv8)
    ensures var w, r := Word(b0, b1, b2, b3, b4, b5, b6, b7), RepeatedC(c);
      && (Agree(w, r, 0xff) <==> b0 == c) && (Agree(w, r, 0xff00) <==> b1 == c)
      && (Agree(w, r, 0xff_0000) <==> b2 == c) && (Agree(w, r, 0xff00_0000) <==> b3 == c)
  {}

  lemma AgreeHigh(b0: bv8, b1: bv8, b2: bv8, b3: bv8, b4: bv8, b5: bv8, b6: bv8, b7: bv8, c: bv8)
    ensures var w, r := Word(b0, b1, b2, b3, b4, b5, b6, b7), RepeatedC(c);
      && (Agree(w, r, 0xff_0000_0000) <==> b4 == c) && (Agree(w, r, 0xff00_0000_0000) <==> b5 == c)
      && (Agree(w, r, 0xff_0000_0000_0000) <==> b6 == c) && (Agree(w, r, 0xff00_0000_0000_0000) <==> b7 == c)
  {}

  /** The word test says whether c is among the bytes. */
  lemma WordTest(b0: bv8, b1: bv8, b2: bv8, b3: bv8, b4: bv8, b5: bv8, b6: bv8, b7: bv8, c: bv8)
    ensures Test(Word(b0, b1, b2, b3, b4, b5, b6, b7) ^ RepeatedC(c)) != 0
      <==> b0 == c || b1 == c || b2 == c || b3 == c || b4 == c || b5 == c || b6 == c || b7 == c
  {
    hide Test, HasZeroByte, Word, RepeatedC, Agree;
    var w, r := Word(b0, b1, b2, b3, b4, b5, b6, b7), RepeatedC(c);
    TestFindsZeroByte(w ^ r);
    XorFindsC(w, r);
    AgreeLow(b0, b1, b2, b3, b4, b5, b6, b7, c);
    AgreeHigh(b0, b1, b2, b3, b4, b5, b6, b7, c);
  }

  lemma LoadTest(mem: seq<bv8>, base: nat, p: nat, littleEndian: bool, c: bv8)
    requires p + 8 <= |mem| && (base + p) % 8 == 0
    ensures Test(Load(mem, base, p, littleEndian) ^ RepeatedC(c)) != 0 <==> c in mem[p..p + 8]
  {
    hide Test, Word, RepeatedC;
    var w := mem[p..p + 8];
    AmongEight(w, c);
    if littleEndian {
      WordTest(w[0], w[1], w[2], w[3], w[4], w[5], w[6], w[7], c);
    } else {
      WordTest(w[7], w[6], w[5], w[4], w[3], w[2], w[1], w[0], c);
    }
  }

  lemma AmongEight(w: seq<bv8>, c: bv8)
    requires |w| == 8
    ensures c in w <==> w[0] == c || w[1] == c || w[2] == c || w[3] == c || w[4] == c || w[5] == c || w[6] == c || w[7] == c
  {}

  /** The first place among the n bytes at s that holds c, or none. The bytes are mem, so that
      nothing else can be read, and their address is base; s and n are p and left as they
      advance. */
  method Search(mem: seq<bv8>, base: nat, littleEndian: bool, c: int) returns (found: Option<nat>)
    ensures found.None? ==> forall j :: 0 <= j < |mem| ==> mem[j] != (c % 256) as bv8
    ensures found.Some? ==> found.value < |mem| && mem[found.value] == (c % 256) as bv8
    ensures found.Some? ==> forall j :: 0 <= j < found.value ==> mem[j] != (c % 256) as bv8
  {
    hide Test, Load, RepeatedC;
    var ch := (c % 256) as bv8;
    var p: nat, left: nat := 0, |mem|;
    while left > 0 && (base + p) % 8 != 0
      invariant p + left == |mem|
      invariant forall j :: 0 <= j < p ==> mem[j] != ch
    {
      if mem[p] == ch {
        return Some(p);
      }
      left, p := left - 1, p + 1;
    }
    var repeatedC := RepeatedC(ch);
    while left >= 8
      invariant p + left == |mem|
      invariant left > 0 ==> (base + p) % 8 == 0
      invariant forall j :: 0 <= j < p ==> mem[j] != ch
    {
      var longword1 := Load(mem, base, p, littleEndian) ^ repeatedC;
      LoadTest(mem, base, p, littleEndian, ch);
      if Test(longword1) != 0 {
        break;
      }
      forall j | p <= j < p + 8
        ensures mem[j] != ch
      {
        assert mem[j] == mem[p..p + 8][j - p];
      }
      p, left := p + 8, left - 8;
    }
    while left > 0
      invariant p + left == |mem|
      invariant forall j :: 0 <= j < p ==> mem[j] != ch
    {
      if mem[p] == ch {
        return Some(p);
      }
      left, p := left - 1, p + 1;
    }
    return None;
  }
}
