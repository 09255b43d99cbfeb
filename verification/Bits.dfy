/** Bytes seen as eight bits and nibbles as four: the vocabulary shared by the
    bit-sliced and the scalar forms of the cipher. Bit 0 is the least significant. */
module Bits {
  type Block = b: seq<bv8> | |b| == 8 witness [0, 0, 0, 0, 0, 0, 0, 0]

  predicate BitAt(x: bv8, i: nat)
    requires i < 8
  {
    (x >> i) & 1 == 1
  }

  function FromBits(f: seq<bool>): (x: bv8)
    requires |f| == 8
    ensures forall i :: 0 <= i < 8 ==> BitAt(x, i) == f[i]
  {
    (if f[0] then 1 else 0) | (if f[1] then 2 else 0) | (if f[2] then 4 else 0) | (if f[3] then 8 else 0) |
    (if f[4] then 16 else 0) | (if f[5] then 32 else 0) | (if f[6] then 64 else 0) | (if f[7] then 128 else 0)
  }

  /** A byte is determined by its bits. */
  lemma SameBits(x: bv8, y: bv8)
    requires forall i :: 0 <= i < 8 ==> BitAt(x, i) == BitAt(y, i)
    ensures x == y
  {
    assert BitAt(x, 0) == BitAt(y, 0) && BitAt(x, 1) == BitAt(y, 1);
    assert BitAt(x, 2) == BitAt(y, 2) && BitAt(x, 3) == BitAt(y, 3);
    assert BitAt(x, 4) == BitAt(y, 4) && BitAt(x, 5) == BitAt(y, 5);
    assert BitAt(x, 6) == BitAt(y, 6) && BitAt(x, 7) == BitAt(y, 7);
  }

  predicate Bit4(x: bv4, i: nat)
    requires i < 4
  {
    (x >> i) & 1 == 1
  }

  function Nibble(b0: bool, b1: bool, b2: bool, b3: bool): (x: bv4)
    ensures Bit4(x, 0) == b0 && Bit4(x, 1) == b1 && Bit4(x, 2) == b2 && Bit4(x, 3) == b3
  {
    (if b0 then 1 else 0) | (if b1 then 2 else 0) | (if b2 then 4 else 0) | (if b3 then 8 else 0)
  }

  function High(x: bv8): bv4 { ((x >> 4) & 15) as bv4 }

  function Low(x: bv8): bv4 { (x & 15) as bv4 }

  /** The nibbles of a byte hold its upper and lower four bits. */
  lemma NibblesOfBits(f: seq<bool>)
    requires |f| == 8
    ensures Low(FromBits(f)) == Nibble(f[0], f[1], f[2], f[3])
    ensures High(FromBits(f)) == Nibble(f[4], f[5], f[6], f[7])
  {
  }

  function Xor(x: bv8, y: bv8): bv8 { x ^ y }

  lemma XorTwice(x: bv8, y: bv8)
    ensures Xor(Xor(x, y), y) == x && Xor(x, Xor(x, y)) == y
  {
  }

  /** The lower six bits of a byte. */
  lemma SixBits(x: bv8, b: nat)
    requires b < 8
    ensures BitAt(x & 0x3f, b) == if b < 6 then BitAt(x, b) else false
  {
    assert b == 0 || b == 1 || b == 2 || b == 3 || b == 4 || b == 5 || b == 6 || b == 7;
  }

  function And(x: bv8, y: bv8): bv8 { x & y }

  function Mask(b: nat): bv8
    requires b < 8
  {
    if b == 0 then 0x01 else if b == 1 then 0x02 else if b == 2 then 0x04 else if b == 3 then 0x08
    else if b == 4 then 0x10 else if b == 5 then 0x20 else if b == 6 then 0x40 else 0x80
  }

  predicate HasMask(x: bv8, m: bv8) { x & m != 0 }

  lemma BitIsMask(x: bv8, b: nat)
    requires b < 8
    ensures BitAt(x, b) <==> HasMask(x, Mask(b))
  {
    if b == 0 {
    } else if b == 1 {
    } else if b == 2 {
    } else if b == 3 {
    } else if b == 4 {
    } else if b == 5 {
    } else if b == 6 {
    } else {
      assert b == 7;
    }
  }

  predicate IsMask(m: bv8) {
    m == 0x01 || m == 0x02 || m == 0x04 || m == 0x08 || m == 0x10 || m == 0x20 || m == 0x40 || m == 0x80
  }

  lemma MaskIs(b: nat)
    requires b < 8
    ensures IsMask(Mask(b))
  {
  }

  lemma MaskOfBoth(x: bv8, y: bv8, m: bv8)
    requires IsMask(m)
    ensures HasMask(Xor(x, y), m) == (HasMask(x, m) != HasMask(y, m))
    ensures HasMask(And(x, y), m) == (HasMask(x, m) && HasMask(y, m))
  {
  }

  /** Bit by bit. */
  lemma BitOfBoth(x: bv8, y: bv8, b: nat)
    requires b < 8
    ensures BitAt(Xor(x, y), b) == (BitAt(x, b) != BitAt(y, b))
    ensures BitAt(And(x, y), b) == (BitAt(x, b) && BitAt(y, b))
  {
    hide *;
    BitIsMask(x, b);
    BitIsMask(y, b);
    BitIsMask(Xor(x, y), b);
    BitIsMask(And(x, y), b);
    MaskIs(b);
    MaskOfBoth(x, y, Mask(b));
  }

  lemma OneMore(x: bv8)
    requires x as int < 255
    ensures (x + 1) as int == x as int + 1
  {
  }

  /** A number as a byte. */
  function ToByte(n: nat): (x: bv8)
    requires n < 256
    ensures x as int == n
  {
    if n == 0 then 0
    else
      OneMore(ToByte(n - 1));
      ToByte(n - 1) + 1
  }

  lemma SameNumber(x: bv8, y: bv8)
    requires x as int == y as int
    ensures x == y
  {
  }
}
