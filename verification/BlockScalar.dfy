/** The block cipher for one packet: 56 rounds on eight byte registers. */
module BlockScalar {
  import opened Bits

  type Table = t: seq<bv8> | |t| == 256 witness seq(256, _ => 0)

  type RoundKeys = k: seq<bv8> | |k| == 56 witness seq(56, _ => 0)

  /** The S-box, sixteen entries a row. */
  function SboxRow(h: nat): (row: seq<bv8>)
    ensures |row| == 16
  {
    match h
    case 0 => [0x3A, 0xEA, 0x68, 0xFE, 0x33, 0xE9, 0x88, 0x1A, 0x83, 0xCF, 0xE1, 0x7F, 0xBA, 0xE2, 0x38, 0x12]
    case 1 => [0xE8, 0x27, 0x61, 0x95, 0x0C, 0x36, 0xE5, 0x70, 0xA2, 0x06, 0x82, 0x7C, 0x17, 0xA3, 0x26, 0x49]
    case 2 => [0xBE, 0x7A, 0x6D, 0x47, 0xC1, 0x51, 0x8F, 0xF3, 0xCC, 0x5B, 0x67, 0xBD, 0xCD, 0x18, 0x08, 0xC9]
    case 3 => [0xFF, 0x69, 0xEF, 0x03, 0x4E, 0x48, 0x4A, 0x84, 0x3F, 0xB4, 0x10, 0x04, 0xDC, 0xF5, 0x5C, 0xC6]
    case 4 => [0x16, 0xAB, 0xAC, 0x4C, 0xF1, 0x6A, 0x2F, 0x3C, 0x3B, 0xD4, 0xD5, 0x94, 0xD0, 0xC4, 0x63, 0x62]
    case 5 => [0x71, 0xA1, 0xF9, 0x4F, 0x2E, 0xAA, 0xC5, 0x56, 0xE3, 0x39, 0x93, 0xCE, 0x65, 0x64, 0xE4, 0x58]
    case 6 => [0x6C, 0x19, 0x42, 0x79, 0xDD, 0xEE, 0x96, 0xF6, 0x8A, 0xEC, 0x1E, 0x85, 0x53, 0x45, 0xDE, 0xBB]
    case 7 => [0x7E, 0x0A, 0x9A, 0x13, 0x2A, 0x9D, 0xC2, 0x5E, 0x5A, 0x1F, 0x32, 0x35, 0x9C, 0xA8, 0x73, 0x30]
    case 8 => [0x29, 0x3D, 0xE7, 0x92, 0x87, 0x1B, 0x2B, 0x4B, 0xA5, 0x57, 0x97, 0x40, 0x15, 0xE6, 0xBC, 0x0E]
    case 9 => [0xEB, 0xC3, 0x34, 0x2D, 0xB8, 0x44, 0x25, 0xA4, 0x1C, 0xC7, 0x23, 0xED, 0x90, 0x6E, 0x50, 0x00]
    case 10 => [0x99, 0x9E, 0x4D, 0xD9, 0xDA, 0x8D, 0x6F, 0x5F, 0x3E, 0xD7, 0x21, 0x74, 0x86, 0xDF, 0x6B, 0x05]
    case 11 => [0x8E, 0x5D, 0x37, 0x11, 0xD2, 0x28, 0x75, 0xD6, 0xA7, 0x77, 0x24, 0xBF, 0xF0, 0xB0, 0x02, 0xB7]
    case 12 => [0xF8, 0xFC, 0x81, 0x09, 0xB1, 0x01, 0x76, 0x91, 0x7D, 0x0F, 0xC8, 0xA0, 0xF2, 0xCB, 0x78, 0x60]
    case 13 => [0xD1, 0xF7, 0xE0, 0xB5, 0x98, 0x22, 0xB3, 0x20, 0x1D, 0xA6, 0xDB, 0x7B, 0x59, 0x9F, 0xAE, 0x31]
    case 14 => [0xFB, 0xD3, 0xB6, 0xCA, 0x43, 0x72, 0x07, 0xF4, 0xD8, 0x41, 0x14, 0x55, 0x0D, 0x54, 0x8B, 0xB9]
    case _ => [0xAD, 0x46, 0x0B, 0xAF, 0x80, 0x52, 0x2C, 0xFA, 0x8C, 0x89, 0x66, 0xFD, 0xB2, 0xA9, 0x9B, 0xC0]
  }

  function SboxTable(): Table { seq(256, i requires 0 <= i < 256 => SboxRow(i / 16)[i % 16]) }

  /** The bit permutation: bits 0, 3 and 5 move up by one, 1 goes to 7, 2 to 5,
      4 to 2, 6 to 0 and 7 to 3. */
  function Permute(x: bv8): bv8 {
    FromBits([BitAt(x, 6), BitAt(x, 0), BitAt(x, 4), BitAt(x, 7), BitAt(x, 3), BitAt(x, 2), BitAt(x, 5), BitAt(x, 1)])
  }

  function Substitute(t: Table, x: bv8): bv8 { t[x as int] }

  function Round(t: Table, k: bv8, r: Block): Block {
    var s := Substitute(t, Xor(k, r[6]));
    var new0 := Xor(r[7], s);
    [new0, r[0], Xor(r[1], new0), Xor(r[2], new0), Xor(r[3], new0), r[4], Xor(r[5], Permute(s)), r[6]]
  }

  /** The round solved for the registers before it. */
  function Unround(t: Table, k: bv8, r: Block): Block {
    var s := Substitute(t, Xor(k, r[7]));
    [r[1], Xor(r[2], r[0]), Xor(r[3], r[0]), Xor(r[4], r[0]), r[5], Xor(r[6], Permute(s)), r[7], Xor(r[0], s)]
  }

  /** The rounds with round keys i-1, i-2, ..., 0. */
  function Rounds(t: Table, kk: RoundKeys, r: Block, i: nat): Block
    requires i <= 56
    decreases i
  {
    if i == 0 then r else Rounds(t, kk, Round(t, kk[i - 1], r), i - 1)
  }

  /** The inverse rounds with round keys 0, 1, ..., i-1. */
  function Unrounds(t: Table, kk: RoundKeys, r: Block, i: nat): Block
    requires i <= 56
  {
    if i == 0 then r else Unround(t, kk[i - 1], Unrounds(t, kk, r, i - 1))
  }

  function Decipher(t: Table, kk: RoundKeys, block: Block): Block { Rounds(t, kk, block, 56) }

  function Encipher(t: Table, kk: RoundKeys, block: Block): Block { Unrounds(t, kk, block, 56) }

  lemma RoundUndone(t: Table, k: bv8, r: Block)
    ensures Unround(t, k, Round(t, k, r)) == r
  {
    hide Permute, Substitute, Xor;
    var s := Substitute(t, Xor(k, r[6]));
    var new0 := Xor(r[7], s);
    assert Round(t, k, r)[7] == r[6];
    XorTwice(r[1], new0);
    XorTwice(r[2], new0);
    XorTwice(r[3], new0);
    XorTwice(r[5], Permute(s));
    XorTwice(r[7], s);
  }

  lemma UnroundUndone(t: Table, k: bv8, r: Block)
    ensures Round(t, k, Unround(t, k, r)) == r
  {
    hide Permute, Substitute, Xor;
    var s := Substitute(t, Xor(k, r[7]));
    assert Unround(t, k, r)[6] == r[7];
    XorTwice(r[0], s);
    XorTwice(r[2], r[0]);
    XorTwice(r[3], r[0]);
    XorTwice(r[4], r[0]);
    XorTwice(r[6], Permute(s));
  }

  lemma {:induction false} RoundsUndone(t: Table, kk: RoundKeys, r: Block, i: nat)
    requires i <= 56
    ensures Unrounds(t, kk, Rounds(t, kk, r, i), i) == r
    decreases i
  {
    hide Round, Unround;
    if i > 0 {
      RoundsUndone(t, kk, Round(t, kk[i - 1], r), i - 1);
      RoundUndone(t, kk[i - 1], r);
    }
  }

  lemma {:induction false} UnroundsUndone(t: Table, kk: RoundKeys, r: Block, i: nat)
    requires i <= 56
    ensures Rounds(t, kk, Unrounds(t, kk, r, i), i) == r
    decreases i
  {
    hide Round, Unround;
    if i > 0 {
      UnroundUndone(t, kk[i - 1], Unrounds(t, kk, r, i - 1));
      UnroundsUndone(t, kk, r, i - 1);
    }
  }

  /** For every S-box table and every key schedule the block decipher is a
      bijection of the 8-byte blocks, and the reversed rounds undo it. */
  lemma DecipherBijective(t: Table, kk: RoundKeys, block: Block)
    ensures Encipher(t, kk, Decipher(t, kk, block)) == block
    ensures Decipher(t, kk, Encipher(t, kk, block)) == block
  {
    hide Rounds, Unrounds;
    RoundsUndone(t, kk, block, 56);
    UnroundsUndone(t, kk, block, 56);
  }
}
