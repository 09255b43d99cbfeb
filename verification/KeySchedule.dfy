/** From a control word to the keys of the two ciphers. */
module KeySchedule {
  import opened Bits
  import opened StreamScalar
  import opened BlockScalar
  import opened KeyStream
  import opened Csa
  import opened GroupDecrypt
  import opened TsPacket
  import opened Cluster
  import opened Decrypt
  import opened Driver

  const ZEROS: Block := [0, 0, 0, 0, 0, 0, 0, 0]

  /** Where bit p of a key goes, counted from 1. */
  function KeyPerm(p: nat): (q: nat)
    requires p < 64
    ensures 1 <= q <= 64
  {
    match p
    case 0 => 0x12 case 1 => 0x24 case 2 => 0x09 case 3 => 0x07 case 4 => 0x2A case 5 => 0x31 case 6 => 0x1D case 7 => 0x15
    case 8 => 0x1C case 9 => 0x36 case 10 => 0x3E case 11 => 0x32 case 12 => 0x13 case 13 => 0x21 case 14 => 0x3B case 15 => 0x40
    case 16 => 0x18 case 17 => 0x14 case 18 => 0x25 case 19 => 0x27 case 20 => 0x02 case 21 => 0x35 case 22 => 0x1B case 23 => 0x01
    case 24 => 0x22 case 25 => 0x04 case 26 => 0x0D case 27 => 0x0E case 28 => 0x39 case 29 => 0x28 case 30 => 0x1A case 31 => 0x29
    case 32 => 0x33 case 33 => 0x23 case 34 => 0x34 case 35 => 0x0C case 36 => 0x16 case 37 => 0x30 case 38 => 0x1E case 39 => 0x3A
    case 40 => 0x2D case 41 => 0x1F case 42 => 0x08 case 43 => 0x19 case 44 => 0x17 case 45 => 0x2F case 46 => 0x3D case 47 => 0x11
    case 48 => 0x3C case 49 => 0x05 case 50 => 0x38 case 51 => 0x2B case 52 => 0x0B case 53 => 0x06 case 54 => 0x0A case 55 => 0x2C
    case 56 => 0x20 case 57 => 0x3F case 58 => 0x2E case 59 => 0x0F case 60 => 0x03 case 61 => 0x26 case 62 => 0x10 case _ => 0x37
  }

  function KeyPermBack(q: nat): (p: nat)
    requires q < 64
    ensures p < 64
  {
    match q
    case 0 => 23 case 1 => 20 case 2 => 60 case 3 => 25 case 4 => 49 case 5 => 53 case 6 => 3 case 7 => 42
    case 8 => 2 case 9 => 54 case 10 => 52 case 11 => 35 case 12 => 26 case 13 => 27 case 14 => 59 case 15 => 62
    case 16 => 47 case 17 => 0 case 18 => 12 case 19 => 17 case 20 => 7 case 21 => 36 case 22 => 44 case 23 => 16
    case 24 => 43 case 25 => 30 case 26 => 22 case 27 => 8 case 28 => 6 case 29 => 38 case 30 => 41 case 31 => 56
    case 32 => 13 case 33 => 24 case 34 => 33 case 35 => 1 case 36 => 18 case 37 => 61 case 38 => 19 case 39 => 29
    case 40 => 31 case 41 => 4 case 42 => 51 case 43 => 55 case 44 => 40 case 45 => 58 case 46 => 45 case 47 => 37
    case 48 => 5 case 49 => 11 case 50 => 32 case 51 => 34 case 52 => 21 case 53 => 9 case 54 => 63 case 55 => 50
    case 56 => 28 case 57 => 39 case 58 => 14 case 59 => 48 case 60 => 46 case 61 => 10 case 62 => 57 case _ => 15
  }

  /** Every place gets exactly one bit. */
  lemma PermBack(p: nat)
    requires p < 64
    ensures KeyPermBack(KeyPerm(p) - 1) == p
  {
    match p
    case 0 => case 1 => case 2 => case 3 => case 4 => case 5 => case 6 => case 7 =>
    case 8 => case 9 => case 10 => case 11 => case 12 => case 13 => case 14 => case 15 =>
    case 16 => case 17 => case 18 => case 19 => case 20 => case 21 => case 22 => case 23 =>
    case 24 => case 25 => case 26 => case 27 => case 28 => case 29 => case 30 => case 31 =>
    case 32 => case 33 => case 34 => case 35 => case 36 => case 37 => case 38 => case 39 =>
    case 40 => case 41 => case 42 => case 43 => case 44 => case 45 => case 46 => case 47 =>
    case 48 => case 49 => case 50 => case 51 => case 52 => case 53 => case 54 => case 55 =>
    case 56 => case 57 => case 58 => case 59 => case 60 => case 61 => case 62 => case _ =>
  }

  lemma BackPerm(q: nat)
    requires q < 64
    ensures KeyPerm(KeyPermBack(q)) == q + 1
  {
    match q
    case 0 => case 1 => case 2 => case 3 => case 4 => case 5 => case 6 => case 7 =>
    case 8 => case 9 => case 10 => case 11 => case 12 => case 13 => case 14 => case 15 =>
    case 16 => case 17 => case 18 => case 19 => case 20 => case 21 => case 22 => case 23 =>
    case 24 => case 25 => case 26 => case 27 => case 28 => case 29 => case 30 => case 31 =>
    case 32 => case 33 => case 34 => case 35 => case 36 => case 37 => case 38 => case 39 =>
    case 40 => case 41 => case 42 => case 43 => case 44 => case 45 => case 46 => case 47 =>
    case 48 => case 49 => case 50 => case 51 => case 52 => case 53 => case 54 => case 55 =>
    case 56 => case 57 => case 58 => case 59 => case 60 => case 61 => case 62 => case _ =>
  }

  /** Bit q of a key, counted from the most significant bit of its first byte. */
  predicate KeyBit(b: Block, q: nat)
    requires q < 64
  {
    BitAt(b[q / 8], 7 - q % 8)
  }

  /** The bits that make byte j of the rearranged key, the least significant one first. */
  function PermutedBits(b: Block, j: nat): (bits: seq<bool>)
    requires j < 8
    ensures |bits| == 8
  {
    seq(8, i requires 0 <= i < 8 => KeyBit(b, KeyPermBack(8 * j + 7 - i)))
  }

  lemma PermutedBitsAre(b: Block, j: nat)
    requires j < 8
    ensures forall i :: 0 <= i < 8 ==> PermutedBits(b, j)[i] == KeyBit(b, KeyPermBack(8 * j + 7 - i))
  {
    hide KeyPermBack, KeyBit;
  }

  function PermutedByte(b: Block, j: nat): bv8
    requires j < 8
  {
    FromBits(PermutedBits(b, j))
  }

  /** The key with its bits rearranged. */
  function PermuteKey(b: Block): Block { seq(8, j requires 0 <= j < 8 => PermutedByte(b, j)) }

  /** The bits of byte j before they were rearranged. */
  function RestoredBits(b: Block, j: nat): (bits: seq<bool>)
    requires j < 8
    ensures |bits| == 8
  {
    seq(8, i requires 0 <= i < 8 => KeyBit(b, KeyPerm(8 * j + 7 - i) - 1))
  }

  lemma RestoredBitsAre(b: Block, j: nat)
    requires j < 8
    ensures forall i :: 0 <= i < 8 ==> RestoredBits(b, j)[i] == KeyBit(b, KeyPerm(8 * j + 7 - i) - 1)
  {
    hide KeyPerm, KeyBit;
  }

  function RestoredByte(b: Block, j: nat): bv8
    requires j < 8
  {
    FromBits(RestoredBits(b, j))
  }

  function RestoreKey(b: Block): Block { seq(8, j requires 0 <= j < 8 => RestoredByte(b, j)) }

  /** A bit of a key whose byte is known by its bits. */
  lemma ByteBit(k: Block, j: nat, bits: seq<bool>, q: nat)
    requires q < 64 && j == q / 8 && |bits| == 8 && k[j] == FromBits(bits)
    ensures KeyBit(k, q) == bits[7 - q % 8]
  {
    hide BitAt, FromBits;
  }

  lemma PermutedBit(b: Block, q: nat)
    requires q < 64
    ensures KeyBit(PermuteKey(b), q) == KeyBit(b, KeyPermBack(q))
  {
    hide KeyPermBack, KeyBit, FromBits, PermutedBits;
    var j := q / 8;
    PermutedBitsAre(b, j);
    assert PermuteKey(b)[j] == PermutedByte(b, j);
    ByteBit(PermuteKey(b), j, PermutedBits(b, j), q);
    assert 8 * j + 7 - (7 - q % 8) == q;
  }

  lemma RestoredBit(b: Block, q: nat)
    requires q < 64
    ensures KeyBit(RestoreKey(b), q) == KeyBit(b, KeyPerm(q) - 1)
  {
    hide KeyPerm, KeyBit, FromBits, RestoredBits;
    var j := q / 8;
    RestoredBitsAre(b, j);
    assert RestoreKey(b)[j] == RestoredByte(b, j);
    ByteBit(RestoreKey(b), j, RestoredBits(b, j), q);
    assert 8 * j + 7 - (7 - q % 8) == q;
  }

  lemma SameKey(a: Block, b: Block)
    requires forall q :: 0 <= q < 64 ==> KeyBit(a, q) == KeyBit(b, q)
    ensures a == b
  {
    forall j | 0 <= j < 8 ensures a[j] == b[j] {
      forall i | 0 <= i < 8 ensures BitAt(a[j], i) == BitAt(b[j], i) {
        assert KeyBit(a, 8 * j + 7 - i) == KeyBit(b, 8 * j + 7 - i);
      }
      SameBits(a[j], b[j]);
    }
  }

  /** Rearranging the bits of a key loses nothing. */
  lemma PermuteBijective(b: Block)
    ensures RestoreKey(PermuteKey(b)) == b && PermuteKey(RestoreKey(b)) == b
  {
    hide KeyPerm, KeyPermBack, KeyBit, PermuteKey, RestoreKey;
    forall q | 0 <= q < 64
      ensures KeyBit(RestoreKey(PermuteKey(b)), q) == KeyBit(b, q)
      ensures KeyBit(PermuteKey(RestoreKey(b)), q) == KeyBit(b, q)
    {
      RestoredBit(PermuteKey(b), q);
      PermutedBit(b, KeyPerm(q) - 1);
      PermBack(q);
      PermutedBit(RestoreKey(b), q);
      RestoredBit(b, KeyPermBack(q));
      BackPerm(q);
    }
    SameKey(RestoreKey(PermuteKey(b)), b);
    SameKey(PermuteKey(RestoreKey(b)), b);
  }

  /** The byte permutation that some conditional access systems add: a table of
      256 entries, written here as what it does to the bits. */
  function CsaBlockPerm(x: bv8): bv8 {
    FromBits([BitAt(x, 5), BitAt(x, 0), BitAt(x, 3), BitAt(x, 6), BitAt(x, 7), BitAt(x, 2), BitAt(x, 4), BitAt(x, 1)])
  }

  function CsaBlockUnperm(x: bv8): bv8 {
    FromBits([BitAt(x, 1), BitAt(x, 7), BitAt(x, 5), BitAt(x, 2), BitAt(x, 6), BitAt(x, 0), BitAt(x, 3), BitAt(x, 4)])
  }

  lemma CsaBlockPermBijective(x: bv8)
    ensures CsaBlockUnperm(CsaBlockPerm(x)) == x && CsaBlockPerm(CsaBlockUnperm(x)) == x
  {
  }

  /** The control word as it enters the key schedule of the block cipher. */
  function FirstRow(ck: Block, ecm: int): Block {
    if ecm == 4 then ck[0 := CsaBlockPerm(ck[0])][4 := CsaBlockPerm(ck[4])] else ck
  }

  /** Row i of the seven rows of key bytes; the last one is the control word. */
  function KeyRow(ck: Block, ecm: int, i: nat): Block
    requires i <= 6
    decreases 6 - i
  {
    if i == 6 then FirstRow(ck, ecm) else PermuteKey(KeyRow(ck, ecm, i + 1))
  }

  function RowMask(i: nat): bv8
    requires i <= 6
  {
    i as bv8
  }

  function RoundKeysOf(ck: Block, ecm: int): RoundKeys {
    seq(56, n requires 0 <= n < 56 => Xor(KeyRow(ck, ecm, n / 8)[n % 8], RowMask(n / 8)))
  }

  /** The seven rows, masked with their numbers. */
  lemma MaskedRows(ck: Block, ecm: int, j: nat)
    requires j < 8
    ensures var kk := RoundKeysOf(ck, ecm);
            && kk[j] == KeyRow(ck, ecm, 0)[j] && kk[8 + j] == KeyRow(ck, ecm, 1)[j] ^ 1 && kk[16 + j] == KeyRow(ck, ecm, 2)[j] ^ 2
            && kk[24 + j] == KeyRow(ck, ecm, 3)[j] ^ 3 && kk[32 + j] == KeyRow(ck, ecm, 4)[j] ^ 4
            && kk[40 + j] == KeyRow(ck, ecm, 5)[j] ^ 5 && kk[48 + j] == KeyRow(ck, ecm, 6)[j] ^ 6
  {
    hide KeyRow;
    assert RowMask(0) == 0 && RowMask(1) == 1 && RowMask(2) == 2 && RowMask(3) == 3;
    assert RowMask(4) == 4 && RowMask(5) == 5 && RowMask(6) == 6;
  }

  /** The last row is the control word itself, but that ecm 4 has bytes 0 and 4 permuted. */
  lemma LastRow(ck: Block, ecm: int, j: nat)
    requires j < 8
    ensures RoundKeysOf(ck, ecm)[48 + j] == (if ecm == 4 && (j == 0 || j == 4) then CsaBlockPerm(ck[j]) else ck[j]) ^ 6
  {
    hide RoundKeysOf, CsaBlockPerm;
    MaskedRows(ck, ecm, j);
  }

  /** The key in which only bit p is 1, counted from the upper bit of the first byte. */
  function OneBit(p: nat): Block
    requires p < 64
  {
    ZEROS[p / 8 := [0x80, 0x40, 0x20, 0x10, 0x08, 0x04, 0x02, 0x01][p % 8]]
  }

  lemma OneBitIs(p: nat, q: nat)
    requires p < 64 && q < 64
    ensures KeyBit(OneBit(p), q) <==> p == q
  {
    OneByteBit(p % 8, q % 8);
    NoBit(q);
  }

  lemma OneByteBit(i: nat, k: nat)
    requires i < 8 && k < 8
    ensures BitAt([0x80, 0x40, 0x20, 0x10, 0x08, 0x04, 0x02, 0x01][i], 7 - k) <==> i == k
  {
    assert i == 0 || i == 1 || i == 2 || i == 3 || i == 4 || i == 5 || i == 6 || i == 7;
    assert k == 0 || k == 1 || k == 2 || k == 3 || k == 4 || k == 5 || k == 6 || k == 7;
  }

  /** Each bit of a row goes where the table says. */
  lemma BitGoes(p: nat)
    requires p < 64
    ensures PermuteKey(OneBit(p)) == OneBit(KeyPerm(p) - 1)
  {
    hide KeyPerm, KeyPermBack, KeyBit, PermuteKey, OneBit;
    forall q | 0 <= q < 64 ensures KeyBit(PermuteKey(OneBit(p)), q) == KeyBit(OneBit(KeyPerm(p) - 1), q) {
      PermutedBit(OneBit(p), q);
      OneBitIs(p, KeyPermBack(q));
      OneBitIs(KeyPerm(p) - 1, q);
      PermBack(p);
      BackPerm(q);
    }
    SameKey(PermuteKey(OneBit(p)), OneBit(KeyPerm(p) - 1));
  }

  /** The permutation of a byte is linear, so that its entries for single bits make it. */
  lemma CsaBlockPermLinear(x: bv8, y: bv8)
    ensures CsaBlockPerm(Xor(x, y)) == Xor(CsaBlockPerm(x), CsaBlockPerm(y))
  {
    hide CsaBlockPerm, CsaBlockSource, BitAt, Xor;
    var u, v := CsaBlockPerm(Xor(x, y)), Xor(CsaBlockPerm(x), CsaBlockPerm(y));
    forall b | 0 <= b < 8 ensures BitAt(u, b) == BitAt(v, b) {
      CsaBlockPermBitOfBoth(x, y, b);
    }
    SameBits(u, v);
  }

  lemma CsaBlockPermBitOfBoth(x: bv8, y: bv8, b: nat)
    requires b < 8
    ensures BitAt(CsaBlockPerm(Xor(x, y)), b) == BitAt(Xor(CsaBlockPerm(x), CsaBlockPerm(y)), b)
  {
    hide *;
    CsaBlockPermBit(Xor(x, y), b);
    CsaBlockPermBit(x, b);
    CsaBlockPermBit(y, b);
    BitOfBoth(CsaBlockPerm(x), CsaBlockPerm(y), b);
    BitOfBoth(x, y, CsaBlockSource(b));
  }

  function CsaBlockSource(b: nat): (i: nat)
    requires b < 8
    ensures i < 8
  {
    match b case 0 => 5 case 1 => 0 case 2 => 3 case 3 => 6 case 4 => 7 case 5 => 2 case 6 => 4 case _ => 1
  }

  lemma CsaBlockPermBit(x: bv8, b: nat)
    requires b < 8
    ensures BitAt(CsaBlockPerm(x), b) == BitAt(x, CsaBlockSource(b))
  {
    hide FromBits, BitAt;
  }

  lemma CsaBlockPermEntries()
    ensures CsaBlockPerm(0x01) == 0x02 && CsaBlockPerm(0x02) == 0x80 && CsaBlockPerm(0x04) == 0x20 && CsaBlockPerm(0x08) == 0x04
    ensures CsaBlockPerm(0x10) == 0x40 && CsaBlockPerm(0x20) == 0x01 && CsaBlockPerm(0x40) == 0x08 && CsaBlockPerm(0x80) == 0x10
  {
  }

  /** Of the control word 0 nothing but the masks is left. */
  lemma ZeroWord(n: nat)
    requires n < 56
    ensures RoundKeysOf(ZEROS, 0)[n] as int == n / 8
  {
    var i, j := n / 8, n % 8;
    assert n == 8 * i + j;
    hide *;
    ZeroKey(i, j);
    Counted(RoundKeysOf(ZEROS, 0)[n], i);
  }

  /** A number below 7 as a byte. */
  predicate IsNumber(x: bv8, i: nat) {
    match i case 0 => x == 0 case 1 => x == 1 case 2 => x == 2 case 3 => x == 3 case 4 => x == 4 case 5 => x == 5 case _ => x == 6
  }

  lemma Counted(x: bv8, i: nat)
    requires i <= 6 && IsNumber(x, i)
    ensures x as int == i
  {
  }

  lemma ZeroKey(i: nat, j: nat)
    requires i <= 6 && j < 8
    ensures IsNumber(RoundKeysOf(ZEROS, 0)[8 * i + j], i)
  {
    hide RoundKeysOf, KeyRow;
    ZeroRows(i);
    MaskedRows(ZEROS, 0, j);
    assert ZEROS[j] == 0;
  }

  lemma {:induction false} ZeroRows(i: nat)
    requires i <= 6
    ensures KeyRow(ZEROS, 0, i) == ZEROS
    decreases 6 - i
  {
    hide PermuteKey;
    if i < 6 {
      ZeroRows(i + 1);
      ZeroPermuted();
    }
  }

  lemma ZeroPermuted()
    ensures PermuteKey(ZEROS) == ZEROS
  {
    hide KeyPermBack, PermuteKey;
    forall q | 0 <= q < 64 ensures KeyBit(PermuteKey(ZEROS), q) == KeyBit(ZEROS, q) {
      PermutedBit(ZEROS, q);
      NoBit(q);
      NoBit(KeyPermBack(q));
    }
    SameKey(PermuteKey(ZEROS), ZEROS);
  }

  lemma NoBit(q: nat)
    requires q < 64
    ensures !KeyBit(ZEROS, q)
  {
    assert ZEROS[q / 8] == 0;
  }

  /** The round keys determine the control word. */
  lemma RoundKeysInjective(a: Block, b: Block, ecm: int)
    requires RoundKeysOf(a, ecm) == RoundKeysOf(b, ecm)
    ensures a == b
  {
    hide Xor, CsaBlockPerm, CsaBlockUnperm, RowMask;
    var x, y := FirstRow(a, ecm), FirstRow(b, ecm);
    forall j | 0 <= j < 8 ensures x[j] == y[j] {
      assert RoundKeysOf(a, ecm)[48 + j] == Xor(x[j], RowMask(6));
      assert RoundKeysOf(b, ecm)[48 + j] == Xor(y[j], RowMask(6));
      XorTwice(x[j], RowMask(6));
      XorTwice(y[j], RowMask(6));
    }
    CsaBlockPermBijective(a[0]);
    CsaBlockPermBijective(b[0]);
    CsaBlockPermBijective(a[4]);
    CsaBlockPermBijective(b[4]);
    forall j | 0 <= j < 8 ensures a[j] == b[j] {
      assert x[j] == y[j];
    }
  }

  /** Moves the bits of a row one by one. */
  method MoveBits(kb: Block) returns (newbit: array<bool>)
    ensures fresh(newbit) && newbit.Length == 64
    ensures forall q :: 0 <= q < 64 ==> newbit[q] == KeyBit(kb, KeyPermBack(q))
  {
    hide KeyPerm, KeyPermBack, KeyBit;
    newbit := new bool[64];
    for p := 0 to 64
      invariant forall q :: 0 <= q < 64 && KeyPermBack(q) < p ==> newbit[q] == KeyBit(kb, KeyPermBack(q))
    {
      PermBack(p);
      forall q | 0 <= q < 64 && KeyPermBack(q) == p ensures q == KeyPerm(p) - 1 {
        BackPerm(q);
      }
      newbit[KeyPerm(p) - 1] := KeyBit(kb, p);
    }
  }

  /** The bits of one byte of a row, the least significant one first. */
  method ByteBits(newbit: array<bool>, j: nat) returns (bits: seq<bool>)
    requires newbit.Length == 64 && j < 8
    ensures |bits| == 8 && forall i :: 0 <= i < 8 ==> bits[i] == newbit[8 * j + 7 - i]
  {
    bits := [];
    for k := 0 to 8
      invariant |bits| == k && forall i :: 0 <= i < k ==> bits[i] == newbit[8 * j + 7 - i]
    {
      bits := bits + [newbit[8 * j + 7 - k]];
    }
  }

  method PermuteRow(kb: Block) returns (r: Block)
    ensures r == PermuteKey(kb)
  {
    hide KeyPermBack, KeyBit, FromBits, PermutedBits;
    var newbit := MoveBits(kb);
    var bytes: seq<bv8> := [];
    for j := 0 to 8
      modifies {}
      invariant |bytes| == j && forall k :: 0 <= k < j ==> bytes[k] == PermutedByte(kb, k)
    {
      var bits := ByteBits(newbit, j);
      PermutedBitsAre(kb, j);
      forall i | 0 <= i < 8 ensures bits[i] == PermutedBits(kb, j)[i] {
        assert newbit[8 * j + 7 - i] == KeyBit(kb, KeyPermBack(8 * j + 7 - i));
      }
      assert bits == PermutedBits(kb, j);
      bytes := bytes + [FromBits(bits)];
    }
    r := bytes;
  }

  /** The key schedule of the block cipher. */
  method KeyScheduleBlock(ck: Block, ecm: int) returns (kk: RoundKeys)
    ensures kk == RoundKeysOf(ck, ecm)
  {
    hide PermuteKey, Xor, FirstRow, CsaBlockPerm, RowMask;
    var row := FirstRow(ck, ecm);
    var last := MaskRow(row, 6);
    var keys: seq<bv8> := last;
    for i := 6 downto 0
      invariant row == KeyRow(ck, ecm, i) && |keys| == 8 * (7 - i)
      invariant forall n :: 8 * i <= n < 56 ==> keys[n - 8 * i] == Xor(KeyRow(ck, ecm, n / 8)[n % 8], RowMask(n / 8))
    {
      row := PermuteRow(row);
      var masked := MaskRow(row, i);
      keys := masked + keys;
      forall n | 8 * i <= n < 8 * i + 8 ensures n / 8 == i && n % 8 == n - 8 * i {
      }
    }
    kk := keys;
  }

  method MaskRow(row: Block, i: nat) returns (r: Block)
    requires i <= 6
    ensures forall j :: 0 <= j < 8 ==> r[j] == Xor(row[j], RowMask(i))
  {
    r := row;
    for j := 0 to 8
      invariant forall k :: 0 <= k < 8 ==> r[k] == if k < j then Xor(row[k], RowMask(i)) else row[k]
    {
      r := r[j := Xor(row[j], RowMask(i))];
    }
  }

  /** Eight nibbles of the control word, the upper one of each byte first. */
  function NibblesFrom(ck: Block, from: nat): Nibbles8
    requires from <= 4
  {
    [High(ck[from]), Low(ck[from]), High(ck[from + 1]), Low(ck[from + 1]),
     High(ck[from + 2]), Low(ck[from + 2]), High(ck[from + 3]), Low(ck[from + 3])]
  }

  /** Two nibbles make a byte again, the first one being the upper one. */
  lemma NibblesAre(ck: Block, k: nat)
    requires k < 4
    ensures NibblesFrom(ck, 0)[2 * k] as int * 16 + NibblesFrom(ck, 0)[2 * k + 1] as int == ck[k] as int
    ensures NibblesFrom(ck, 4)[2 * k] as int * 16 + NibblesFrom(ck, 4)[2 * k + 1] as int == ck[4 + k] as int
  {
    NibbleAt(ck, 0, k);
    NibbleAt(ck, 4, k);
    hide *;
    ByteOfNibbles(ck[k]);
    ByteOfNibbles(ck[4 + k]);
  }

  lemma NibbleAt(ck: Block, from: nat, k: nat)
    requires k < 4 && from <= 4
    ensures NibblesFrom(ck, from)[2 * k] == High(ck[from + k]) && NibblesFrom(ck, from)[2 * k + 1] == Low(ck[from + k])
  {
    hide High, Low;
    assert k == 0 || k == 1 || k == 2 || k == 3;
  }

  lemma ByteOfNibbles(x: bv8)
    ensures High(x) as int * 16 + Low(x) as int == x as int
  {
    assert High(x) as int == x as int / 16;
    assert Low(x) as int == x as int % 16;
  }

  function KeyFromWord(ck: Block, ecm: int): Key { Key(NibblesFrom(ck, 0), NibblesFrom(ck, 4), RoundKeysOf(ck, ecm)) }

  /** Prepares a control word for n lanes. */
  method ScheduleKey(ck: Block, ecm: int, n: nat) returns (gk: GroupKey)
    ensures KeyOf(gk, KeyFromWord(ck, ecm), n)
  {
    hide Spread, RoundKeysOf, NibblesFrom;
    var groupA := SpreadKey(NibblesFrom(ck, 0), n);
    var groupB := SpreadKey(NibblesFrom(ck, 4), n);
    var kk := KeyScheduleBlock(ck, ecm);
    gk := GroupKey(groupA, groupB, kk);
  }

  /** From two control words and a list of ranges to the decrypted packets. */
  method DecryptWithWords(l: Transpose.Layout, even: Block, odd: Block, mem: array<Packet>, cluster: array<int>)
    requires l.Valid() && Terminated(cluster[..], 0, mem.Length)
    modifies mem, cluster
    ensures AllDecrypted(mem[..], old(mem[..]), old(Listed(cluster[..], 0)), Keys(KeyFromWord(even, 0), KeyFromWord(odd, 0)))
  {
    hide KeyOf, KeyFromWord;
    ghost var keys := Keys(KeyFromWord(even, 0), KeyFromWord(odd, 0));
    var evenKey := ScheduleKey(even, 0, l.Lanes());
    var oddKey := ScheduleKey(odd, 0, l.Lanes());
    DecryptUntilEmpty(l, GroupKeys(evenKey, oddKey), mem, cluster, keys);
  }
}
