/** Scrambling, the inverse of descrambling a payload: nothing is lost, and every
    payload is the descrambled form of exactly one other. */
module Scramble {
  import opened Bits
  import opened StreamScalar
  import opened BlockScalar
  import opened TsPacket
  import opened Csa

  /** Key-stream block k after the stream cipher was started with the given block. */
  function StreamFrom(key: Key, first: Block, k: nat): Block
    requires k > 0
  {
    Output(AfterCalls(Init(key.iA, key.iB, first), k - 1))
  }

  /** The block cipher runs from the last block to the first. */
  function Chain(key: Key, p: Packet, k: nat): Block
    requires k < BlockCount(p)
    decreases BlockCount(p) - k
  {
    Encipher(SboxTable(), key.kk,
             if k + 1 < BlockCount(p) then XorBlock(Chain(key, p, k + 1), CipherBlock(p, k)) else CipherBlock(p, k))
  }

  function ScrambledBlock(key: Key, p: Packet, k: nat): Block
    requires k < BlockCount(p)
  {
    if k == 0 then Chain(key, p, 0) else XorBlock(StreamFrom(key, Chain(key, p, 0), k), Chain(key, p, k))
  }

  function ScrambledByte(key: Key, p: Packet, i: nat): bv8
    requires 0 < BlockCount(p) && i < 188
  {
    var n, x := BlockCount(p), i as int - Offset(p);
    if x < 0 then p[i]
    else if x < 8 * n then ScrambledBlock(key, p, x / 8)[x % 8]
    else Xor(p[i], StreamFrom(key, Chain(key, p, 0), n)[x - 8 * n])
  }

  function ScrambledForm(key: Key, p: Packet): Packet {
    if BlockCount(p) == 0 then p else seq(188, i requires 0 <= i < 188 => ScrambledByte(key, p, i))
  }

  lemma XorBlockTwice(a: Block, b: Block)
    ensures XorBlock(a, XorBlock(a, b)) == b
  {
    forall i | 0 <= i < 8 ensures XorBlock(a, XorBlock(a, b))[i] == b[i] {
      XorTwice(a[i], b[i]);
    }
  }

  /** The header, and with it the shape of the payload, is kept. */
  lemma SameShape(p: Packet, q: Packet)
    requires forall i :: 0 <= i < Offset(p) && i < 188 ==> q[i] == p[i]
    ensures Offset(q) == Offset(p) && BlockCount(q) == BlockCount(p)
  {
  }

  /** A block of a packet whose bytes are known. */
  lemma BlockOfBytes(q: Packet, k: nat, b: Block)
    requires k < BlockCount(q) && forall i :: 0 <= i < 8 ==> q[Offset(q) + 8 * k + i] == b[i]
    ensures CipherBlock(q, k) == b
  {
  }

  lemma ScrambledBlocks(key: Key, p: Packet, k: nat)
    requires k < BlockCount(p)
    ensures var q := ScrambledForm(key, p);
            Offset(q) == Offset(p) && BlockCount(q) == BlockCount(p) && CipherBlock(q, k) == ScrambledBlock(key, p, k)
  {
    hide ScrambledBlock, StreamFrom, Xor, CipherBlock;
    var q := ScrambledForm(key, p);
    SameShape(p, q);
    forall i | 0 <= i < 8 ensures q[Offset(q) + 8 * k + i] == ScrambledBlock(key, p, k)[i] {
      assert (8 * k + i) / 8 == k && (8 * k + i) % 8 == i;
    }
    BlockOfBytes(q, k, ScrambledBlock(key, p, k));
  }

  /** Descrambling finds the inputs of the block cipher again. */
  lemma FindsChain(key: Key, p: Packet, k: nat)
    requires k < BlockCount(p)
    ensures var q := ScrambledForm(key, p);
            BlockCount(q) == BlockCount(p) && Intermediate(key, q, k) == Chain(key, p, k)
    ensures forall m :: m > 0 ==> StreamBlock(key, ScrambledForm(key, p), m) == StreamFrom(key, Chain(key, p, 0), m)
  {
    hide ScrambledForm, Chain, XorBlock, CipherBlock, Init;
    ScrambledBlocks(key, p, 0);
    ScrambledBlocks(key, p, k);
    if k > 0 {
      XorBlockTwice(StreamFrom(key, Chain(key, p, 0), k), Chain(key, p, k));
    }
  }

  lemma FindsPlain(key: Key, p: Packet, k: nat)
    requires k < BlockCount(p)
    ensures var q := ScrambledForm(key, p); BlockCount(q) == BlockCount(p) && PlainBlock(key, q, k) == CipherBlock(p, k)
  {
    FindsChain(key, p, k);
    hide ScrambledForm, XorBlock, CipherBlock, Intermediate, Encipher, Decipher;
    var n := BlockCount(p);
    if k + 1 < n {
      FindsChain(key, p, k + 1);
      DecipherBijective(SboxTable(), key.kk, XorBlock(Chain(key, p, k + 1), CipherBlock(p, k)));
      XorBlockTwice(Chain(key, p, k + 1), CipherBlock(p, k));
    } else {
      DecipherBijective(SboxTable(), key.kk, CipherBlock(p, k));
    }
  }

  /** What was scrambled is descrambled again. */
  lemma DescramblesScrambled(key: Key, p: Packet)
    ensures Descrambled(key, ScrambledForm(key, p)) == p
  {
    var n := BlockCount(p);
    if n > 0 {
      var q := ScrambledForm(key, p);
      FindsChain(key, p, 0);
      ScrambledBlocks(key, p, 0);
      forall i | 0 <= i < 188 ensures ByteAfter(key, q, n, i) == p[i] {
        PlainByte(key, p, i);
      }
    }
  }

  lemma ScrambledAt(key: Key, p: Packet, i: nat)
    requires 0 < BlockCount(p) && i < 188
    ensures ScrambledForm(key, p)[i] == ScrambledByte(key, p, i)
  {
    hide ScrambledByte, BlockCount;
  }

  lemma PlainByte(key: Key, p: Packet, i: nat)
    requires 0 < BlockCount(p) == BlockCount(ScrambledForm(key, p)) && i < 188 && Offset(ScrambledForm(key, p)) == Offset(p)
    ensures ByteAfter(key, ScrambledForm(key, p), BlockCount(p), i) == p[i]
  {
    hide PlainBlock, StreamBlock, StreamFrom, Xor, ScrambledBlock, ScrambledForm, CipherBlock, BlockCount, Offset, Chain;
    var n, x := BlockCount(p), i as int - Offset(p);
    if 0 <= x < 8 * n {
      FindsPlain(key, p, x / 8);
      ByteOfBlock(p, x);
    } else {
      ScrambledAt(key, p, i);
    }
    if x >= 8 * n {
      FindsChain(key, p, 0);
      XorTwice(p[i], StreamFrom(key, Chain(key, p, 0), n)[x - 8 * n]);
    }
  }

  lemma DescrambledBlocks(key: Key, p: Packet, k: nat)
    requires k < BlockCount(p)
    ensures var d := Descrambled(key, p);
            Offset(d) == Offset(p) && BlockCount(d) == BlockCount(p) && CipherBlock(d, k) == PlainBlock(key, p, k)
  {
    hide PlainBlock, StreamBlock, Xor, CipherBlock;
    var d := Descrambled(key, p);
    DescrambledHeader(key, p);
    SameShape(p, d);
    forall i | 0 <= i < 8 ensures d[Offset(d) + 8 * k + i] == PlainBlock(key, p, k)[i] {
      assert (8 * k + i) / 8 == k && (8 * k + i) % 8 == i;
    }
    BlockOfBytes(d, k, PlainBlock(key, p, k));
  }

  lemma InputUndone(key: Key, input: Block, next: Block)
    ensures Encipher(SboxTable(), key.kk, Decipher(SboxTable(), key.kk, input)) == input
    ensures Encipher(SboxTable(), key.kk, XorBlock(next, XorBlock(next, Decipher(SboxTable(), key.kk, input)))) == input
  {
    hide Encipher, Decipher, XorBlock;
    DecipherBijective(SboxTable(), key.kk, input);
    XorBlockTwice(next, Decipher(SboxTable(), key.kk, input));
  }

  /** Scrambling finds the inputs of the block cipher again. */
  lemma {:induction false} FindsInputs(key: Key, p: Packet, k: nat)
    requires k < BlockCount(p)
    ensures var d := Descrambled(key, p);
            BlockCount(d) == BlockCount(p) && Chain(key, d, k) == Intermediate(key, p, k)
    decreases BlockCount(p) - k
  {
    hide Descrambled, XorBlock, CipherBlock, Intermediate, Encipher, Decipher, SboxTable;
    DescrambledBlocks(key, p, k);
    if k + 1 < BlockCount(p) {
      FindsInputs(key, p, k + 1);
      InputUndone(key, Intermediate(key, p, k), Intermediate(key, p, k + 1));
    } else {
      InputUndone(key, Intermediate(key, p, k), Intermediate(key, p, k));
    }
  }

  lemma FindsCipher(key: Key, p: Packet, k: nat)
    requires k < BlockCount(p)
    ensures var d := Descrambled(key, p); BlockCount(d) == BlockCount(p) && ScrambledBlock(key, d, k) == CipherBlock(p, k)
    ensures forall m :: m > 0 ==> StreamFrom(key, Chain(key, Descrambled(key, p), 0), m) == StreamBlock(key, p, m)
  {
    FindsInputs(key, p, 0);
    FindsInputs(key, p, k);
    hide Descrambled, Chain, XorBlock, CipherBlock, Init;
    if k > 0 {
      XorBlockTwice(StreamBlock(key, p, k), CipherBlock(p, k));
    }
  }

  lemma DescrambledTail(key: Key, p: Packet, i: nat)
    requires 0 < BlockCount(p) && Offset(p) + 8 * BlockCount(p) <= i < 188
    ensures Descrambled(key, p)[i] == Xor(p[i], StreamBlock(key, p, BlockCount(p))[i - Offset(p) - 8 * BlockCount(p)])
  {
    hide PlainBlock, StreamBlock, Xor, BlockCount;
  }

  lemma ByteOfBlock(p: Packet, x: nat)
    requires x < 8 * BlockCount(p)
    ensures CipherBlock(p, x / 8)[x % 8] == p[Offset(p) + x]
  {
    hide Offset;
    var k, m := x / 8, x % 8;
    assert x == 8 * k + m && k < BlockCount(p);
    assert Offset(p) + 8 * k + 8 <= 188 && CipherBlock(p, k)[m] == p[Offset(p) + 8 * k + m];
  }

  lemma CipherByte(key: Key, p: Packet, i: nat)
    requires 0 < BlockCount(p) == BlockCount(Descrambled(key, p)) && i < 188 && Offset(Descrambled(key, p)) == Offset(p)
    ensures ScrambledByte(key, Descrambled(key, p), i) == p[i]
  {
    hide Descrambled, PlainBlock, StreamBlock, StreamFrom, Xor, ScrambledBlock, CipherBlock, BlockCount, Offset, Chain;
    var n, x := BlockCount(p), i as int - Offset(p);
    if x < 0 {
      DescrambledHeader(key, p);
    } else if x < 8 * n {
      FindsCipher(key, p, x / 8);
      ByteOfBlock(p, x);
    } else {
      FindsCipher(key, p, 0);
      DescrambledTail(key, p, i);
      XorTwice(p[i], StreamBlock(key, p, n)[x - 8 * n]);
    }
  }

  /** And what was descrambled is scrambled again: descrambling is a bijection. */
  lemma ScramblesDescrambled(key: Key, p: Packet)
    ensures ScrambledForm(key, Descrambled(key, p)) == p
  {
    var n := BlockCount(p);
    if n > 0 {
      DescrambledBlocks(key, p, 0);
      forall i | 0 <= i < 188 ensures ScrambledByte(key, Descrambled(key, p), i) == p[i] {
        CipherByte(key, p, i);
      }
    }
  }
}
