/** Descrambling of one transport packet: the reference that the group
    decryption is proved to meet for every packet. */
module Csa {
  import opened Bits
  import opened StreamScalar
  import opened BlockScalar
  import opened TsPacket

  /** The scheduled forms of a control word. */
  datatype Key = Key(iA: Nibbles8, iB: Nibbles8, kk: RoundKeys)

  datatype Keys = Keys(even: Key, odd: Key)

  /** Scrambling control bits 10 (even key) or 11 (odd key). */
  predicate Scrambled(p: Packet) { p[3] & 0x80 == 0x80 }

  predicate Odd(p: Packet) { p[3] & 0x40 == 0x40 }

  function KeyFor(keys: Keys, p: Packet): Key { if Odd(p) then keys.odd else keys.even }

  function HeaderCleared(p: Packet): Packet { p[3 := p[3] & 0x3f] }

  /** The number of whole 8-byte blocks of the payload; 0 for a broken packet. */
  function BlockCount(p: Packet): (n: nat)
    ensures n <= 23 && (Offset(p) < 188 ==> Offset(p) + 8 * n <= 188 < Offset(p) + 8 * n + 8)
  {
    if Offset(p) >= 188 then 0 else (188 - Offset(p)) / 8
  }

  /** Block k of the payload as it was received. */
  function CipherBlock(p: Packet, k: nat): Block
    requires k < BlockCount(p)
  {
    p[Offset(p) + 8 * k..Offset(p) + 8 * k + 8]
  }

  function XorBlock(a: Block, b: Block): Block { seq(8, i requires 0 <= i < 8 => Xor(a[i], b[i])) }

  /** The registers of the stream cipher after it took in the first block. */
  function StartState(key: Key, p: Packet): State
    requires BlockCount(p) > 0
  {
    Init(key.iA, key.iB, CipherBlock(p, 0))
  }

  /** Key-stream block k, counted from 1. */
  function StreamBlock(key: Key, p: Packet, k: nat): Block
    requires BlockCount(p) > 0 && k > 0
  {
    Output(AfterCalls(StartState(key, p), k - 1))
  }

  /** What enters the block cipher: the received block, without the key stream
      that was added to all but the first one. */
  function Intermediate(key: Key, p: Packet, k: nat): Block
    requires k < BlockCount(p)
  {
    if k == 0 then CipherBlock(p, 0) else XorBlock(StreamBlock(key, p, k), CipherBlock(p, k))
  }

  /** The block cipher runs in reverse cipher block chaining. */
  function PlainBlock(key: Key, p: Packet, k: nat): Block
    requires k < BlockCount(p)
  {
    var deciphered := Decipher(SboxTable(), key.kk, Intermediate(key, p, k));
    if k + 1 < BlockCount(p) then XorBlock(Intermediate(key, p, k + 1), deciphered) else deciphered
  }

  /** Byte i of the packet when m of its blocks are done. */
  function ByteAfter(key: Key, p: Packet, m: nat, i: nat): bv8
    requires 0 < BlockCount(p) && i < 188
  {
    var n, x := BlockCount(p), i as int - Offset(p);
    if x < 0 then p[i]
    else if x < 8 * n then if x / 8 < m then PlainBlock(key, p, x / 8)[x % 8] else p[i]
    else if m < n then p[i]
    else Xor(p[i], StreamBlock(key, p, n)[x - 8 * n])
  }

  /** The packet when m of its blocks are done; the residue is done with the last. */
  function After(key: Key, p: Packet, m: nat): Packet
    requires 0 < BlockCount(p)
  {
    seq(188, i requires 0 <= i < 188 => ByteAfter(key, p, m, i))
  }

  /** The payload descrambled under the given key. */
  function Descrambled(key: Key, p: Packet): Packet {
    if BlockCount(p) == 0 then p else After(key, p, BlockCount(p))
  }

  /** Eight bytes of the payload; all but the first ones lose a block of the key stream
      that starts in the given registers. */
  function Bare(p: Packet, from: nat, start: State, k: nat): Block
    requires from + 8 * k + 8 <= 188
  {
    var c: Block := p[from + 8 * k..from + 8 * k + 8];
    if k == 0 then c else XorBlock(Output(AfterCalls(start, k - 1)), c)
  }

  /** A plain block in terms of the received bytes and the two ciphers: the block is
      deciphered, and added to the one after it, if there is a whole one. */
  lemma PlainBytes(key: Key, p: Packet, k: nat)
    requires Offset(p) + 8 * k + 8 <= 188
    ensures var o, s := Offset(p), Init(key.iA, key.iB, p[Offset(p)..Offset(p) + 8]);
            var x := Decipher(SboxTable(), key.kk, Bare(p, o, s, k));
            Descrambled(key, p)[o + 8 * k..o + 8 * k + 8] == if o + 8 * k + 16 <= 188 then XorBlock(Bare(p, o, s, k + 1), x) else x
  {
    hide Init, Output, AfterCalls, Decipher, SboxTable, XorBlock, PlainBlock, StreamBlock, Offset;
    var o := Offset(p);
    assert k < BlockCount(p);
    forall i | 0 <= i < 8 ensures Descrambled(key, p)[o + 8 * k + i] == PlainBlock(key, p, k)[i] {
      assert (8 * k + i) / 8 == k && (8 * k + i) % 8 == i;
    }
    hide Descrambled;
    PlainBare(key, p, k);
  }

  lemma PlainBare(key: Key, p: Packet, k: nat)
    requires k < BlockCount(p) && Offset(p) + 8 * k + 8 <= 188
    ensures var o, s := Offset(p), Init(key.iA, key.iB, p[Offset(p)..Offset(p) + 8]);
            var x := Decipher(SboxTable(), key.kk, Bare(p, o, s, k));
            PlainBlock(key, p, k) == if o + 8 * k + 16 <= 188 then XorBlock(Bare(p, o, s, k + 1), x) else x
  {
    hide Init, Output, AfterCalls, Decipher, SboxTable, XorBlock, Offset;
  }

  /** The bytes after the last whole block lose the key stream that follows. */
  lemma ResidueBytes(key: Key, p: Packet, k: nat, i: nat)
    requires k > 0 && i < 8 && Offset(p) + 8 * k + i < 188 < Offset(p) + 8 * k + 8
    ensures Descrambled(key, p)[Offset(p) + 8 * k + i]
         == p[Offset(p) + 8 * k + i] ^ Output(AfterCalls(Init(key.iA, key.iB, p[Offset(p)..Offset(p) + 8]), k - 1))[i]
  {
    hide Init, Output, AfterCalls, PlainBlock, Offset;
    assert BlockCount(p) == k;
  }

  /** A packet descrambled on its own, under the key of its own parity; packets
      that are not scrambled are left alone, and so are payloads too short for
      a block, but for the header. */
  function DecryptOne(keys: Keys, p: Packet): Packet {
    if Scrambled(p) then Descrambled(KeyFor(keys, p), HeaderCleared(p)) else p
  }

  /** Clearing the scrambling control bits changes nothing else. */
  lemma ClearedHeader(p: Packet)
    ensures forall b :: 0 <= b < 8 ==> BitAt(HeaderCleared(p)[3], b) == (b < 6 && BitAt(p[3], b))
    ensures var q := HeaderCleared(p);
            !Scrambled(q) && !Odd(q) && Offset(q) == Offset(p) && BlockCount(q) == BlockCount(p)
    ensures forall i :: 0 <= i < 188 && i != 3 ==> HeaderCleared(p)[i] == p[i]
  {
    forall b | 0 <= b < 8 ensures BitAt(p[3] & 0x3f, b) == (b < 6 && BitAt(p[3], b)) {
      SixBits(p[3], b);
    }
    hide BitAt;
    assert (p[3] & 0x3f) & 0x80 == 0 && (p[3] & 0x3f) & 0x40 == 0 && (p[3] & 0x3f) & 0x20 == p[3] & 0x20;
  }

  /** The header is not touched by the payload's decryption. */
  lemma DescrambledHeader(key: Key, p: Packet)
    ensures forall i :: 0 <= i < Offset(p) && i < 188 ==> Descrambled(key, p)[i] == p[i]
  {
    hide PlainBlock, StreamBlock;
  }

  /** A decrypted packet is clear, and decrypting again changes nothing. */
  lemma DecryptOnce(keys: Keys, p: Packet)
    ensures !Scrambled(DecryptOne(keys, p))
    ensures DecryptOne(keys, DecryptOne(keys, p)) == DecryptOne(keys, p)
  {
    if Scrambled(p) {
      ClearedHeader(p);
      DescrambledHeader(KeyFor(keys, p), HeaderCleared(p));
    }
  }

  lemma AfterNone(key: Key, p: Packet)
    requires 0 < BlockCount(p)
    ensures After(key, p, 0) == p
  {
  }

  /** The bytes that still are as they were received. */
  lemma StillCipher(key: Key, p: Packet, m: nat, k: nat)
    requires m <= k < BlockCount(p)
    ensures After(key, p, m)[Offset(p) + 8 * k..Offset(p) + 8 * k + 8] == CipherBlock(p, k)
  {
    hide PlainBlock, StreamBlock;
    forall i | 0 <= i < 8 ensures After(key, p, m)[Offset(p) + 8 * k + i] == CipherBlock(p, k)[i] {
      assert (8 * k + i) / 8 == k;
    }
  }

  /** Replacing one block by its plain form is one step of the decryption. */
  lemma AfterNext(key: Key, p: Packet, m: nat)
    requires m < BlockCount(p)
    ensures var n, o := BlockCount(p), Offset(p) + 8 * m;
            var q := After(key, p, m);
            var tail := if m + 1 < n then q[o + 8..]
                        else seq(188 - (o + 8), i requires 0 <= i < 188 - (o + 8) => Xor(q[o + 8 + i], StreamBlock(key, p, n)[i]));
            After(key, p, m + 1) == q[..o] + PlainBlock(key, p, m) + tail
  {
    hide PlainBlock, StreamBlock, Xor;
    var n, o := BlockCount(p), Offset(p) + 8 * m;
    var q := After(key, p, m);
    forall i | 0 <= i < 188
      ensures ByteAfter(key, p, m + 1, i) ==
              if i < o then q[i] else if i < o + 8 then PlainBlock(key, p, m)[i - o]
              else if m + 1 < n then q[i] else Xor(q[i], StreamBlock(key, p, n)[i - (o + 8)])
    {
      var x := i - Offset(p);
      if 0 <= x {
        assert x < 8 * m <==> x / 8 < m;
        assert x < 8 * m + 8 <==> x / 8 < m + 1;
        if o <= i < o + 8 {
          assert x / 8 == m && x % 8 == i - o;
        }
      }
    }
  }
}
