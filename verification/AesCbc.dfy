/** AES decryption of a payload in place, with the block cipher left abstract. */
module AesCbc {
  import opened Bits

  const BLOCK := 16

  type AesBlock = b: seq<bv8> | |b| == BLOCK witness seq(BLOCK, _ => 0)

  type Cipher = AesBlock -> AesBlock

  function XorBlocks(a: AesBlock, b: AesBlock): AesBlock { seq(BLOCK, i requires 0 <= i < BLOCK => Xor(a[i], b[i])) }

  lemma XorBlocksTwice(a: AesBlock, b: AesBlock)
    ensures XorBlocks(XorBlocks(a, b), b) == a
  {
    forall i | 0 <= i < BLOCK ensures XorBlocks(XorBlocks(a, b), b)[i] == a[i] {
      XorTwice(a[i], b[i]);
    }
  }

  /** Cipher block chaining, NIST SP 800-38A section 6.2. */
  function CbcEncrypt(e: Cipher, iv: AesBlock, plain: seq<AesBlock>): (cipher: seq<AesBlock>)
    ensures |cipher| == |plain|
    decreases |plain|
  {
    if plain == [] then []
    else
      var c := e(XorBlocks(plain[0], iv));
      [c] + CbcEncrypt(e, c, plain[1..])
  }

  function CbcDecrypt(d: Cipher, iv: AesBlock, cipher: seq<AesBlock>): (plain: seq<AesBlock>)
    ensures |plain| == |cipher|
    decreases |cipher|
  {
    if cipher == [] then [] else [XorBlocks(d(cipher[0]), iv)] + CbcDecrypt(d, cipher[0], cipher[1..])
  }

  ghost predicate Inverse(d: Cipher, e: Cipher) { forall b: AesBlock :: d(e(b)) == b }

  /** Decryption undoes encryption, for every initialization vector and any number of blocks. */
  lemma {:induction false} DecryptUndoes(e: Cipher, d: Cipher, iv: AesBlock, plain: seq<AesBlock>)
    requires Inverse(d, e)
    ensures CbcDecrypt(d, iv, CbcEncrypt(e, iv, plain)) == plain
    decreases |plain|
  {
    hide XorBlocks;
    if plain != [] {
      XorBlocksTwice(plain[0], iv);
      var c := e(XorBlocks(plain[0], iv));
      DecryptUndoes(e, d, c, plain[1..]);
      assert CbcEncrypt(e, iv, plain)[1..] == CbcEncrypt(e, c, plain[1..]);
    }
  }

  /** And encryption undoes decryption. */
  lemma {:induction false} EncryptUndoes(e: Cipher, d: Cipher, iv: AesBlock, cipher: seq<AesBlock>)
    requires Inverse(e, d)
    ensures CbcEncrypt(e, iv, CbcDecrypt(d, iv, cipher)) == cipher
    decreases |cipher|
  {
    hide XorBlocks;
    if cipher != [] {
      XorBlocksTwice(d(cipher[0]), iv);
      EncryptUndoes(e, d, cipher[0], cipher[1..]);
      assert CbcDecrypt(d, iv, cipher)[1..] == CbcDecrypt(d, cipher[0], cipher[1..]);
    }
  }

  /** Block k of the bytes from at on. */
  function BlockAt(data: seq<bv8>, at: nat, k: nat): AesBlock
    requires at + BLOCK * k + BLOCK <= |data|
  {
    data[at + BLOCK * k..at + BLOCK * k + BLOCK]
  }

  function Blocks(data: seq<bv8>, at: nat, n: nat): (blocks: seq<AesBlock>)
    requires at + BLOCK * n <= |data|
    ensures |blocks| == n && forall k :: 0 <= k < n ==> blocks[k] == BlockAt(data, at, k)
  {
    if n == 0 then [] else Blocks(data, at, n - 1) + [BlockAt(data, at, n - 1)]
  }

  /** A plain block depends on its own cipher block and on the one before. */
  lemma {:induction false} CbcBlock(d: Cipher, iv: AesBlock, cipher: seq<AesBlock>, k: nat)
    requires k < |cipher|
    ensures CbcDecrypt(d, iv, cipher)[k] == XorBlocks(d(cipher[k]), if k == 0 then iv else cipher[k - 1])
    decreases k
  {
    hide XorBlocks;
    if k > 0 {
      CbcBlock(d, cipher[0], cipher[1..], k - 1);
    }
  }

  /** The cipher on each block, in place. */
  method DecryptUpdate(data: array<bv8>, at: nat, n: nat, d: Cipher)
    requires at + BLOCK * n <= data.Length
    modifies data
    ensures forall k :: 0 <= k < n ==> BlockAt(data[..], at, k) == d(BlockAt(old(data[..]), at, k))
    ensures forall i :: 0 <= i < data.Length && !(at <= i < at + BLOCK * n) ==> data[i] == old(data[i])
  {
    ghost var was := data[..];
    for k := 0 to n
      invariant forall j :: 0 <= j < k ==> BlockAt(data[..], at, j) == d(BlockAt(was, at, j))
      invariant forall i :: 0 <= i < data.Length && !(at <= i < at + BLOCK * k) ==> data[i] == was[i]
    {
      ghost var before := data[..];
      assert BlockAt(before, at, k) == BlockAt(was, at, k);
      DecryptBlock(data, at + BLOCK * k, d);
      BlocksKeep(data[..], before, at, k);
      assert data[..][at + BLOCK * k..at + BLOCK * k + BLOCK] == d(before[at + BLOCK * k..at + BLOCK * k + BLOCK]);
    }
  }

  lemma BlocksKeep(now: seq<bv8>, was: seq<bv8>, at: nat, k: nat)
    requires |now| == |was| && at + BLOCK * k <= |was| && now[..at + BLOCK * k] == was[..at + BLOCK * k]
    ensures forall j :: 0 <= j < k ==> BlockAt(now, at, j) == BlockAt(was, at, j)
  {
    forall j | 0 <= j < k ensures BlockAt(now, at, j) == BlockAt(was, at, j) {
      forall i | 0 <= i < BLOCK ensures BlockAt(now, at, j)[i] == BlockAt(was, at, j)[i] {
        assert now[..at + BLOCK * k][at + BLOCK * j + i] == was[..at + BLOCK * k][at + BLOCK * j + i];
      }
    }
  }

  method DecryptBlock(data: array<bv8>, from: nat, d: Cipher)
    requires from + BLOCK <= data.Length
    modifies data
    ensures data[from..from + BLOCK] == d(old(data[from..from + BLOCK]))
    ensures data[..from] == old(data[..from]) && data[from + BLOCK..] == old(data[from + BLOCK..])
  {
    var plain := d(data[from..from + BLOCK]);
    ghost var was := data[..];
    for i := 0 to BLOCK
      invariant forall j :: 0 <= j < data.Length ==> data[j] == if from <= j < from + i then plain[j - from] else was[j]
    {
      data[from + i] := plain[i];
    }
  }

  /** Decrypts len bytes in place: in CBC mode, what the block cipher gives is
      exclusive-ored with the ciphertext one block before. */
  method AesDecrypt(data: array<bv8>, at: nat, len: nat, key: Key, cbc: bool, iv: AesBlock, update: Update) returns (ok: bool)
    requires len % BLOCK == 0 && at + len <= data.Length && (update.Fails? ==> |update.left| == len)
    modifies data
    ensures ok == (key.Key? && update.Works?)
    ensures key.NoKey? ==> data[..] == old(data[..])
    ensures forall i :: 0 <= i < data.Length && !(at <= i < at + len) ==> data[i] == old(data[i])
    ensures ok && cbc ==>
              Blocks(data[..], at, len / BLOCK) == CbcDecrypt(key.decipher, iv, old(Blocks(data[..], at, len / BLOCK)))
    ensures ok && !cbc ==>
              forall k :: 0 <= k < len / BLOCK ==> BlockAt(data[..], at, k) == key.decipher(old(BlockAt(data[..], at, k)))
  {
    if key.NoKey? {
      return false;
    }
    var input := data[at..at + len];
    ghost var was := data[..];
    if update.Fails? {
      for i := 0 to len
        invariant forall j :: 0 <= j < data.Length && !(at <= j < at + len) ==> data[j] == was[j]
      {
        data[at + i] := update.left[i];
      }
      return false;
    }
    var n := len / BLOCK;
    DecryptUpdate(data, at, n, key.decipher);
    if cbc {
      ghost var mid := data[..];
      for i := 0 to len
        invariant forall j :: 0 <= j < data.Length ==>
                    data[j] == if at <= j < at + i then Chained(mid, input, iv, at, j - at) else mid[j]
      {
        data[at + i] := Xor(data[at + i], if i < BLOCK then iv[i] else input[i - BLOCK]);
      }
      IsCbc(data[..], mid, was, input, iv, at, n, key.decipher);
    }
    ok := true;
  }

  datatype Key = NoKey | Key(decipher: Cipher)

  /** What the library makes of the data; when it fails, left is what it leaves. */
  datatype Update = Works | Fails(left: seq<bv8>)

  function Chained(mid: seq<bv8>, input: seq<bv8>, iv: AesBlock, at: nat, i: nat): bv8
    requires at + i < |mid| && i < |input|
  {
    Xor(mid[at + i], if i < BLOCK then iv[i] else input[i - BLOCK])
  }

  lemma IsCbc(now: seq<bv8>, mid: seq<bv8>, was: seq<bv8>, input: seq<bv8>, iv: AesBlock, at: nat, n: nat, d: Cipher)
    requires |now| == |mid| == |was| && at + BLOCK * n <= |was| && input == was[at..at + BLOCK * n]
    requires forall k :: 0 <= k < n ==> BlockAt(mid, at, k) == d(BlockAt(was, at, k))
    requires forall i :: 0 <= i < BLOCK * n ==> now[at + i] == Chained(mid, input, iv, at, i)
    ensures Blocks(now, at, n) == CbcDecrypt(d, iv, Blocks(was, at, n))
  {
    hide XorBlocks, Chained, BlockAt;
    forall k | 0 <= k < n ensures BlockAt(now, at, k) == CbcDecrypt(d, iv, Blocks(was, at, n))[k] {
      CbcBlock(d, iv, Blocks(was, at, n), k);
      IsCbcBlock(now, mid, was, input, iv, at, n, k);
    }
  }

  lemma IsCbcBlock(now: seq<bv8>, mid: seq<bv8>, was: seq<bv8>, input: seq<bv8>, iv: AesBlock, at: nat, n: nat, k: nat)
    requires |now| == |mid| == |was| && at + BLOCK * n <= |was| && input == was[at..at + BLOCK * n] && k < n
    requires forall i :: 0 <= i < BLOCK * n ==> now[at + i] == Chained(mid, input, iv, at, i)
    ensures BlockAt(now, at, k) == XorBlocks(BlockAt(mid, at, k), if k == 0 then iv else BlockAt(was, at, k - 1))
  {
    hide Xor;
    assert k < n && BLOCK * k + BLOCK <= BLOCK * n;
    forall i | 0 <= i < BLOCK
      ensures BlockAt(now, at, k)[i] == Xor(BlockAt(mid, at, k)[i], (if k == 0 then iv else BlockAt(was, at, k - 1))[i])
    {
      var x := BLOCK * k + i;
      assert now[at + x] == Chained(mid, input, iv, at, x);
      assert k > 0 ==> input[x - BLOCK] == was[at + x - BLOCK];
    }
  }

  /** The payload of a scrambled packet is decrypted as far as it has whole blocks;
      the bytes after the last one are in the clear. Unless that worked the packet
      stays marked as scrambled. */
  method DecryptPacket(data: array<bv8>, offset: nat, key: Key, cbc: bool, iv: AesBlock, update: Update) returns (ok: bool)
    requires data.Length == 188 && 4 <= offset <= 188
    requires update.Fails? ==> |update.left| == WholeBlocks(188 - offset)
    modifies data
    ensures ok == (key.Key? && update.Works?)
    ensures key.NoKey? ==> data[..] == old(data[..])
    ensures forall b :: 0 <= b < 8 ==> BitAt(data[3], b) == (BitAt(old(data[3]), b) && (b < 6 || !ok))
    ensures forall i :: 0 <= i < offset && i != 3 ==> data[i] == old(data[i])
    ensures var n := (188 - offset) / BLOCK;
            && (forall i :: offset + BLOCK * n <= i < 188 ==> data[i] == old(data[i]))
            && (ok && !cbc ==> forall k :: 0 <= k < n ==> BlockAt(data[..], offset, k) == key.decipher(old(BlockAt(data[..], offset, k))))
            && (ok && cbc ==> Blocks(data[..], offset, n) == CbcDecrypt(key.decipher, iv, old(Blocks(data[..], offset, (188 - offset) / BLOCK))))
  {
    hide Blocks, CbcDecrypt, BlockAt, BitAt;
    var len := WholeBlocks(188 - offset);
    ok := AesDecrypt(data, offset, len, key, cbc, iv, update);
    ghost var mid := data[..];
    if ok {
      data[3] := Cleared(data[3]);
      SameBlocks(data[..], mid, offset, len / BLOCK);
    }
    forall b | 0 <= b < 8 ensures BitAt(data[3], b) == (BitAt(mid[3], b) && (b < 6 || !ok)) {
      SixBits(mid[3], b);
    }
  }

  /** Without the scrambling control bits. */
  function Cleared(b: bv8): bv8 { b & 0x3f }

  /** len & ~15. */
  function WholeBlocks(len: nat): (n: nat)
    ensures n % BLOCK == 0 && n <= len < n + BLOCK && n / BLOCK == len / BLOCK
  {
    len - len % BLOCK
  }

  lemma SameBlocks(now: seq<bv8>, was: seq<bv8>, at: nat, n: nat)
    requires |now| == |was| && at + BLOCK * n <= |was| && forall i :: at <= i < at + BLOCK * n ==> now[i] == was[i]
    ensures Blocks(now, at, n) == Blocks(was, at, n)
    ensures forall k :: 0 <= k < n ==> BlockAt(now, at, k) == BlockAt(was, at, k)
  {
    forall k | 0 <= k < n ensures BlockAt(now, at, k) == BlockAt(was, at, k) {
    }
  }
}
