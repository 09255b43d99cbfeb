/** Bytes packed into machine words: the masks and shifts of the byte-sliced
    block cipher work on 4 or 8 bytes at once and never mix them. */
module PackedBytes {
  import opened BlockScalar

  /** Little-endian words. */
  function Pack32(b0: bv8, b1: bv8, b2: bv8, b3: bv8): bv32 {
    (b0 as bv32) | ((b1 as bv32) << 8) | ((b2 as bv32) << 16) | ((b3 as bv32) << 24)
  }

  function Unpack32(w: bv32): (s: seq<bv8>)
    ensures |s| == 4
  {
    [(w & 255) as bv8, ((w >> 8) & 255) as bv8, ((w >> 16) & 255) as bv8, (w >> 24) as bv8]
  }

  /** The two results of the first exchange of the byte transposition. */
  function LowHalves(t: bv32, b: bv32): bv32 { (t & 0x0000ffff) | (b << 16) }

  function HighHalves(t: bv32, b: bv32): bv32 { (t >> 16) | (b & 0xffff0000) }

  lemma HalvesExchanged(t0: bv8, t1: bv8, t2: bv8, t3: bv8, b0: bv8, b1: bv8, b2: bv8, b3: bv8)
    ensures Unpack32(LowHalves(Pack32(t0, t1, t2, t3), Pack32(b0, b1, b2, b3))) == [t0, t1, b0, b1]
    ensures Unpack32(HighHalves(Pack32(t0, t1, t2, t3), Pack32(b0, b1, b2, b3))) == [t2, t3, b2, b3]
  {
  }

  /** The two results of the second exchange. */
  function EvenBytes(t: bv32, b: bv32): bv32 { (t & 0x00ff00ff) | ((b & 0x00ff00ff) << 8) }

  function OddBytes(t: bv32, b: bv32): bv32 { ((t & 0xff00ff00) >> 8) | (b & 0xff00ff00) }

  lemma BytesExchanged(t0: bv8, t1: bv8, t2: bv8, t3: bv8, b0: bv8, b1: bv8, b2: bv8, b3: bv8)
    ensures Unpack32(EvenBytes(Pack32(t0, t1, t2, t3), Pack32(b0, b1, b2, b3))) == [t0, b0, t2, b2]
    ensures Unpack32(OddBytes(Pack32(t0, t1, t2, t3), Pack32(b0, b1, b2, b3))) == [t1, b1, t3, b3]
  {
  }

  function Permute32(w: bv32): bv32 {
    ((w & 0x29292929) << 1) | ((w & 0x02020202) << 6) | ((w & 0x04040404) << 3) |
    ((w & 0x10101010) >> 2) | ((w & 0x40404040) >> 6) | ((w & 0x80808080) >> 4)
  }

  lemma Permute32Bytes(b0: bv8, b1: bv8, b2: bv8, b3: bv8)
    ensures Unpack32(Permute32(Pack32(b0, b1, b2, b3))) == [Permute(b0), Permute(b1), Permute(b2), Permute(b3)]
  {
  }

  function Pack64(lo: bv32, hi: bv32): bv64 { (lo as bv64) | ((hi as bv64) << 32) }

  function Low32(w: bv64): bv32 { (w & 0xffffffff) as bv32 }

  function High32(w: bv64): bv32 { (w >> 32) as bv32 }

  function Permute64(w: bv64): bv64 {
    ((w & 0x2929292929292929) << 1) | ((w & 0x0202020202020202) << 6) | ((w & 0x0404040404040404) << 3) |
    ((w & 0x1010101010101010) >> 2) | ((w & 0x4040404040404040) >> 6) | ((w & 0x8080808080808080) >> 4)
  }

  /** The wider batches permute their halves independently. */
  lemma Permute64Halves(lo: bv32, hi: bv32)
    ensures Low32(Permute64(Pack64(lo, hi))) == Permute32(lo)
    ensures High32(Permute64(Pack64(lo, hi))) == Permute32(hi)
  {
  }
}
