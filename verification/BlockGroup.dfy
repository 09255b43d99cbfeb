/** The byte-sliced block cipher: byte j of every packet lies in row j, and the
    register shift of a round is a move of the row offset. */
module BlockGroup {
  import opened Bits
  import opened BlockScalar
  import opened PackedBytes

  predicate Parallelism(n: nat) { n == 32 || n == 64 || n == 128 }

  /** The working memory: 8 rows that hold the registers, one byte slot for each
      packet, and one more row for each of the 56 rounds. */
  ghost predicate Rows(r: array<seq<bv8>>, n: nat)
    reads r
  {
    r.Length == 64 && forall i :: 0 <= i < 64 ==> |r[i]| == n
  }

  /** The registers of the packet in byte slot x. */
  ghost function Regs(rows: seq<seq<bv8>>, x: int): Block
    requires |rows| == 8 && 0 <= x && forall i :: 0 <= i < 8 ==> x < |rows[i]|
  {
    [rows[0][x], rows[1][x], rows[2][x], rows[3][x], rows[4][x], rows[5][x], rows[6][x], rows[7][x]]
  }

  /** Eight bytes permuted together: as two words of 4 bytes, or as one of 8. */
  function PermuteBatch(s: Block, wide: bool): Block {
    var lo, hi := Pack32(s[0], s[1], s[2], s[3]), Pack32(s[4], s[5], s[6], s[7]);
    if wide then
      var w := Permute64(Pack64(lo, hi));
      Unpack32(Low32(w)) + Unpack32(High32(w))
    else
      Unpack32(Permute32(lo)) + Unpack32(Permute32(hi))
  }

  /** The masks and shifts do not cross byte boundaries. */
  lemma PermuteBatchBytes(s: Block, wide: bool)
    ensures forall i :: 0 <= i < 8 ==> PermuteBatch(s, wide)[i] == Permute(s[i])
  {
    hide Permute, Permute32, Permute64, Pack32, Pack64, Unpack32, Low32, High32;
    Permute32Bytes(s[0], s[1], s[2], s[3]);
    Permute32Bytes(s[4], s[5], s[6], s[7]);
    Permute64Halves(Pack32(s[0], s[1], s[2], s[3]), Pack32(s[4], s[5], s[6], s[7]));
  }

  /** The bit permutation of all bytes, a batch at a time. */
  method PermuteAll(so: array<bv8>, po: array<bv8>)
    requires Parallelism(so.Length) && po.Length == so.Length && so != po
    modifies po
    ensures forall x :: 0 <= x < so.Length ==> po[x] == Permute(so[x])
  {
    hide Permute, PermuteBatch;
    var g := 0;
    while g < so.Length
      invariant g <= so.Length && g % 8 == 0
      invariant forall x :: 0 <= x < g ==> po[x] == Permute(so[x])
    {
      var in8: Block := so[g..g + 8];
      var out8 := PermuteBatch(in8, so.Length > 32);
      PermuteBatchBytes(in8, so.Length > 32);
      for i := 0 to 8
        invariant forall x :: 0 <= x < g + i ==> po[x] == Permute(so[x])
      {
        po[g + i] := out8[i];
      }
      g := g + 8;
    }
  }

  /** S-box and bit permutation of register 6 of every packet. */
  method SubstituteAll(t: Table, k: bv8, r6: seq<bv8>) returns (sboxOut: array<bv8>, permOut: array<bv8>)
    requires Parallelism(|r6|)
    ensures fresh(sboxOut) && fresh(permOut) && sboxOut.Length == permOut.Length == |r6|
    ensures forall x :: 0 <= x < |r6| ==> sboxOut[x] == Substitute(t, Xor(k, r6[x])) && permOut[x] == Permute(sboxOut[x])
  {
    hide Permute;
    var n := |r6|;
    var sboxIn := new bv8[n];
    sboxOut, permOut := new bv8[n], new bv8[n];
    for g := 0 to n
      invariant forall x :: 0 <= x < g ==> sboxIn[x] == Xor(k, r6[x])
    {
      sboxIn[g] := Xor(k, r6[g]);
    }
    for g := 0 to n
      modifies sboxOut
      invariant forall x :: 0 <= x < g ==> sboxOut[x] == Substitute(t, Xor(k, r6[x]))
    {
      sboxOut[g] := Substitute(t, sboxIn[g]);
    }
    PermuteAll(sboxOut, permOut);
  }

  /** The exclusive-ors of a round in one byte slot, after the move of the rows. */
  method RoundSlot(t: Table, k: bv8, r: array<seq<bv8>>, now: nat, n: nat, g: nat, s: bv8, p: bv8)
    requires Rows(r, n) && now + 9 <= 64 && g < n
    requires s == Substitute(t, Xor(k, r[now + 7][g])) && p == Permute(s)
    modifies r
    ensures Rows(r, n)
    ensures Regs(r[now..now + 8], g) == Round(t, k, old(Regs(r[now + 1..now + 9], g)))
    ensures forall i, x :: 0 <= i < 64 && 0 <= x < n && x != g ==> r[i][x] == old(r[i][x])
  {
    hide Permute, Substitute, Xor;
    r[now] := r[now][g := Xor(r[now + 8][g], s)];
    r[now + 6] := r[now + 6][g := Xor(r[now + 6][g], p)];
    r[now + 4] := r[now + 4][g := Xor(r[now + 4][g], r[now][g])];
    r[now + 3] := r[now + 3][g := Xor(r[now + 3][g], r[now][g])];
    r[now + 2] := r[now + 2][g := Xor(r[now + 2][g], r[now][g])];
  }

  /** One round on all byte slots: moving the row offset down by one shifts the
      registers, five of them change. */
  method RoundAll(t: Table, k: bv8, r: array<seq<bv8>>, roff: nat, n: nat)
    requires Rows(r, n) && Parallelism(n) && 1 <= roff <= 56
    modifies r
    ensures Rows(r, n)
    ensures forall x {:trigger Regs(r[roff - 1..roff + 7], x)} :: 0 <= x < n ==>
              Regs(r[roff - 1..roff + 7], x) == Round(t, k, old(Regs(r[roff..roff + 8], x)))
  {
    hide Permute, Substitute, Xor, Round;
    var sboxOut, permOut := SubstituteAll(t, k, r[roff + 6]);
    var now := roff - 1;
    ghost var was := r[roff..roff + 8];
    for g := 0 to n
      modifies r
      invariant Rows(r, n)
      invariant forall i, x :: 0 <= i < 64 && g <= x < n ==> r[i][x] == old(r[i][x])
      invariant forall x {:trigger Regs(r[now..now + 8], x)} :: 0 <= x < g ==>
                  Regs(r[now..now + 8], x) == Round(t, k, Regs(was, x))
    {
      ghost var rows := r[now..now + 8];
      assert Regs(r[now + 1..now + 9], g) == Regs(was, g);
      RoundSlot(t, k, r, now, n, g, sboxOut[g], permOut[g]);
      forall x | 0 <= x < g + 1 ensures Regs(r[now..now + 8], x) == Round(t, k, Regs(was, x)) {
        if x < g {
          assert Regs(r[now..now + 8], x) == Regs(rows, x);
        }
      }
    }
  }

  /** An int of a row, and a row with one int replaced. */
  function IntAt(row: seq<bv8>, x: nat): bv32
    requires x + 4 <= |row|
  {
    Pack32(row[x], row[x + 1], row[x + 2], row[x + 3])
  }

  function WithInt(row: seq<bv8>, x: nat, w: bv32): (s: seq<bv8>)
    requires x + 4 <= |row|
    ensures |s| == |row|
    ensures forall c {:trigger s[c]} :: 0 <= c < |row| ==> s[c] == if x <= c < x + 4 then Unpack32(w)[c - x] else row[c]
  {
    row[x := Unpack32(w)[0]][x + 1 := Unpack32(w)[1]][x + 2 := Unpack32(w)[2]][x + 3 := Unpack32(w)[3]]
  }

  function At(row: seq<bv8>, c: int): bv8 { if 0 <= c < |row| then row[c] else 0 }

  /** Column c lies in the lower half of its int. */
  predicate LowHalf(c: int) { c % 4 < 2 }

  predicate Even(c: int) { c % 2 == 0 }

  lemma InInt(k: int, c: int)
    requires 4 * k <= c < 4 * k + 4
    ensures LowHalf(c) <==> c < 4 * k + 2
    ensures Even(c) <==> c == 4 * k || c == 4 * k + 2
  {
    assert c / 4 == k;
    assert c / 2 == if c < 4 * k + 2 then 2 * k else 2 * k + 1;
  }

  method ExchangeHalves(up0: seq<bv8>, low0: seq<bv8>, x: nat) returns (up: seq<bv8>, low: seq<bv8>)
    requires x + 4 <= |up0| == |low0|
    ensures |up| == |low| == |up0|
    ensures up[x] == up0[x] && low[x] == up0[x + 2]
    ensures up[x + 1] == up0[x + 1] && low[x + 1] == up0[x + 3]
    ensures up[x + 2] == low0[x] && low[x + 2] == low0[x + 2]
    ensures up[x + 3] == low0[x + 1] && low[x + 3] == low0[x + 3]
    ensures forall c :: 0 <= c < |up0| && !(x <= c < x + 4) ==> up[c] == up0[c]
    ensures forall c :: 0 <= c < |up0| && !(x <= c < x + 4) ==> low[c] == low0[c]
  {
    hide Pack32, Unpack32, WithInt, LowHalves, HighHalves;
    HalvesExchanged(up0[x], up0[x + 1], up0[x + 2], up0[x + 3], low0[x], low0[x + 1], low0[x + 2], low0[x + 3]);
    var t, b := IntAt(up0, x), IntAt(low0, x);
    up := WithInt(up0, x, LowHalves(t, b));
    low := WithInt(low0, x, HighHalves(t, b));
  }

  /** Exchanges the halves of the ints of two rows. */
  method HalvesOfRows(up0: seq<bv8>, low0: seq<bv8>) returns (up: seq<bv8>, low: seq<bv8>)
    requires Parallelism(|up0|) && |low0| == |up0|
    ensures |up| == |low| == |up0|
    ensures forall c :: 0 <= c < |up0| ==> up[c] == if LowHalf(c) then up0[c] else At(low0, c - 2)
    ensures forall c :: 0 <= c < |up0| ==> low[c] == if LowHalf(c) then At(up0, c + 2) else low0[c]
  {
    hide LowHalf, Even;
    up, low := up0, low0;
    for k := 0 to |up0| / 4
      invariant |up| == |low| == |up0|
      invariant forall c :: 4 * k <= c < |up0| ==> up[c] == up0[c]
      invariant forall c :: 4 * k <= c < |up0| ==> low[c] == low0[c]
      invariant forall c :: 0 <= c < 4 * k ==> up[c] == if LowHalf(c) then up0[c] else At(low0, c - 2)
      invariant forall c :: 0 <= c < 4 * k ==> low[c] == if LowHalf(c) then At(up0, c + 2) else low0[c]
    {
      up, low := ExchangeHalves(up, low, 4 * k);
      forall c | 4 * k <= c < 4 * k + 4
        ensures up[c] == (if LowHalf(c) then up0[c] else At(low0, c - 2)) && low[c] == if LowHalf(c) then At(up0, c + 2) else low0[c]
      {
        InInt(k, c);
        assert c == 4 * k || c == 4 * k + 1 || c == 4 * k + 2 || c == 4 * k + 3;
      }
    }
  }

  method ExchangeBytes(up0: seq<bv8>, low0: seq<bv8>, x: nat) returns (up: seq<bv8>, low: seq<bv8>)
    requires x + 4 <= |up0| == |low0|
    ensures |up| == |low| == |up0|
    ensures up[x] == up0[x] && low[x] == up0[x + 1]
    ensures up[x + 1] == low0[x] && low[x + 1] == low0[x + 1]
    ensures up[x + 2] == up0[x + 2] && low[x + 2] == up0[x + 3]
    ensures up[x + 3] == low0[x + 2] && low[x + 3] == low0[x + 3]
    ensures forall c :: 0 <= c < |up0| && !(x <= c < x + 4) ==> up[c] == up0[c]
    ensures forall c :: 0 <= c < |up0| && !(x <= c < x + 4) ==> low[c] == low0[c]
  {
    hide Pack32, Unpack32, WithInt, EvenBytes, OddBytes;
    BytesExchanged(up0[x], up0[x + 1], up0[x + 2], up0[x + 3], low0[x], low0[x + 1], low0[x + 2], low0[x + 3]);
    var t, b := IntAt(up0, x), IntAt(low0, x);
    up := WithInt(up0, x, EvenBytes(t, b));
    low := WithInt(low0, x, OddBytes(t, b));
  }

  /** Exchanges the odd bytes of one row with the even bytes of another. */
  method BytesOfRows(up0: seq<bv8>, low0: seq<bv8>) returns (up: seq<bv8>, low: seq<bv8>)
    requires Parallelism(|up0|) && |low0| == |up0|
    ensures |up| == |low| == |up0|
    ensures forall c :: 0 <= c < |up0| ==> up[c] == if Even(c) then up0[c] else At(low0, c - 1)
    ensures forall c :: 0 <= c < |up0| ==> low[c] == if Even(c) then At(up0, c + 1) else low0[c]
  {
    hide LowHalf, Even;
    up, low := up0, low0;
    for k := 0 to |up0| / 4
      invariant |up| == |low| == |up0|
      invariant forall c :: 4 * k <= c < |up0| ==> up[c] == up0[c]
      invariant forall c :: 4 * k <= c < |up0| ==> low[c] == low0[c]
      invariant forall c :: 0 <= c < 4 * k ==> up[c] == if Even(c) then up0[c] else At(low0, c - 1)
      invariant forall c :: 0 <= c < 4 * k ==> low[c] == if Even(c) then At(up0, c + 1) else low0[c]
    {
      up, low := ExchangeBytes(up, low, 4 * k);
      forall c | 4 * k <= c < 4 * k + 4
        ensures up[c] == (if Even(c) then up0[c] else At(low0, c - 1)) && low[c] == if Even(c) then At(up0, c + 1) else low0[c]
      {
        InInt(k, c);
        assert c == 4 * k || c == 4 * k + 1 || c == 4 * k + 2 || c == 4 * k + 3;
      }
    }
  }

  /** Eight rows of n bytes. */
  type Rows8 = w: seq<seq<bv8>> | |w| == 8 witness [[], [], [], [], [], [], [], []]

  ghost predicate Wide(w: Rows8, n: nat) { forall i :: 0 <= i < 8 ==> |w[i]| == n }

  /** Exchanging digit d (1 or 2) of the row number with that of the column. */
  function OtherRow(j: int, c: int, d: int): int
    requires d == 1 || d == 2
  {
    if d == 1 then j - j % 2 + c % 2 else j - 2 * (j / 2 % 2) + 2 * (c / 2 % 2)
  }

  function OtherCol(j: int, c: int, d: int): int
    requires d == 1 || d == 2
  {
    OtherRow(c, j, d)
  }

  ghost predicate Exchanged(row: seq<bv8>, w: Rows8, n: nat, j: int, d: int)
    requires Wide(w, n) && |row| == n && (d == 1 || d == 2)
  {
    forall c :: 0 <= c < n ==> ByteFrom(row[c], w, n, j, c, d)
  }

  ghost predicate ByteFrom(x: bv8, w: Rows8, n: nat, j: int, c: int, d: int)
    requires Wide(w, n) && (d == 1 || d == 2)
  {
    var i, e := OtherRow(j, c, d), OtherCol(j, c, d);
    0 <= i < 8 && 0 <= e < n && x == w[i][e]
  }

  method PairOfHalves(w: Rows8, n: nat, j: nat) returns (up: seq<bv8>, low: seq<bv8>)
    requires Wide(w, n) && Parallelism(n) && j + 2 < 8 && j / 2 % 2 == 0
    ensures |up| == |low| == n && Exchanged(up, w, n, j, 2) && Exchanged(low, w, n, j + 2, 2)
  {
    hide Exchanged, LowHalf, At;
    up, low := HalvesOfRows(w[j], w[j + 2]);
    HalvesArePair(up, low, w, n, j);
  }

  method PairOfBytes(w: Rows8, n: nat, j: nat) returns (up: seq<bv8>, low: seq<bv8>)
    requires Wide(w, n) && Parallelism(n) && j + 1 < 8 && j % 2 == 0
    ensures |up| == |low| == n && Exchanged(up, w, n, j, 1) && Exchanged(low, w, n, j + 1, 1)
  {
    hide Exchanged, Even, At;
    up, low := BytesOfRows(w[j], w[j + 1]);
    BytesArePair(up, low, w, n, j);
  }

  /** The exchanges in the four rows from j on. */
  method SwapHalvesFrom(w0: Rows8, v: Rows8, n: nat, j: nat) returns (w: Rows8)
    requires Wide(w0, n) && Wide(v, n) && Parallelism(n) && (j == 0 || j == 4)
    requires forall m :: j <= m < j + 4 ==> v[m] == w0[m]
    ensures Wide(w, n) && forall m :: j <= m < j + 4 ==> Exchanged(w[m], w0, n, m, 2)
    ensures forall m :: 0 <= m < 8 && !(j <= m < j + 4) ==> w[m] == v[m]
  {
    hide Exchanged;
    w := v;
    for i := 0 to 2
      invariant Wide(w, n)
      invariant forall m :: 0 <= m < 8 && !(j <= m < j + i || j + 2 <= m < j + 2 + i) ==> w[m] == v[m]
      invariant forall m :: j <= m < j + i || j + 2 <= m < j + 2 + i ==> Exchanged(w[m], w0, n, m, 2)
    {
      var up, low := PairOfHalves(w0, n, j + i);
      w := w[j + i := up][j + i + 2 := low];
    }
  }

  /** The first exchange: the halves of the ints of rows whose numbers differ by 2. */
  method SwapHalves(w0: Rows8, n: nat) returns (w: Rows8)
    requires Wide(w0, n) && Parallelism(n)
    ensures Wide(w, n) && forall m :: 0 <= m < 8 ==> Exchanged(w[m], w0, n, m, 2)
  {
    hide Exchanged;
    w := w0;
    var j := 0;
    while j < 8
      invariant j == 0 || j == 4 || j == 8
      invariant Wide(w, n)
      invariant forall m :: j <= m < 8 ==> w[m] == w0[m]
      invariant forall m :: 0 <= m < j ==> Exchanged(w[m], w0, n, m, 2)
    {
      w := SwapHalvesFrom(w0, w, n, j);
      j := j + 4;
    }
  }

  lemma HalvesArePair(up: seq<bv8>, low: seq<bv8>, w: Rows8, n: nat, j: nat)
    requires Wide(w, n) && Parallelism(n) && |up| == |low| == n && j + 2 < 8 && j / 2 % 2 == 0
    requires forall c :: 0 <= c < n ==> up[c] == if LowHalf(c) then w[j][c] else At(w[j + 2], c - 2)
    requires forall c :: 0 <= c < n ==> low[c] == if LowHalf(c) then At(w[j], c + 2) else w[j + 2][c]
    ensures Exchanged(up, w, n, j, 2) && Exchanged(low, w, n, j + 2, 2)
  {
    assert (j + 2) / 2 % 2 == 1;
    forall c | 0 <= c < n ensures ByteFrom(up[c], w, n, j, c, 2) && ByteFrom(low[c], w, n, j + 2, c, 2) {
      SecondDigit(c);
    }
  }

  lemma SecondDigit(c: int)
    ensures c / 2 % 2 == if LowHalf(c) then 0 else 1
  {
  }

  /** The second exchange: odd and even bytes of neighbouring rows. */
  method SwapBytes(w0: Rows8, n: nat) returns (w: Rows8)
    requires Wide(w0, n) && Parallelism(n)
    ensures Wide(w, n) && forall m :: 0 <= m < 8 ==> Exchanged(w[m], w0, n, m, 1)
  {
    w := w0;
    var j := 0;
    while j < 8
      invariant j % 2 == 0 && j <= 8
      invariant Wide(w, n)
      invariant forall m :: j <= m < 8 ==> w[m] == w0[m]
      invariant forall m :: 0 <= m < j ==> Exchanged(w[m], w0, n, m, 1)
    {
      hide Exchanged;
      assert w[j] == w0[j] && w[j + 1] == w0[j + 1];
      var up, low := PairOfBytes(w0, n, j);
      w := w[j := up][j + 1 := low];
      j := j + 2;
    }
  }

  lemma BytesArePair(up: seq<bv8>, low: seq<bv8>, w: Rows8, n: nat, j: nat)
    requires Wide(w, n) && Parallelism(n) && |up| == |low| == n && j + 1 < 8 && j % 2 == 0
    requires forall c :: 0 <= c < n ==> up[c] == if Even(c) then w[j][c] else At(w[j + 1], c - 1)
    requires forall c :: 0 <= c < n ==> low[c] == if Even(c) then At(w[j], c + 1) else w[j + 1][c]
    ensures Exchanged(up, w, n, j, 1) && Exchanged(low, w, n, j + 1, 1)
  {
    assert (j + 1) % 2 == 1;
    forall c | 0 <= c < n ensures ByteFrom(up[c], w, n, j, c, 1) && ByteFrom(low[c], w, n, j + 1, c, 1) {
    }
  }

  /** The exchange of digit d seen within blocks of four rows and four columns. */
  function Mix(i: int, m: int, d: int): int {
    if d == 1 then i - i % 2 + m % 2 else i - 2 * (i / 2) + 2 * (m / 2)
  }

  lemma OtherByMix(h: nat, i: nat, k: nat, m: nat, d: int)
    requires i < 4 && m < 4 && (d == 1 || d == 2)
    ensures OtherRow(4 * h + i, 4 * k + m, d) == 4 * h + Mix(i, m, d)
  {
    Digits4(h, i);
    Digits4(k, m);
  }

  lemma Digits4(h: nat, i: nat)
    requires i < 4
    ensures (4 * h + i) % 2 == i % 2 && (4 * h + i) / 2 % 2 == i / 2
  {
  }

  lemma MixBoth(i: nat, m: nat, d: int)
    requires i < 4 && m < 4 && (d == 1 || d == 2)
    ensures 0 <= Mix(i, m, d) < 4 && Mix(Mix(i, m, d), Mix(m, i, d), 3 - d) == m
  {
  }

  /** The two exchanges, in either order, swap the row within its four rows with
      the column within its four columns. */
  lemma ExchangedTwice(now: Rows8, mid: Rows8, was: Rows8, n: nat, d: int, h: nat, i: nat, k: nat, m: nat)
    requires Parallelism(n) && Wide(now, n) && Wide(mid, n) && Wide(was, n) && (d == 1 || d == 2)
    requires forall j :: 0 <= j < 8 ==> Exchanged(mid[j], was, n, j, 3 - d) && Exchanged(now[j], mid, n, j, d)
    requires h < 2 && i < 4 && m < 4 && 4 * k < n
    ensures now[4 * h + i][4 * k + m] == was[4 * h + m][4 * k + i]
  {
    hide Mix, OtherRow;
    var i', m' := Mix(i, m, d), Mix(m, i, d);
    MixBoth(i, m, d);
    MixBoth(m, i, d);
    OtherByMix(h, i, k, m, d);
    OtherByMix(k, m, h, i, d);
    assert ByteFrom(now[4 * h + i][4 * k + m], mid, n, 4 * h + i, 4 * k + m, d);
    OtherByMix(h, i', k, m', 3 - d);
    OtherByMix(k, m', h, i', 3 - d);
    assert ByteFrom(mid[4 * h + i'][4 * k + m'], was, n, 4 * h + i', 4 * k + m', 3 - d);
  }

  /** Packet g of the n packets side by side: a row of n bytes holds n/4 ints. */
  function RowIn(n: nat, g: nat): nat { if n == 32 then g / 8 else if n == 64 then g / 16 else g / 32 }

  function IntIn(n: nat, g: nat): nat { if n == 32 then g % 8 else if n == 64 then g % 16 else g % 32 }

  /** The byte slot of packet g. */
  function Slot(n: nat, g: nat): nat { 4 * IntIn(n, g) + RowIn(n, g) }

  lemma SlotRoom(n: nat, g: nat)
    requires Parallelism(n) && g < n
    ensures RowIn(n, g) < 4 && 4 * IntIn(n, g) < n && Slot(n, g) < n
  {
  }

  /** The registers of packet g, in its byte slot. */
  ghost function PacketRegs(w: Rows8, n: nat, g: nat): Block
    requires Parallelism(n) && g < n && Wide(w, n)
  {
    SlotRoom(n, g);
    Regs(w, Slot(n, g))
  }

  lemma OwnInt(n: nat, g: nat, other: nat)
    requires Parallelism(n) && g < n && other < n && g != other
    ensures RowIn(n, g) != RowIn(n, other) || IntIn(n, g) != IntIn(n, other)
  {
  }

  /** The two ints of packet g, as its block. */
  function LoadInts(w: Rows8, n: nat, g: nat): Block
    requires Parallelism(n) && g < n && Wide(w, n)
  {
    SlotRoom(n, g);
    var up, low, x := w[RowIn(n, g)], w[4 + RowIn(n, g)], 4 * IntIn(n, g);
    [up[x], up[x + 1], up[x + 2], up[x + 3], low[x], low[x + 1], low[x + 2], low[x + 3]]
  }

  function WithBytes(row: seq<bv8>, x: nat, b0: bv8, b1: bv8, b2: bv8, b3: bv8): (s: seq<bv8>)
    requires x + 4 <= |row|
    ensures |s| == |row| && s[x] == b0 && s[x + 1] == b1 && s[x + 2] == b2 && s[x + 3] == b3
    ensures forall c {:trigger s[c]} :: 0 <= c < |row| && !(x <= c < x + 4) ==> s[c] == row[c]
  {
    row[x := b0][x + 1 := b1][x + 2 := b2][x + 3 := b3]
  }

  /** Stores the two ints of packet g. */
  function StoreInts(w: Rows8, n: nat, g: nat, b: Block): (r: Rows8)
    requires Parallelism(n) && g < n && Wide(w, n)
    ensures Wide(r, n)
  {
    SlotRoom(n, g);
    var row, x := RowIn(n, g), 4 * IntIn(n, g);
    w[row := WithBytes(w[row], x, b[0], b[1], b[2], b[3])][4 + row := WithBytes(w[4 + row], x, b[4], b[5], b[6], b[7])]
  }

  lemma StoredInts(w: Rows8, n: nat, g: nat, b: Block, other: nat)
    requires Parallelism(n) && g < n && other < n && Wide(w, n)
    ensures LoadInts(StoreInts(w, n, g, b), n, other) == if other == g then b else LoadInts(w, n, other)
  {
    hide WithBytes, RowIn, IntIn;
    SlotRoom(n, g);
    SlotRoom(n, other);
    if other != g {
      OwnInt(n, g, other);
    }
  }

  /** Packets side by side become bytes side by side: byte j of packet g goes to
      row j, slot 4 (g mod n/4) + g / (n/4). */
  method TraspIn(r: array<seq<bv8>>, roff: nat, n: nat, ib: array<Block>, count: nat)
    requires Rows(r, n) && Parallelism(n) && roff <= 56 && count <= n <= ib.Length
    modifies r
    ensures Rows(r, n)
    ensures forall g :: 0 <= g < count ==> PacketRegs(r[roff..roff + 8], n, g) == ib[g]
  {
    hide LoadInts, StoreInts, Exchanged, PacketRegs;
    var w: Rows8 := r[roff..roff + 8];
    for g := 0 to count
      invariant Wide(w, n)
      invariant forall other :: 0 <= other < g ==> LoadInts(w, n, other) == ib[other]
    {
      forall other | 0 <= other < n
        ensures LoadInts(StoreInts(w, n, g, ib[g]), n, other) == if other == g then ib[g] else LoadInts(w, n, other)
      {
        StoredInts(w, n, g, ib[g], other);
      }
      w := StoreInts(w, n, g, ib[g]);
    }
    var mid := SwapHalves(w, n);
    var now := SwapBytes(mid, n);
    for i := 0 to 8
      invariant Rows(r, n)
      invariant forall m :: 0 <= m < i ==> r[roff + m] == now[m]
    {
      r[roff + i] := now[i];
    }
    forall m | 0 <= m < 8 ensures r[roff..roff + 8][m] == now[m] {
      assert r[roff..roff + 8][m] == r[roff + m];
    }
    assert r[roff..roff + 8] == now;
    forall g | 0 <= g < count ensures PacketRegs(now, n, g) == ib[g] {
      RegsOfInts(now, mid, w, n, 1, g);
    }
  }

  /** After both exchanges the registers of a packet's slot are its two ints before. */
  lemma RegsOfInts(now: Rows8, mid: Rows8, was: Rows8, n: nat, d: int, g: nat)
    requires Parallelism(n) && Wide(now, n) && Wide(mid, n) && Wide(was, n) && (d == 1 || d == 2) && g < n
    requires forall j :: 0 <= j < 8 ==> Exchanged(mid[j], was, n, j, 3 - d) && Exchanged(now[j], mid, n, j, d)
    ensures PacketRegs(now, n, g) == LoadInts(was, n, g)
  {
    hide Exchanged, RowIn, IntIn;
    SlotRoom(n, g);
    var k, m := IntIn(n, g), RowIn(n, g);
    ExchangedTwice(now, mid, was, n, d, 0, 0, k, m);
    ExchangedTwice(now, mid, was, n, d, 0, 1, k, m);
    ExchangedTwice(now, mid, was, n, d, 0, 2, k, m);
    ExchangedTwice(now, mid, was, n, d, 0, 3, k, m);
    ExchangedTwice(now, mid, was, n, d, 1, 0, k, m);
    ExchangedTwice(now, mid, was, n, d, 1, 1, k, m);
    ExchangedTwice(now, mid, was, n, d, 1, 2, k, m);
    ExchangedTwice(now, mid, was, n, d, 1, 3, k, m);
  }

  /** And its two ints afterwards are the registers of its slot before. */
  lemma IntsOfRegs(now: Rows8, mid: Rows8, was: Rows8, n: nat, d: int, g: nat)
    requires Parallelism(n) && Wide(now, n) && Wide(mid, n) && Wide(was, n) && (d == 1 || d == 2) && g < n
    requires forall j :: 0 <= j < 8 ==> Exchanged(mid[j], was, n, j, 3 - d) && Exchanged(now[j], mid, n, j, d)
    ensures LoadInts(now, n, g) == PacketRegs(was, n, g)
  {
    hide Exchanged, RowIn, IntIn;
    SlotRoom(n, g);
    var k, m := IntIn(n, g), RowIn(n, g);
    ExchangedTwice(now, mid, was, n, d, 0, m, k, 0);
    ExchangedTwice(now, mid, was, n, d, 0, m, k, 1);
    ExchangedTwice(now, mid, was, n, d, 0, m, k, 2);
    ExchangedTwice(now, mid, was, n, d, 0, m, k, 3);
    ExchangedTwice(now, mid, was, n, d, 1, m, k, 0);
    ExchangedTwice(now, mid, was, n, d, 1, m, k, 1);
    ExchangedTwice(now, mid, was, n, d, 1, m, k, 2);
    ExchangedTwice(now, mid, was, n, d, 1, m, k, 3);
  }

  /** Bytes side by side become packets side by side again. */
  method TraspOut(w: Rows8, n: nat, bd: array<Block>, count: nat)
    requires Wide(w, n) && Parallelism(n) && count <= n <= bd.Length
    modifies bd
    ensures forall g :: 0 <= g < count ==> bd[g] == PacketRegs(w, n, g)
  {
    hide LoadInts, Exchanged, PacketRegs;
    var mid := SwapBytes(w, n);
    var now := SwapHalves(mid, n);
    for g := 0 to count
      invariant forall other :: 0 <= other < g ==> bd[other] == PacketRegs(w, n, other)
    {
      IntsOfRegs(now, mid, w, n, 2, g);
      bd[g] := LoadInts(now, n, g);
    }
  }

  /** Working memory with arbitrary contents. */
  method Uninitialised(n: nat) returns (r: array<seq<bv8>>)
    ensures fresh(r) && Rows(r, n)
  {
    r := new seq<bv8>[64];
    for i := 0 to 64
      invariant forall k :: 0 <= k < i ==> |r[k]| == n
    {
      var row := new bv8[n];
      r[i] := row[..];
    }
  }

  /** Deciphers one block of each of count packets, whatever the unused slots hold. */
  method BlockDecypherGroup(kk: RoundKeys, ib: array<Block>, bd: array<Block>, n: nat, count: nat)
    requires Parallelism(n) && count <= n <= ib.Length && n <= bd.Length && ib != bd
    modifies bd
    ensures forall g :: 0 <= g < count ==> bd[g] == Decipher(SboxTable(), kk, ib[g])
  {
    hide PacketRegs, Rounds;
    var t := SboxTable();
    var r := Uninitialised(n);
    var roff := 56;
    TraspIn(r, roff, n, ib, count);
    for i := 56 downto 0
      modifies r
      invariant Rows(r, n) && roff == i
      invariant forall g :: 0 <= g < count ==> Rounds(t, kk, PacketRegs(r[roff..roff + 8], n, g), i) == Decipher(t, kk, ib[g])
    {
      ghost var before := r[roff..roff + 8];
      RoundAll(t, kk[i], r, roff, n);
      roff := roff - 1;
      RoundsStep(t, kk, before, r[roff..roff + 8], n, i);
    }
    forall g | 0 <= g < count ensures PacketRegs(r[roff..roff + 8], n, g) == Decipher(t, kk, ib[g]) {
      NoRounds(t, kk, PacketRegs(r[roff..roff + 8], n, g));
    }
    TraspOut(r[roff..roff + 8], n, bd, count);
  }

  lemma RoundsStep(t: Table, kk: RoundKeys, before: Rows8, after: Rows8, n: nat, i: nat)
    requires Parallelism(n) && Wide(before, n) && Wide(after, n) && i < 56
    requires forall x :: 0 <= x < n ==> Regs(after, x) == Round(t, kk[i], Regs(before, x))
    ensures forall g :: 0 <= g < n ==>
              Rounds(t, kk, PacketRegs(before, n, g), i + 1) == Rounds(t, kk, PacketRegs(after, n, g), i)
  {
    hide Regs, Round;
    forall g | 0 <= g < n
      ensures Rounds(t, kk, PacketRegs(before, n, g), i + 1) == Rounds(t, kk, PacketRegs(after, n, g), i)
    {
      SlotRoom(n, g);
    }
  }

  lemma NoRounds(t: Table, kk: RoundKeys, r: Block)
    ensures Rounds(t, kk, r, 0) == r
  {
  }
}
