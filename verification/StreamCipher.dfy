/** The registers of the bit-sliced stream cipher and the two routines that run it. */
module StreamCipher {
  import opened Bits
  import opened StreamScalar
  import opened StreamGroup

  /** The registers as values: the two windows and the other groups. */
  datatype Sliced = Sliced(A: Window, B: Window, X: Quad, Y: Quad, Z: Quad,
                           D: Quad, E: Quad, F: Quad, p: Group, q: Group, r: Group)
  {
    /** The registers of the packet in lane c. */
    function At(c: int): State {
      State(Lane(A, c), Lane(B, c), NibbleAt(X, c), NibbleAt(Y, c), NibbleAt(Z, c),
            NibbleAt(D, c), NibbleAt(E, c), NibbleAt(F, c), c in p, c in q, c in r)
    }

    /** T1 and T2: the cells that enter the two shift registers. */
    function NewA(init: bool, inA: Quad): Quad {
      if init then Xor4(Xor4(Xor4(A[9], X), D), inA) else Xor4(A[9], X)
    }

    function NewB(init: bool, inB: Quad): Quad {
      var mixed := Xor4(Xor4(B[6], B[9]), Y);
      RotateWhere(if init then Xor4(mixed, inB) else mixed, p)
    }

    /** What one pass of the internal loop leaves in the registers. */
    function Stepped(init: bool, inA: Quad, inB: Quad, n: nat): Sliced {
      var added := AddWhere(Z, E, q, r);
      Sliced([NewA(init, inA)] + A[..9], [NewB(init, inB)] + B[..9],
             SlicedX(A, n), SlicedY(A, n), SlicedZ(A, n), Xor4(Xor4(E, Z), SlicedExtraB(B)),
             F, added.0, SlicedP(A, n), SlicedQ(A, n), added.1)
    }
  }

  lemma SteppedRegisterA(s: Sliced, init: bool, inA: Quad, inB: Quad, n: nat, c: int)
    ensures Lane(s.Stepped(init, inA, inB, n).A, c) ==
            [NibbleAt(s.A[9], c) ^ NibbleAt(s.X, c) ^ (if init then NibbleAt(s.D, c) ^ NibbleAt(inA, c) else 0)]
            + Lane(s.A, c)[..9]
  {
    hide Xor4, NibbleAt;
    LaneShifts(s.A, s.Stepped(init, inA, inB, n).A[0], c);
  }

  lemma SteppedRegisterB(s: Sliced, init: bool, inA: Quad, inB: Quad, n: nat, c: int)
    ensures var b0 := NibbleAt(s.B[6], c) ^ NibbleAt(s.B[9], c) ^ NibbleAt(s.Y, c) ^
                      (if init then NibbleAt(inB, c) else 0);
            Lane(s.Stepped(init, inA, inB, n).B, c) ==
            [if c in s.p then RotateLeft(b0) else b0] + Lane(s.B, c)[..9]
  {
    hide Xor4, NibbleAt, RotateWhere, RotateLeft;
    LaneShifts(s.B, s.Stepped(init, inA, inB, n).B[0], c);
  }

  /** Bit slicing is faithful: in every lane one sliced step is one scalar step. */
  lemma SteppedAt(s: Sliced, init: bool, inA: Quad, inB: Quad, n: nat, c: int)
    requires 0 <= c < n
    ensures s.Stepped(init, inA, inB, n).At(c) ==
            Advance(s.At(c), if init then NibbleAt(s.D, c) ^ NibbleAt(inA, c) else 0,
                    if init then NibbleAt(inB, c) else 0)
  {
    hide Xor4, RotateWhere, SlicedX, SlicedY, SlicedZ, SlicedExtraB, SlicedP, SlicedQ, AddWhere;
    hide NextX, NextY, NextZ, ExtraB, S7, NibbleAt, Sum, RotateLeft;
    SteppedRegisterA(s, init, inA, inB, n, c);
    SteppedRegisterB(s, init, inA, inB, n, c);
    AddWhereAt(s.Z, s.E, s.q, s.r, c);
  }

  /** The byte that lane c holds in rows 8i to 8i+7. */
  function LaneByte(rows: seq<Group>, i: nat, c: int): bv8
    requires |rows| == 64 && i < 8
  {
    FromBits(seq(8, b requires 0 <= b < 8 => c in rows[8 * i + b]))
  }

  function LaneBlock(rows: seq<Group>, c: int): Block
    requires |rows| == 64
  {
    seq(8, i requires 0 <= i < 8 => LaneByte(rows, i, c))
  }

  /** The key nibbles that lane c sees. */
  function LaneKey(i: seq<Quad>, c: int): Nibbles8
    requires |i| == 8
  {
    seq(8, k requires 0 <= k < 8 => NibbleAt(i[k], c))
  }

  function HighRows(rows: seq<Group>, i: nat): Quad
    requires |rows| == 64 && i < 8
  {
    Quad(rows[8 * i + 4], rows[8 * i + 5], rows[8 * i + 6], rows[8 * i + 7])
  }

  function LowRows(rows: seq<Group>, i: nat): Quad
    requires |rows| == 64 && i < 8
  {
    Quad(rows[8 * i], rows[8 * i + 1], rows[8 * i + 2], rows[8 * i + 3])
  }

  /** The rows that enter the registers carry the nibbles of the input bytes. */
  lemma InputNibbles(rows: seq<Group>, i: nat, c: int)
    requires |rows| == 64 && i < 8
    ensures NibbleAt(HighRows(rows, i), c) == High(LaneBlock(rows, c)[i])
    ensures NibbleAt(LowRows(rows, i), c) == Low(LaneBlock(rows, c)[i])
  {
    NibblesOfBits(seq(8, b requires 0 <= b < 8 => c in rows[8 * i + b]));
  }

  /** Lane c of the registers after t steps of the initialisation. */
  function LaneInit(iA: seq<Quad>, iB: seq<Quad>, rows: seq<Group>, t: nat, c: int): State
    requires |iA| == |iB| == 8 && |rows| == 64 && t <= 32
  {
    InitSteps(Loaded(LaneKey(iA, c), LaneKey(iB, c)), LaneBlock(rows, c), t)
  }

  /** Every lane is t steps into the initialisation. */
  ghost predicate InitUpTo(s: Sliced, iA: seq<Quad>, iB: seq<Quad>, rows: seq<Group>, n: nat, t: nat)
    requires |iA| == |iB| == 8 && |rows| == 64 && t <= 32
  {
    forall c :: 0 <= c < n ==> s.At(c) == LaneInit(iA, iB, rows, t, c)
  }

  function LoadedGroups(iA: seq<Quad>, iB: seq<Quad>): Sliced
    requires |iA| == |iB| == 8
  {
    Sliced(iA + [Zeros(), Zeros()], iB + [Zeros(), Zeros()], Zeros(), Zeros(), Zeros(), Zeros(), Zeros(), Zeros(),
           FF0(), FF0(), FF0())
  }

  lemma LoadedUpToZero(iA: seq<Quad>, iB: seq<Quad>, rows: seq<Group>, n: nat)
    requires |iA| == |iB| == 8 && |rows| == 64
    ensures InitUpTo(LoadedGroups(iA, iB), iA, iB, rows, n, 0)
  {
    hide Zeros, NibbleAt, LaneBlock;
    var s := LoadedGroups(iA, iB);
    forall c: int ensures s.At(c) == LaneInit(iA, iB, rows, 0, c) {
      assert Lane(s.A, c) == LaneKey(iA, c) + [0, 0];
      assert Lane(s.B, c) == LaneKey(iB, c) + [0, 0];
    }
  }

  lemma InitUpToNext(s: Sliced, iA: seq<Quad>, iB: seq<Quad>, rows: seq<Group>, n: nat, i: nat, j: nat)
    requires |iA| == |iB| == 8 && |rows| == 64 && i < 8 && j < 4
    requires InitUpTo(s, iA, iB, rows, n, 4 * i + j)
    ensures var in1, in2 := HighRows(rows, i), LowRows(rows, i);
            InitUpTo(s.Stepped(true, if j % 2 == 1 then in2 else in1, if j % 2 == 1 then in1 else in2, n),
                     iA, iB, rows, n, 4 * i + j + 1)
  {
    hide HighRows, LowRows, LaneBlock, Advance, High, Low, Sliced.Stepped, Sliced.At;
    var in1, in2 := HighRows(rows, i), LowRows(rows, i);
    var inA, inB := if j % 2 == 1 then in2 else in1, if j % 2 == 1 then in1 else in2;
    var t := 4 * i + j;
    assert t / 4 == i && t % 2 == j % 2;
    forall c | 0 <= c < n ensures s.Stepped(true, inA, inB, n).At(c) == LaneInit(iA, iB, rows, t + 1, c) {
      var u := LaneInit(iA, iB, rows, t, c);
      assert s.At(c) == u;
      InputNibbles(rows, i, c);
      SteppedAt(s, true, inA, inB, n, c);
      AtD(s, c);
      assert s.Stepped(true, inA, inB, n).At(c) == InitStep(u, LaneBlock(rows, c), t);
    }
  }

  lemma AtD(s: Sliced, c: int)
    ensures s.At(c).D == NibbleAt(s.D, c)
  {
  }

  /** Every lane is t steps beyond what it was in s0. */
  ghost predicate RunUpTo(s: Sliced, s0: Sliced, n: nat, t: nat) {
    forall c :: 0 <= c < n ==> s.At(c) == Steps(s0.At(c), t)
  }

  lemma RunUpToNext(s: Sliced, s0: Sliced, n: nat, t: nat)
    requires RunUpTo(s, s0, n, t)
    ensures RunUpTo(s.Stepped(false, Zeros(), Zeros(), n), s0, n, t + 1)
  {
    hide Advance, Sliced.Stepped, Sliced.At;
    forall c | 0 <= c < n ensures s.Stepped(false, Zeros(), Zeros(), n).At(c) == Steps(s0.At(c), t + 1) {
      SteppedAt(s, false, Zeros(), Zeros(), n, c);
      assert s.At(c) == Steps(s0.At(c), t);
    }
  }

  /** In every lane the row holds bit b of the byte i that the scalar cipher
      produces from the registers s0. */
  ghost predicate RowIs(row: Group, s0: Sliced, n: nat, i: nat, b: nat)
    requires b < 8
  {
    forall c :: 0 <= c < n ==> ((c in row) == OutBit(s0.At(c), i, b))
  }

  /** The two rows that one step produces. */
  lemma RowsOfStep(s: Sliced, s0: Sliced, n: nat, i: nat, j: nat)
    requires j < 4 && RunUpTo(s, s0, n, 4 * i + j + 1)
    ensures RowIs(FFXOR(s.D.b2, s.D.b3), s0, n, i, 7 - 2 * j)
    ensures RowIs(FFXOR(s.D.b0, s.D.b1), s0, n, i, 6 - 2 * j)
  {
    hide Sliced.At, Steps;
    forall c | 0 <= c < n
      ensures (c in FFXOR(s.D.b2, s.D.b3)) == OutBit(s0.At(c), i, 7 - 2 * j)
      ensures (c in FFXOR(s.D.b0, s.D.b1)) == OutBit(s0.At(c), i, 6 - 2 * j)
    {
      AtD(s, c);
      assert s.At(c) == Steps(s0.At(c), 4 * i + j + 1);
      assert (7 - (7 - 2 * j)) / 2 == j && (7 - (6 - 2 * j)) / 2 == j;
    }
  }

  /** All 64 rows together are the output blocks of all lanes. */
  lemma BlockOfRows(rows: seq<Group>, s0: Sliced, n: nat, c: int)
    requires |rows| == 64 && 0 <= c < n
    requires forall row :: 0 <= row < 64 ==> RowIs(rows[row], s0, n, row / 8, row % 8)
    ensures LaneBlock(rows, c) == Output(s0.At(c))
  {
    hide Sliced.At, OutBit;
    forall i | 0 <= i < 8 ensures LaneByte(rows, i, c) == OutByte(s0.At(c), i) {
      forall b | 0 <= b < 8 ensures (c in rows[8 * i + b]) == OutBit(s0.At(c), i, b) {
        assert RowIs(rows[8 * i + b], s0, n, (8 * i + b) / 8, (8 * i + b) % 8);
        assert (8 * i + b) / 8 == i && (8 * i + b) % 8 == b;
      }
      assert seq(8, b requires 0 <= b < 8 => c in rows[8 * i + b]) ==
             seq(8, b requires 0 <= b < 8 => OutBit(s0.At(c), i, b));
    }
  }

  /** The rows hold the scalar cipher's next output block of every lane. */
  ghost predicate BlocksOut(rows: seq<Group>, s0: Sliced, n: nat)
    requires |rows| == 64
  {
    forall c :: 0 <= c < n ==> LaneBlock(rows, c) == Output(s0.At(c))
  }

  lemma AllBlocks(rows: seq<Group>, s0: Sliced, n: nat)
    requires |rows| == 64
    requires forall row :: 0 <= row < 64 ==> RowIs(rows[row], s0, n, row / 8, row % 8)
    ensures BlocksOut(rows, s0, n)
  {
    hide RowIs, LaneBlock, Output, Sliced.At;
    forall c | 0 <= c < n ensures LaneBlock(rows, c) == Output(s0.At(c)) {
      BlockOfRows(rows, s0, n, c);
    }
  }

  lemma StartRun(s: Sliced, n: nat)
    ensures RunUpTo(s, s, n, 0)
  {
  }

  class StreamRegs {
    const N: nat
    const A: array<Quad>
    const B: array<Quad>
    var X: Quad
    var Y: Quad
    var Z: Quad
    var D: Quad
    var E: Quad
    var F: Quad
    var p: Group
    var q: Group
    var r: Group

    ghost predicate Valid()
      reads this
    {
      A != B && A.Length == 42 && B.Length == 42
    }

    /** The registers as they are when the window starts at aboff. */
    ghost function View(aboff: nat): (s: Sliced)
      reads this, A, B
      requires Valid() && aboff <= 32
    {
      Sliced(A[aboff..aboff + 10], B[aboff..aboff + 10], X, Y, Z, D, E, F, p, q, r)
    }

    constructor (n: nat)
      ensures Valid() && N == n && fresh(A) && fresh(B)
    {
      N := n;
      A := new Quad[42](_ => Zeros());
      B := new Quad[42](_ => Zeros());
      X, Y, Z, D, E, F := Zeros(), Zeros(), Zeros(), Zeros(), Zeros(), Zeros();
      p, q, r := FF0(), FF0(), FF0();
    }

    /** Stores the cells that enter the two shift registers. */
    method NextCells(aboff: nat, init: bool, inA: Quad, inB: Quad)
      requires Valid() && 1 <= aboff <= 32
      modifies A, B
      ensures A[..] == old(A[..])[aboff - 1 := old(View(aboff)).NewA(init, inA)]
      ensures B[..] == old(B[..])[aboff - 1 := old(View(aboff)).NewB(init, inB)]
    {
      hide Xor4, RotateWhere;
      var nextA := Xor4(A[aboff + 9], X);
      if init {
        nextA := Xor4(Xor4(nextA, D), inA);
      }
      var nextB := Xor4(Xor4(B[aboff + 6], B[aboff + 9]), Y);
      if init {
        nextB := Xor4(nextB, inB);
      }
      A[aboff - 1], B[aboff - 1] := nextA, RotateWhere(nextB, p);
    }

    /** The body of the internal loop up to the virtual shift: the window that
        starts one cell earlier is the shifted register. */
    method Step(aboff: nat, init: bool, inA: Quad, inB: Quad)
      requires Valid() && 1 <= aboff <= 32
      modifies this, A, B
      ensures Valid()
      ensures View(aboff - 1) == old(View(aboff)).Stepped(init, inA, inB, N)
    {
      hide Xor4, RotateWhere, AddWhere, SlicedX, SlicedY, SlicedZ, SlicedP, SlicedQ, SlicedExtraB, Sliced.NewA, Sliced.NewB;
      var wA, wB := A[aboff..aboff + 10], B[aboff..aboff + 10];
      var nextX, nextY, nextZ := SlicedX(wA, N), SlicedY(wA, N), SlicedZ(wA, N);
      var nextP, nextQ := SlicedP(wA, N), SlicedQ(wA, N);
      var extraB := SlicedExtraB(wB);

      NextCells(aboff, init, inA, inB);
      assert A[aboff - 1..aboff + 9] == [A[aboff - 1]] + wA[..9];
      assert B[aboff - 1..aboff + 9] == [B[aboff - 1]] + wB[..9];

      D := Xor4(Xor4(E, Z), extraB);
      var nextE := F;
      var added := AddWhere(Z, E, q, r);
      F, r := added.0, added.1;
      E := nextE;
      X, Y, Z, p, q := nextX, nextY, nextZ, nextP, nextQ;
    }

    /** Moves the window back to the end of the buffers, ready for the next call. */
    method MoveForward()
      requires Valid()
      modifies A, B
      ensures View(32) == old(View(0))
    {
      for k := 0 to 10
        invariant forall m :: 0 <= m < 32 ==> A[m] == old(A[m]) && B[m] == old(B[m])
        invariant forall m :: 0 <= m < k ==> A[32 + m] == old(A[m]) && B[32 + m] == old(B[m])
      {
        A[32 + k], B[32 + k] := A[k], B[k];
      }
    }

    /** Loads the key into the cells of the first window and clears the rest. */
    method Load(iA: seq<Quad>, iB: seq<Quad>)
      requires Valid() && |iA| == |iB| == 8
      modifies this, A, B
      ensures Valid()
      ensures View(32) == LoadedGroups(iA, iB)
    {
      hide Zeros;
      X, Y, Z, D, E, F := Zeros(), Zeros(), Zeros(), Zeros(), Zeros(), Zeros();
      p, q, r := FF0(), FF0(), FF0();
      for i := 0 to 8
        modifies A, B
        invariant forall m :: 0 <= m < i ==> A[32 + m] == iA[m] && B[32 + m] == iB[m]
      {
        A[32 + i], B[32 + i] := iA[i], iB[i];
      }
      A[40], A[41], B[40], B[41] := Zeros(), Zeros(), Zeros(), Zeros();
      assert A[32..42] == iA + [Zeros(), Zeros()];
      assert B[32..42] == iB + [Zeros(), Zeros()];
    }

    /** The internal loop of the initialisation: byte i of every packet. */
    method InitByte(i: nat, in1: Quad, in2: Quad, ghost iA: seq<Quad>, ghost iB: seq<Quad>, ghost rows: seq<Group>)
      requires Valid() && |iA| == |iB| == 8 && |rows| == 64 && i < 8
      requires in1 == HighRows(rows, i) && in2 == LowRows(rows, i)
      requires InitUpTo(View(32 - 4 * i), iA, iB, rows, N, 4 * i)
      modifies this, A, B
      ensures Valid()
      ensures InitUpTo(View(28 - 4 * i), iA, iB, rows, N, 4 * i + 4)
    {
      hide Sliced.Stepped, InitUpTo, HighRows, LowRows;
      for j := 0 to 4
        invariant Valid()
        invariant InitUpTo(View(32 - 4 * i - j), iA, iB, rows, N, 4 * i + j)
      {
        InitUpToNext(View(32 - 4 * i - j), iA, iB, rows, N, i, j);
        Step(32 - 4 * i - j, true, if j % 2 == 1 then in2 else in1, if j % 2 == 1 then in1 else in2);
      }
    }

    /** The two nibbles of byte i of every packet. */
    static method InputRows(sb: array<Group>, i: nat) returns (in1: Quad, in2: Quad)
      requires sb.Length == 64 && i < 8
      ensures in1 == HighRows(sb[..], i) && in2 == LowRows(sb[..], i)
    {
      in1 := Quad(sb[8 * i + 4], sb[8 * i + 5], sb[8 * i + 6], sb[8 * i + 7]);
      in2 := Quad(sb[8 * i], sb[8 * i + 1], sb[8 * i + 2], sb[8 * i + 3]);
    }

    /** The external loop of the initialisation. */
    method InitBytes(sb: array<Group>, ghost iA: seq<Quad>, ghost iB: seq<Quad>)
      requires Valid() && |iA| == |iB| == 8 && sb.Length == 64
      requires InitUpTo(View(32), iA, iB, sb[..], N, 0)
      modifies this, A, B
      ensures Valid()
      ensures InitUpTo(View(0), iA, iB, sb[..], N, 32)
    {
      hide *;
      ghost var rows := sb[..];
      for i := 0 to 8
        invariant Valid()
        invariant InitUpTo(View(32 - 4 * i), iA, iB, rows, N, 4 * i)
      {
        var in1, in2 := InputRows(sb, i);
        assert sb[..] == rows;
        InitByte(i, in1, in2, iA, iB, rows);
      }
    }

    /** Runs the first eight payload bytes of every packet into its registers. */
    method Init(iA: seq<Quad>, iB: seq<Quad>, sb: array<Group>)
      requires Valid() && |iA| == |iB| == 8 && sb.Length == 64
      modifies this, A, B
      ensures Valid()
      ensures InitUpTo(View(32), iA, iB, sb[..], N, 32)
    {
      hide InitUpTo, LoadedGroups;
      Load(iA, iB);
      LoadedUpToZero(iA, iB, sb[..], N);
      InitBytes(sb, iA, iB);
      MoveForward();
    }

    /** The rows whose bits are known after j steps of byte i. */
    static ghost predicate Produced(row: nat, i: nat, j: nat) {
      row / 8 < i || (row / 8 == i && row % 8 >= 8 - 2 * j)
    }

    /** The body of the generating internal loop: two bits of byte i. */
    method GenerateBits(i: nat, j: nat, cb: array<Group>, ghost s0: Sliced)
      requires Valid() && cb.Length == 64 && i < 8 && j < 4
      requires RunUpTo(View(32 - 4 * i - j), s0, N, 4 * i + j)
      modifies this, A, B, cb
      ensures Valid()
      ensures RunUpTo(View(31 - 4 * i - j), s0, N, 4 * i + j + 1)
      ensures RowIs(cb[8 * i + 7 - 2 * j], s0, N, i, 7 - 2 * j)
      ensures RowIs(cb[8 * i + 6 - 2 * j], s0, N, i, 6 - 2 * j)
      ensures forall row :: 0 <= row < 64 && row != 8 * i + 7 - 2 * j && row != 8 * i + 6 - 2 * j ==> cb[row] == old(cb[row])
    {
      hide Sliced.Stepped, RunUpTo, RowIs, Zeros;
      RunUpToNext(View(32 - 4 * i - j), s0, N, 4 * i + j);
      Step(32 - 4 * i - j, false, Zeros(), Zeros());
      RowsOfStep(View(31 - 4 * i - j), s0, N, i, j);
      cb[8 * i + 7 - 2 * j] := FFXOR(D.b2, D.b3);
      cb[8 * i + 6 - 2 * j] := FFXOR(D.b0, D.b1);
    }

    /** The internal loop of the generation: byte i of every packet. */
    method GenerateByte(i: nat, cb: array<Group>, ghost s0: Sliced)
      requires Valid() && cb.Length == 64 && i < 8
      requires RunUpTo(View(32 - 4 * i), s0, N, 4 * i)
      requires forall row :: 0 <= row < 64 && row / 8 < i ==> RowIs(cb[row], s0, N, row / 8, row % 8)
      modifies this, A, B, cb
      ensures Valid()
      ensures RunUpTo(View(28 - 4 * i), s0, N, 4 * i + 4)
      ensures forall row :: 0 <= row < 64 && row / 8 <= i ==> RowIs(cb[row], s0, N, row / 8, row % 8)
    {
      hide RunUpTo, RowIs;
      for j := 0 to 4
        invariant Valid()
        invariant RunUpTo(View(32 - 4 * i - j), s0, N, 4 * i + j)
        invariant forall row :: 0 <= row < 64 && Produced(row, i, j) ==> RowIs(cb[row], s0, N, row / 8, row % 8)
      {
        GenerateBits(i, j, cb, s0);
      }
    }

    /** Generates the next eight key-stream bytes of every packet. */
    method Normal(cb: array<Group>)
      requires Valid() && cb.Length == 64
      modifies this, A, B, cb
      ensures Valid()
      ensures RunUpTo(View(32), old(View(32)), N, 32)
      ensures BlocksOut(cb[..], old(View(32)), N)
    {
      hide RunUpTo, RowIs, BlocksOut;
      ghost var s0 := View(32);
      StartRun(s0, N);
      for i := 0 to 8
        invariant Valid()
        invariant RunUpTo(View(32 - 4 * i), s0, N, 4 * i)
        invariant forall row :: 0 <= row < 64 && row / 8 < i ==> RowIs(cb[row], s0, N, row / 8, row % 8)
      {
        GenerateByte(i, cb, s0);
      }
      AllBlocks(cb[..], s0, N);
      MoveForward();
    }
  }
}
