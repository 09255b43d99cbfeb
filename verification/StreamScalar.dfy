/** The stream cipher for one packet, on nibbles, with its S-boxes as the tables
    listed in the comments of the bit-sliced code. This is the reference that
    the bit-sliced form is proved to simulate in every lane. */
module StreamScalar {
  import opened Bits

  function Sbox1(i: nat): bv2
    requires i < 32
  {
    match i
    case 0 => 2 case 1 => 0 case 2 => 1 case 3 => 1 case 4 => 2 case 5 => 3 case 6 => 3 case 7 => 0
    case 8 => 3 case 9 => 2 case 10 => 2 case 11 => 0 case 12 => 1 case 13 => 1 case 14 => 0 case 15 => 3
    case 16 => 0 case 17 => 3 case 18 => 3 case 19 => 0 case 20 => 2 case 21 => 2 case 22 => 1 case 23 => 1
    case 24 => 2 case 25 => 2 case 26 => 0 case 27 => 3 case 28 => 1 case 29 => 1 case 30 => 3 case _ => 0
  }
  function Sbox2(i: nat): bv2
    requires i < 32
  {
    match i
    case 0 => 3 case 1 => 1 case 2 => 0 case 3 => 2 case 4 => 2 case 5 => 3 case 6 => 3 case 7 => 0
    case 8 => 1 case 9 => 3 case 10 => 2 case 11 => 1 case 12 => 0 case 13 => 0 case 14 => 1 case 15 => 2
    case 16 => 3 case 17 => 1 case 18 => 0 case 19 => 3 case 20 => 3 case 21 => 2 case 22 => 0 case 23 => 2
    case 24 => 0 case 25 => 0 case 26 => 1 case 27 => 2 case 28 => 2 case 29 => 1 case 30 => 3 case _ => 1
  }
  function Sbox3(i: nat): bv2
    requires i < 32
  {
    match i
    case 0 => 2 case 1 => 0 case 2 => 1 case 3 => 2 case 4 => 2 case 5 => 3 case 6 => 3 case 7 => 1
    case 8 => 1 case 9 => 1 case 10 => 0 case 11 => 3 case 12 => 3 case 13 => 0 case 14 => 2 case 15 => 0
    case 16 => 1 case 17 => 3 case 18 => 0 case 19 => 1 case 20 => 3 case 21 => 0 case 22 => 2 case 23 => 2
    case 24 => 2 case 25 => 0 case 26 => 1 case 27 => 2 case 28 => 0 case 29 => 3 case 30 => 3 case _ => 1
  }
  function Sbox4(i: nat): bv2
    requires i < 32
  {
    match i
    case 0 => 3 case 1 => 1 case 2 => 2 case 3 => 3 case 4 => 0 case 5 => 2 case 6 => 1 case 7 => 2
    case 8 => 1 case 9 => 2 case 10 => 0 case 11 => 1 case 12 => 3 case 13 => 0 case 14 => 0 case 15 => 3
    case 16 => 1 case 17 => 0 case 18 => 3 case 19 => 1 case 20 => 2 case 21 => 3 case 22 => 0 case 23 => 3
    case 24 => 0 case 25 => 3 case 26 => 2 case 27 => 0 case 28 => 1 case 29 => 2 case 30 => 2 case _ => 1
  }
  function Sbox5(i: nat): bv2
    requires i < 32
  {
    match i
    case 0 => 2 case 1 => 0 case 2 => 0 case 3 => 1 case 4 => 3 case 5 => 2 case 6 => 3 case 7 => 2
    case 8 => 0 case 9 => 1 case 10 => 3 case 11 => 3 case 12 => 1 case 13 => 0 case 14 => 2 case 15 => 1
    case 16 => 2 case 17 => 3 case 18 => 2 case 19 => 0 case 20 => 0 case 21 => 3 case 22 => 1 case 23 => 1
    case 24 => 1 case 25 => 0 case 26 => 3 case 27 => 2 case 28 => 3 case 29 => 1 case 30 => 0 case _ => 2
  }
  function Sbox6(i: nat): bv2
    requires i < 32
  {
    match i
    case 0 => 0 case 1 => 1 case 2 => 2 case 3 => 3 case 4 => 1 case 5 => 2 case 6 => 2 case 7 => 0
    case 8 => 0 case 9 => 1 case 10 => 3 case 11 => 0 case 12 => 2 case 13 => 3 case 14 => 1 case 15 => 3
    case 16 => 2 case 17 => 3 case 18 => 0 case 19 => 2 case 20 => 3 case 21 => 0 case 22 => 1 case 23 => 1
    case 24 => 2 case 25 => 1 case 26 => 1 case 27 => 2 case 28 => 0 case 29 => 3 case 30 => 3 case _ => 0
  }
  function Sbox7(i: nat): bv2
    requires i < 32
  {
    match i
    case 0 => 0 case 1 => 3 case 2 => 2 case 3 => 2 case 4 => 3 case 5 => 0 case 6 => 0 case 7 => 1
    case 8 => 3 case 9 => 0 case 10 => 1 case 11 => 3 case 12 => 1 case 13 => 2 case 14 => 2 case 15 => 1
    case 16 => 1 case 17 => 0 case 18 => 3 case 19 => 3 case 20 => 0 case 21 => 1 case 22 => 1 case 23 => 2
    case 24 => 2 case 25 => 3 case 26 => 1 case 27 => 0 case 28 => 2 case 29 => 3 case 30 => 0 case _ => 2
  }

  /** The five selected bits as a table index, the first one most significant. */
  function Index(e: bool, a: bool, b: bool, c: bool, d: bool): (i: nat)
    ensures i < 32
  {
    (if e then 16 else 0) + (if a then 8 else 0) + (if b then 4 else 0) + (if c then 2 else 0) + (if d then 1 else 0)
  }

  predicate Hi(s: bv2) { s & 2 == 2 }

  predicate Lo(s: bv2) { s & 1 == 1 }

  type Nibbles10 = s: seq<bv4> | |s| == 10 witness [0, 0, 0, 0, 0, 0, 0, 0, 0, 0]

  datatype State = State(A: Nibbles10, B: Nibbles10, X: bv4, Y: bv4, Z: bv4,
                         D: bv4, E: bv4, F: bv4, p: bool, q: bool, r: bool)

  function S1(A: Nibbles10): bv2 { Sbox1(Index(Bit4(A[3], 0), Bit4(A[0], 2), Bit4(A[5], 1), Bit4(A[6], 3), Bit4(A[8], 0))) }
  function S2(A: Nibbles10): bv2 { Sbox2(Index(Bit4(A[1], 1), Bit4(A[2], 2), Bit4(A[5], 3), Bit4(A[6], 0), Bit4(A[8], 1))) }
  function S3(A: Nibbles10): bv2 { Sbox3(Index(Bit4(A[0], 3), Bit4(A[1], 0), Bit4(A[4], 1), Bit4(A[4], 3), Bit4(A[5], 2))) }
  function S4(A: Nibbles10): bv2 { Sbox4(Index(Bit4(A[2], 3), Bit4(A[0], 1), Bit4(A[1], 3), Bit4(A[3], 2), Bit4(A[7], 0))) }
  function S5(A: Nibbles10): bv2 { Sbox5(Index(Bit4(A[4], 2), Bit4(A[3], 3), Bit4(A[5], 0), Bit4(A[7], 1), Bit4(A[8], 2))) }
  function S6(A: Nibbles10): bv2 { Sbox6(Index(Bit4(A[2], 1), Bit4(A[3], 1), Bit4(A[4], 0), Bit4(A[6], 2), Bit4(A[8], 3))) }
  function S7(A: Nibbles10): bv2 { Sbox7(Index(Bit4(A[1], 2), Bit4(A[2], 0), Bit4(A[6], 1), Bit4(A[7], 2), Bit4(A[7], 3))) }

  function NextX(A: Nibbles10): bv4 { Nibble(Hi(S1(A)), Hi(S2(A)), Lo(S3(A)), Lo(S4(A))) }

  function NextY(A: Nibbles10): bv4 { Nibble(Hi(S3(A)), Hi(S4(A)), Lo(S5(A)), Lo(S6(A))) }

  function NextZ(A: Nibbles10): bv4 { Nibble(Hi(S5(A)), Hi(S6(A)), Lo(S1(A)), Lo(S2(A))) }

  /** The 4x4 exclusive-or that feeds D. */
  function ExtraB(B: Nibbles10): bv4 {
    Nibble(
      (Bit4(B[8], 2) != Bit4(B[5], 3)) != (Bit4(B[2], 1) != Bit4(B[7], 0)),
      (Bit4(B[4], 3) != Bit4(B[7], 2)) != (Bit4(B[3], 0) != Bit4(B[4], 1)),
      (Bit4(B[5], 0) != Bit4(B[7], 1)) != (Bit4(B[2], 3) != Bit4(B[3], 2)),
      (Bit4(B[2], 0) != Bit4(B[5], 1)) != (Bit4(B[6], 2) != Bit4(B[8], 3)))
  }

  function RotateLeft(x: bv4): bv4 { (x << 1) | (x >> 3) }

  /** Z + E + r, one bit wider than a nibble so that the carry is kept. */
  function Sum(Z: bv4, E: bv4, r: bool): bv5 { (Z as bv5) + (E as bv5) + (if r then 1 else 0) }

  /** One step of the registers, with what is mixed into A and B given
      explicitly: during initialisation D and the input nibbles, later nothing. */
  function Advance(s: State, mixA: bv4, mixB: bv4): State {
    var a0 := s.A[9] ^ s.X ^ mixA;
    var b0 := s.B[6] ^ s.B[9] ^ s.Y ^ mixB;
    State(
      [a0] + s.A[..9],
      [if s.p then RotateLeft(b0) else b0] + s.B[..9],
      NextX(s.A), NextY(s.A), NextZ(s.A),
      s.E ^ s.Z ^ ExtraB(s.B),
      s.F,
      if s.q then (Sum(s.Z, s.E, s.r) & 15) as bv4 else s.E,
      Hi(S7(s.A)), Lo(S7(s.A)),
      if s.q then Sum(s.Z, s.E, s.r) & 16 == 16 else s.r)
  }

  /** Step t of the initialisation: the high nibble of byte t/4 enters A and the
      low one B in even steps, the other way round in odd steps. */
  function InitStep(s: State, sb: Block, t: nat): State
    requires t < 32
  {
    var in1, in2 := High(sb[t / 4]), Low(sb[t / 4]);
    if t % 2 == 0 then Advance(s, s.D ^ in1, in2) else Advance(s, s.D ^ in2, in1)
  }

  function InitSteps(s: State, sb: Block, t: nat): State
    requires t <= 32
  {
    if t == 0 then s else InitStep(InitSteps(s, sb, t - 1), sb, t - 1)
  }

  type Nibbles8 = s: seq<bv4> | |s| == 8 witness [0, 0, 0, 0, 0, 0, 0, 0]

  /** The registers before the first step: the key nibbles and zeros. */
  function Loaded(iA: Nibbles8, iB: Nibbles8): State {
    State(iA + [0, 0], iB + [0, 0], 0, 0, 0, 0, 0, 0, false, false, false)
  }

  /** The registers of a packet after its first eight payload bytes went in. */
  function Init(iA: Nibbles8, iB: Nibbles8, sb: Block): State {
    InitSteps(Loaded(iA, iB), sb, 32)
  }

  function Steps(s: State, t: nat): State {
    if t == 0 then s else Advance(Steps(s, t - 1), 0, 0)
  }

  /** Bit b of output byte i: every step yields two bits, most significant first. */
  predicate OutBit(s: State, i: nat, b: nat)
    requires b < 8
  {
    var D := Steps(s, 4 * i + (7 - b) / 2 + 1).D;
    if b % 2 == 1 then Bit4(D, 2) != Bit4(D, 3) else Bit4(D, 0) != Bit4(D, 1)
  }

  function OutByte(s: State, i: nat): bv8 {
    FromBits(seq(8, b requires 0 <= b < 8 => OutBit(s, i, b)))
  }

  /** The eight key-stream bytes of one call that starts in registers s. */
  function Output(s: State): Block {
    seq(8, i requires 0 <= i < 8 => OutByte(s, i))
  }

  /** The registers after k calls that produce eight bytes each. */
  function AfterCalls(s: State, k: nat): State {
    if k == 0 then s else Steps(AfterCalls(s, k - 1), 32)
  }
}
