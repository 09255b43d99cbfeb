/** The bit-sliced stream cipher: one group holds one bit of every packet, and
    every operation works on all lanes at once. */
module StreamGroup {
  import opened Bits
  import opened StreamScalar

  /** One bit for each of n lanes, written as the set of the lanes that hold a 1. */
  type Group = set<int>

  function FF0(): Group { {} }

  function FF1(n: nat): (g: Group)
    ensures forall c :: c in g <==> 0 <= c < n
  {
    if n == 0 then {} else FF1(n - 1) + {n - 1}
  }

  function FFXOR(a: Group, b: Group): (r: Group)
    ensures forall c :: c in r <==> (c in a) != (c in b)
  { (a - b) + (b - a) }

  function FFAND(a: Group, b: Group): Group { a * b }

  function FFOR(a: Group, b: Group): Group { a + b }

  function FFNOT(a: Group, n: nat): Group { FF1(n) - a }

  function S1a(fe: Group, fa: Group, fb: Group, fc: Group, fd: Group, n: nat): (s: Group)
    ensures forall c :: 0 <= c < n ==> (c in s) == Hi(Sbox1(Index(c in fe, c in fa, c in fb, c in fc, c in fd)))
  {
    var tmp0 := FFXOR(fa, FFXOR(fb, FFXOR(FFOR(FFXOR(FFOR(fa, fb), fc), FFXOR(fc, fd)), FF1(n))));
    var tmp1 := FFXOR(FFOR(fa, fb), FFXOR(FFAND(fc, FFOR(fa, FFXOR(fb, fd))), FF1(n)));
    FFXOR(tmp0, FFAND(fe, tmp1))
  }

  function S1b(fe: Group, fa: Group, fb: Group, fc: Group, fd: Group, n: nat): (s: Group)
    ensures forall c :: 0 <= c < n ==> (c in s) == Lo(Sbox1(Index(c in fe, c in fa, c in fb, c in fc, c in fd)))
  {
    var tmp2 := FFXOR(fa, FFXOR(FFAND(fb, fd), FFOR(FFAND(fa, fd), fc)));
    var tmp3 := FFXOR(FFAND(fa, fc), FFXOR(fa, FFOR(FFAND(fa, fb), fd)));
    FFXOR(tmp2, FFAND(fe, tmp3))
  }

  function S2a(fe: Group, fa: Group, fb: Group, fc: Group, fd: Group, n: nat): (s: Group)
    ensures forall c :: 0 <= c < n ==> (c in s) == Hi(Sbox2(Index(c in fe, c in fa, c in fb, c in fc, c in fd)))
  {
    var tmp0 := FFXOR(fa, FFXOR(FFAND(fb, FFOR(fc, fd)), FFXOR(fc, FFXOR(fd, FF1(n)))));
    var tmp1 := FFOR(FFAND(fa, FFXOR(fb, fd)), FFAND(FFOR(fa, fb), fc));
    FFXOR(tmp0, FFAND(fe, tmp1))
  }

  function S2b(fe: Group, fa: Group, fb: Group, fc: Group, fd: Group, n: nat): (s: Group)
    ensures forall c :: 0 <= c < n ==> (c in s) == Lo(Sbox2(Index(c in fe, c in fa, c in fb, c in fc, c in fd)))
  {
    var tmp2 := FFXOR(FFAND(fb, fd), FFOR(FFAND(fa, fd), FFXOR(fb, FFXOR(fc, FF1(n)))));
    var tmp3 := FFOR(FFAND(fa, fd), FFXOR(fa, FFXOR(fb, FFAND(fc, fd))));
    FFXOR(tmp2, FFAND(fe, tmp3))
  }

  function S3a(fe: Group, fa: Group, fb: Group, fc: Group, fd: Group, n: nat): (s: Group)
    ensures forall c :: 0 <= c < n ==> (c in s) == Hi(Sbox3(Index(c in fe, c in fa, c in fb, c in fc, c in fd)))
  {
    var tmp0 := FFXOR(fa, FFXOR(fb, FFXOR(FFAND(fc, FFOR(fa, fd)), fd)));
    var tmp1 := FFXOR(FFAND(fa, fc), FFOR(FFXOR(fa, fd), FFXOR(FFOR(fb, fc), FFXOR(fd, FF1(n)))));
    FFXOR(tmp0, FFAND(FFNOT(fe, n), tmp1))
  }

  function S3b(fe: Group, fa: Group, fb: Group, fc: Group, fd: Group, n: nat): (s: Group)
    ensures forall c :: 0 <= c < n ==> (c in s) == Lo(Sbox3(Index(c in fe, c in fa, c in fb, c in fc, c in fd)))
  {
    var tmp2 := FFXOR(fa, FFXOR(FFAND(FFXOR(fb, fc), fd), fc));
    var tmp3 := FF1(n);
    FFXOR(tmp2, FFAND(fe, tmp3))
  }

  function S4a(fe: Group, fa: Group, fb: Group, fc: Group, fd: Group, n: nat): (s: Group)
    ensures forall c :: 0 <= c < n ==> (c in s) == Hi(Sbox4(Index(c in fe, c in fa, c in fb, c in fc, c in fd)))
  {
    var tmp0 := FFXOR(fa, FFOR(FFAND(fc, FFXOR(fa, fd)), FFXOR(fb, FFOR(fc, FFXOR(fd, FF1(n))))));
    var tmp1 := FFXOR(FFAND(fa, fb), FFXOR(fb, FFXOR(FFAND(FFOR(fa, fc), fd), fc)));
    FFXOR(tmp0, FFAND(fe, FFXOR(tmp1, tmp0)))
  }

  function S4b(fe: Group, fa: Group, fb: Group, fc: Group, fd: Group, n: nat): (s: Group)
    ensures forall c :: 0 <= c < n ==> (c in s) == Lo(Sbox4(Index(c in fe, c in fa, c in fb, c in fc, c in fd)))
  {
    var tmp2 := FFXOR(fa, FFOR(FFAND(fb, fc), FFXOR(FFOR(FFAND(fa, FFXOR(fb, fd)), fc), fd)));
    var tmp3 := FF1(n);
    FFXOR(FFXOR(S4a(fe, fa, fb, fc, fd, n), tmp2), FFAND(fe, tmp3))
  }

  function S5a(fe: Group, fa: Group, fb: Group, fc: Group, fd: Group, n: nat): (s: Group)
    ensures forall c :: 0 <= c < n ==> (c in s) == Hi(Sbox5(Index(c in fe, c in fa, c in fb, c in fc, c in fd)))
  {
    var tmp0 := FFOR(FFXOR(FFAND(fa, FFOR(fb, fc)), fb), FFXOR(FFOR(FFXOR(fa, fc), fd), FF1(n)));
    var tmp1 := FFXOR(fb, FFAND(FFXOR(fc, fd), FFXOR(fc, FFOR(fb, FFXOR(fa, fd)))));
    FFXOR(tmp0, FFAND(fe, tmp1))
  }

  function S5b(fe: Group, fa: Group, fb: Group, fc: Group, fd: Group, n: nat): (s: Group)
    ensures forall c :: 0 <= c < n ==> (c in s) == Lo(Sbox5(Index(c in fe, c in fa, c in fb, c in fc, c in fd)))
  {
    var tmp2 := FFXOR(FFAND(fa, fc), FFXOR(fb, FFAND(FFOR(fb, FFXOR(fa, fc)), fd)));
    var tmp3 := FFOR(FFAND(FFXOR(fa, fb), FFXOR(fc, FF1(n))), fd);
    FFXOR(tmp2, FFAND(fe, tmp3))
  }

  function S6a(fe: Group, fa: Group, fb: Group, fc: Group, fd: Group, n: nat): (s: Group)
    ensures forall c :: 0 <= c < n ==> (c in s) == Hi(Sbox6(Index(c in fe, c in fa, c in fb, c in fc, c in fd)))
  {
    var tmp0 := FFXOR(FFAND(FFAND(fa, fc), fd), FFXOR(FFAND(fb, FFOR(fa, fd)), fc));
    var tmp1 := FFXOR(FFAND(FFXOR(fa, fc), fd), FF1(n));
    FFXOR(tmp0, FFAND(fe, tmp1))
  }

  function S6b(fe: Group, fa: Group, fb: Group, fc: Group, fd: Group, n: nat): (s: Group)
    ensures forall c :: 0 <= c < n ==> (c in s) == Lo(Sbox6(Index(c in fe, c in fa, c in fb, c in fc, c in fd)))
  {
    var tmp2 := FFXOR(FFAND(fa, FFOR(fb, fc)), FFXOR(fb, FFOR(FFAND(fb, fc), fd)));
    var tmp3 := FFAND(fc, FFXOR(FFAND(fa, FFXOR(fb, fd)), FFOR(fb, fd)));
    FFXOR(tmp2, FFAND(fe, tmp3))
  }

  function S7a(fe: Group, fa: Group, fb: Group, fc: Group, fd: Group, n: nat): (s: Group)
    ensures forall c :: 0 <= c < n ==> (c in s) == Hi(Sbox7(Index(c in fe, c in fa, c in fb, c in fc, c in fd)))
  {
    var tmp0 := FFXOR(fb, FFOR(FFAND(fc, fd), FFXOR(fa, FFXOR(fc, fd))));
    var tmp1 := FFAND(FFOR(fb, fd), FFOR(FFAND(fa, fc), FFXOR(fb, FFXOR(fc, fd))));
    FFXOR(tmp0, FFAND(fe, tmp1))
  }

  function S7b(fe: Group, fa: Group, fb: Group, fc: Group, fd: Group, n: nat): (s: Group)
    ensures forall c :: 0 <= c < n ==> (c in s) == Lo(Sbox7(Index(c in fe, c in fa, c in fb, c in fc, c in fd)))
  {
    var tmp2 := FFXOR(FFOR(fa, fb), FFXOR(FFAND(fc, FFOR(fb, fd)), fd));
    var tmp3 := FFOR(fd, FFXOR(FFAND(fa, fc), FF1(n)));
    FFXOR(tmp2, FFAND(fe, tmp3))
  }

  /** Four groups that hold the four bits of a nibble, bit 0 first. */
  datatype Quad = Quad(b0: Group, b1: Group, b2: Group, b3: Group)

  /** The nibble that a packet sees in its lane. */
  function NibbleAt(q: Quad, c: int): (x: bv4)
    ensures Bit4(x, 0) == (c in q.b0) && Bit4(x, 1) == (c in q.b1) && Bit4(x, 2) == (c in q.b2) && Bit4(x, 3) == (c in q.b3)
  {
    Nibble(c in q.b0, c in q.b1, c in q.b2, c in q.b3)
  }

  function Zeros(): (q: Quad)
    ensures forall c :: NibbleAt(q, c) == 0
  {
    Quad(FF0(), FF0(), FF0(), FF0())
  }

  function Xor4(a: Quad, b: Quad): (q: Quad)
    ensures forall c :: NibbleAt(q, c) == NibbleAt(a, c) ^ NibbleAt(b, c)
  {
    Quad(FFXOR(a.b0, b.b0), FFXOR(a.b1, b.b1), FFXOR(a.b2, b.b2), FFXOR(a.b3, b.b3))
  }

  /** Rotates left the nibbles of the lanes that have p set. */
  function RotateWhere(q: Quad, p: Group): (r: Quad)
    ensures forall c :: NibbleAt(r, c) == if c in p then RotateLeft(NibbleAt(q, c)) else NibbleAt(q, c)
  {
    Quad(FFXOR(q.b0, FFAND(FFXOR(q.b0, q.b3), p)),
         FFXOR(q.b1, FFAND(FFXOR(q.b1, q.b0), p)),
         FFXOR(q.b2, FFAND(FFXOR(q.b2, q.b1), p)),
         FFXOR(q.b3, FFAND(FFXOR(q.b3, q.b2), p)))
  }

  function Xor3(a: Group, b: Group, c: Group, d: Group): Group { FFXOR(FFXOR(FFXOR(a, b), c), d) }

  function CarryOut(z: Group, e: Group, carry: Group): (g: Group)
    ensures forall c :: (c in g) == ((c in z && c in e) || ((c in z) != (c in e) && c in carry))
  {
    FFOR(FFAND(z, e), FFAND(FFXOR(z, e), carry))
  }

  function SumBit(z: Group, e: Group, q: Group, carry: Group): (g: Group)
    ensures forall c :: (c in g) == if c in q then ((c in z) != (c in e)) != (c in carry) else c in e
  {
    FFXOR(e, FFAND(q, FFXOR(z, carry)))
  }

  /** The bitwise adder. Where q is set the new F is Z + E + r and the new r the
      carry out of it; elsewhere the new F is E and r stays. */
  function AddWhere(Z: Quad, E: Quad, q: Group, r: Group): (Quad, Group) {
    var carry1 := CarryOut(Z.b0, E.b0, r);
    var carry2 := CarryOut(Z.b1, E.b1, carry1);
    var carry3 := CarryOut(Z.b2, E.b2, carry2);
    var carry4 := CarryOut(Z.b3, E.b3, carry3);
    (Quad(SumBit(Z.b0, E.b0, q, r), SumBit(Z.b1, E.b1, q, carry1),
          SumBit(Z.b2, E.b2, q, carry2), SumBit(Z.b3, E.b3, q, carry3)),
     FFXOR(r, FFAND(q, FFXOR(carry4, r))))
  }

  /** Two nibbles added bit by bit, the carry rippling upwards. */
  lemma Ripple(z0: bool, z1: bool, z2: bool, z3: bool, e0: bool, e1: bool, e2: bool, e3: bool, r: bool)
    ensures var c1 := (z0 && e0) || ((z0 != e0) && r);
            var c2 := (z1 && e1) || ((z1 != e1) && c1);
            var c3 := (z2 && e2) || ((z2 != e2) && c2);
            var c4 := (z3 && e3) || ((z3 != e3) && c3);
            var sum := Sum(Nibble(z0, z1, z2, z3), Nibble(e0, e1, e2, e3), r);
            && (sum & 15) as bv4 == Nibble((z0 != e0) != r, (z1 != e1) != c1, (z2 != e2) != c2, (z3 != e3) != c3)
            && (sum & 16 == 16) == c4
  {
  }

  /** In every lane the bitwise adder is the adder of the scalar cipher. */
  lemma AddWhereAt(Z: Quad, E: Quad, q: Group, r: Group, c: int)
    ensures var s := AddWhere(Z, E, q, r);
            var sum := Sum(NibbleAt(Z, c), NibbleAt(E, c), c in r);
            && NibbleAt(s.0, c) == (if c in q then (sum & 15) as bv4 else NibbleAt(E, c))
            && (c in s.1) == if c in q then sum & 16 == 16 else c in r
  {
    hide Sum, Nibble, CarryOut, SumBit;
    Ripple(c in Z.b0, c in Z.b1, c in Z.b2, c in Z.b3, c in E.b0, c in E.b1, c in E.b2, c in E.b3, c in r);
  }

  /** Ten consecutive cells of a sliced shift register. */
  type Window = w: seq<Quad> | |w| == 10 witness seq(10, _ => Zeros())

  /** The shift register that one packet sees. */
  function Lane(w: Window, c: int): Nibbles10 { seq(10, k requires 0 <= k < 10 => NibbleAt(w[k], c)) }

  /** Moving the window one cell back shifts the register of every lane. */
  lemma LaneShifts(w: Window, first: Quad, c: int)
    ensures Lane([first] + w[..9], c) == [NibbleAt(first, c)] + Lane(w, c)[..9]
    ensures Lane(w, c)[6] == NibbleAt(w[6], c) && Lane(w, c)[9] == NibbleAt(w[9], c)
  {
  }

  function SlicedX(A: Window, n: nat): (q: Quad)
    ensures forall c :: 0 <= c < n ==> NibbleAt(q, c) == NextX(Lane(A, c))
  {
    Quad(S1a(A[3].b0, A[0].b2, A[5].b1, A[6].b3, A[8].b0, n),
         S2a(A[1].b1, A[2].b2, A[5].b3, A[6].b0, A[8].b1, n),
         S3b(A[0].b3, A[1].b0, A[4].b1, A[4].b3, A[5].b2, n),
         S4b(A[2].b3, A[0].b1, A[1].b3, A[3].b2, A[7].b0, n))
  }

  function SlicedY(A: Window, n: nat): (q: Quad)
    ensures forall c :: 0 <= c < n ==> NibbleAt(q, c) == NextY(Lane(A, c))
  {
    Quad(S3a(A[0].b3, A[1].b0, A[4].b1, A[4].b3, A[5].b2, n),
         S4a(A[2].b3, A[0].b1, A[1].b3, A[3].b2, A[7].b0, n),
         S5b(A[4].b2, A[3].b3, A[5].b0, A[7].b1, A[8].b2, n),
         S6b(A[2].b1, A[3].b1, A[4].b0, A[6].b2, A[8].b3, n))
  }

  function SlicedZ(A: Window, n: nat): (q: Quad)
    ensures forall c :: 0 <= c < n ==> NibbleAt(q, c) == NextZ(Lane(A, c))
  {
    Quad(S5a(A[4].b2, A[3].b3, A[5].b0, A[7].b1, A[8].b2, n),
         S6a(A[2].b1, A[3].b1, A[4].b0, A[6].b2, A[8].b3, n),
         S1b(A[3].b0, A[0].b2, A[5].b1, A[6].b3, A[8].b0, n),
         S2b(A[1].b1, A[2].b2, A[5].b3, A[6].b0, A[8].b1, n))
  }

  function SlicedP(A: Window, n: nat): (g: Group)
    ensures forall c :: 0 <= c < n ==> (c in g) == Hi(S7(Lane(A, c)))
  {
    S7a(A[1].b2, A[2].b0, A[6].b1, A[7].b2, A[7].b3, n)
  }

  function SlicedQ(A: Window, n: nat): (g: Group)
    ensures forall c :: 0 <= c < n ==> (c in g) == Lo(S7(Lane(A, c)))
  {
    S7b(A[1].b2, A[2].b0, A[6].b1, A[7].b2, A[7].b3, n)
  }

  function SlicedExtraB(B: Window): (q: Quad)
    ensures forall c :: NibbleAt(q, c) == ExtraB(Lane(B, c))
  {
    Quad(Xor3(B[8].b2, B[5].b3, B[2].b1, B[7].b0),
         Xor3(B[4].b3, B[7].b2, B[3].b0, B[4].b1),
         Xor3(B[5].b0, B[7].b1, B[2].b3, B[3].b2),
         Xor3(B[2].b0, B[5].b1, B[6].b2, B[8].b3))
  }
}
