/** The fields of a transport packet header (ISO/IEC 13818-1 section 2.4.3.2) as
    numbers, and what the flag tests of the other modules read of them. */
module Headers {
  import opened Bits
  import opened Csa
  import opened Sections
  import opened TsPacket

  /** control: scrambling control; adaptation: adaptation field control. */
  datatype Header = Header(error: bool, start: bool, priority: bool, pid: nat, control: nat, adaptation: nat, counter: nat)

  function Flag(b: bool, weight: nat): nat { if b then weight else 0 }

  /** The three header bytes, in the order of the fields. */
  ghost predicate HasHeader(p: Packet, h: Header) {
    && h.pid < 8192 && h.control < 4 && h.adaptation < 4 && h.counter < 16
    && p[1] as int == Flag(h.error, 128) + Flag(h.start, 64) + Flag(h.priority, 32) + h.pid / 256
    && p[2] as int == h.pid % 256
    && p[3] as int == 64 * h.control + 16 * h.adaptation + h.counter
  }

  /** Single bits of a byte, by their weight. */
  lemma BitsOf(b: bv8)
    ensures b & 0x80 == 0x80 <==> b as int / 128 % 2 == 1
    ensures b & 0x40 == 0x40 <==> b as int / 64 % 2 == 1
    ensures b & 0x20 == 0x20 <==> b as int / 32 % 2 == 1
    ensures b & 0x10 == 0x10 <==> b as int / 16 % 2 == 1
    ensures (b & 0x40 != 0 <==> b & 0x40 == 0x40) && (b & 0x10 != 0 <==> b & 0x10 == 0x10)
    ensures (b & 0x3f) as int == b as int % 64
  {
    BitAbove(b);
    BitBelow(b);
    LowSix(b);
  }

  lemma BitAbove(b: bv8)
    ensures b & 0x80 == 0x80 <==> b as int / 128 % 2 == 1
    ensures b & 0x40 == 0x40 <==> b as int / 64 % 2 == 1
  {
  }

  lemma BitBelow(b: bv8)
    ensures b & 0x20 == 0x20 <==> b as int / 32 % 2 == 1
    ensures b & 0x10 == 0x10 <==> b as int / 16 % 2 == 1
  {
  }

  lemma LowSix(b: bv8)
    ensures (b & 0x3f) as int == b as int % 64
  {
  }

  lemma FirstBytes(a: int, lo: int, h: Header)
    requires a == Flag(h.error, 128) + Flag(h.start, 64) + Flag(h.priority, 32) + h.pid / 256 && lo == h.pid % 256 && h.pid < 8192
    ensures (256 * a + lo) % 8192 == h.pid && (a / 64 % 2 == 1 <==> h.start)
    ensures (a / 128 % 2 == 1 <==> h.error) && (a / 32 % 2 == 1 <==> h.priority)
  {
    var x := h.pid / 256;
    assert 0 <= x < 32 && h.pid == 256 * x + lo;
  }

  lemma ThirdByte(b: int, h: Header)
    requires b == 64 * h.control + 16 * h.adaptation + h.counter && h.control < 4 && h.adaptation < 4 && h.counter < 16
    ensures (b / 128 % 2 == 1 <==> h.control >= 2) && (b / 64 % 2 == 1 <==> h.control % 2 == 1)
    ensures (b / 32 % 2 == 1 <==> h.adaptation >= 2) && (b / 16 % 2 == 1 <==> h.adaptation % 2 == 1)
    ensures b % 16 == h.counter && b % 64 == 16 * h.adaptation + h.counter
    ensures b / 64 == h.control && b / 16 % 4 == h.adaptation
  {
  }

  /** The fields that the code tests are those of the header. */
  lemma FieldsOf(p: Packet, h: Header)
    requires HasHeader(p, h)
    ensures Pid(p) == h.pid && (Pusi(p) <==> h.start) && Cc(p) == h.counter
    ensures (Scrambled(p) <==> h.control >= 2) && (Odd(p) <==> h.control % 2 == 1)
    ensures Offset(p) == if h.adaptation >= 2 then 4 + 1 + p[4] as int else 4
    ensures HasPayload(p) <==> h.adaptation % 2 == 1 && (h.adaptation >= 2 ==> p[4] as int <= 182)
  {
    FirstBytes(p[1] as int, p[2] as int, h);
    ThirdByte(p[3] as int, h);
    hide HasHeader;
    BitsOf(p[1]);
    BitsOf(p[3]);
  }

  /** Every packet has a header, and only one. */
  lemma EveryHeader(p: Packet) returns (h: Header)
    ensures HasHeader(p, h) && forall g :: HasHeader(p, g) ==> g == h
  {
    var a, b := p[1] as int, p[3] as int;
    h := Header(a / 128 % 2 == 1, a / 64 % 2 == 1, a / 32 % 2 == 1, a % 32 * 256 + p[2] as int, b / 64, b / 16 % 4, b % 16);
    Composed(a, b, p[2] as int, h);
    forall g | HasHeader(p, g) ensures g == h {
      SameHeader(p, g, h);
    }
  }

  lemma Composed(a: int, b: int, lo: int, h: Header)
    requires 0 <= a < 256 && 0 <= b < 256 && 0 <= lo < 256
    requires h == Header(a / 128 % 2 == 1, a / 64 % 2 == 1, a / 32 % 2 == 1, a % 32 * 256 + lo, b / 64, b / 16 % 4, b % 16)
    ensures a == Flag(h.error, 128) + Flag(h.start, 64) + Flag(h.priority, 32) + h.pid / 256 && lo == h.pid % 256
    ensures b == 64 * h.control + 16 * h.adaptation + h.counter
    ensures h.pid < 8192 && h.control < 4 && h.adaptation < 4 && h.counter < 16
  {
    assert h.pid / 256 == a % 32;
  }

  lemma SameHeader(p: Packet, g: Header, h: Header)
    requires HasHeader(p, g) && HasHeader(p, h)
    ensures g == h
  {
    FirstBytes(p[1] as int, p[2] as int, g);
    FirstBytes(p[1] as int, p[2] as int, h);
    ThirdByte(p[3] as int, g);
    ThirdByte(p[3] as int, h);
  }

  /** A decrypted packet keeps its header but for the scrambling control, which is 0. */
  lemma KeepsHeader(keys: Keys, p: Packet, h: Header)
    requires HasHeader(p, h)
    ensures HasHeader(DecryptOne(keys, p), if h.control >= 2 then h.(control := 0) else h)
    ensures DecryptOne(keys, p)[0] == p[0] && (h.adaptation >= 2 ==> DecryptOne(keys, p)[4] == p[4])
  {
    hide *;
    FieldsOf(p, h);
    if h.control >= 2 {
      var q := HeaderCleared(p);
      ClearedControl(p, h);
      FieldsOf(q, h.(control := 0));
      ClearedHeader(p);
      DecryptsHeader(keys, p);
      SameBytes(DecryptOne(keys, p), q, h.(control := 0));
    } else {
      LeftAlone(keys, p);
    }
  }

  lemma DecryptsHeader(keys: Keys, p: Packet)
    requires Scrambled(p)
    ensures forall i :: 0 <= i < 4 ==> DecryptOne(keys, p)[i] == HeaderCleared(p)[i]
    ensures Offset(HeaderCleared(p)) > 4 ==> DecryptOne(keys, p)[4] == HeaderCleared(p)[4]
  {
    hide Descrambled, HeaderCleared, Offset, Scrambled;
    DescrambledHeader(KeyFor(keys, p), HeaderCleared(p));
  }

  lemma LeftAlone(keys: Keys, p: Packet)
    requires !Scrambled(p)
    ensures DecryptOne(keys, p) == p
  {
  }

  lemma ClearedControl(p: Packet, h: Header)
    requires HasHeader(p, h)
    ensures HasHeader(HeaderCleared(p), h.(control := 0))
  {
    ThirdByte(p[3] as int, h);
    ClearedBytes(p);
    hide HeaderCleared;
  }

  lemma ClearedBytes(p: Packet)
    ensures HeaderCleared(p)[3] as int == p[3] as int % 64 && HeaderCleared(p)[1] == p[1] && HeaderCleared(p)[2] == p[2]
  {
    LowSix(p[3]);
  }

  lemma SameBytes(d: Packet, q: Packet, h: Header)
    requires HasHeader(q, h) && d[1] == q[1] && d[2] == q[2] && d[3] == q[3]
    ensures HasHeader(d, h)
  {
  }

  /** So counter, payload flag, payload start and PID are those of the packet received. */
  lemma KeepsFields(keys: Keys, p: Packet)
    ensures var d := DecryptOne(keys, p);
            Cc(d) == Cc(p) && HasPayload(d) == HasPayload(p) && Pusi(d) == Pusi(p) && Pid(d) == Pid(p) && Offset(d) == Offset(p)
  {
    hide DecryptOne, Cc, HasPayload, Pusi, Pid, Offset, HasHeader;
    var h := EveryHeader(p);
    KeepsHeader(keys, p, h);
    FieldsOf(p, h);
    FieldsOf(DecryptOne(keys, p), if h.control >= 2 then h.(control := 0) else h);
  }

  /** Bit by bit: of the fourth byte of a scrambled packet only the two upper bits go. */
  lemma ClearsTwoBits(keys: Keys, p: Packet, b: nat)
    requires Scrambled(p) && b < 8
    ensures BitAt(DecryptOne(keys, p)[3], b) == if b < 6 then BitAt(p[3], b) else false
  {
    hide Descrambled;
    DescrambledHeader(KeyFor(keys, p), HeaderCleared(p));
    SixBits(p[3], b);
  }

  /** Scrambling control 10 means the even key, 11 the odd one. */
  lemma KeyByParity(p: Packet, h: Header, even: Key, odd: Key, other: Key)
    requires HasHeader(p, h)
    ensures h.control == 2 ==> DecryptOne(Keys(even, odd), p) == DecryptOne(Keys(even, other), p)
    ensures h.control == 3 ==> DecryptOne(Keys(even, odd), p) == DecryptOne(Keys(other, odd), p)
    ensures h.control < 2 ==> DecryptOne(Keys(even, odd), p) == p
  {
    hide Descrambled;
    FieldsOf(p, h);
  }
}
