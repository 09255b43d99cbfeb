/** The tables that carry one 8-byte block of every packet into and out of the
    bit-sliced cipher, and the whole transposition applied to them. */
module SliceTables {
  import opened Bits
  import opened StreamGroup
  import opened StreamCipher
  import opened Transpose

  ghost predicate Traced(now: seq<Group>, was: seq<Group>, l: Layout, s: nat, top: nat, clockwise: bool)
    requires |now| == |was| == 64 && Span(s) && Span(top) && top < 64
  {
    forall r, h, k :: 0 <= r < 64 && 0 <= h < l.H && 0 <= k < l.W ==>
      CellTraced(now, was, l, s, top, clockwise, Place(r, k), h)
  }

  ghost predicate CellTraced(now: seq<Group>, was: seq<Group>, l: Layout, s: nat, top: nat, clockwise: bool, p: Place, h: nat)
    requires |now| == |was| == 64 && Span(s) && Span(top) && top < 64 && 0 <= p.r < 64
  {
    var q := Back(p, s, top, clockwise);
    0 <= q.r < 64 && Cell(now, l, p.r, h, p.k) == Cell(was, l, q.r, h, q.k)
  }

  /** The bits after the stages from top down to s, given those down to 2s. */
  lemma TracedNext(now: seq<Group>, mid: seq<Group>, was: seq<Group>, l: Layout, s: nat, top: nat, clockwise: bool)
    requires |now| == |mid| == |was| == 64 && l.Valid() && Span(s) && Span(top) && s <= top < l.W
    requires Staged(now, mid, l, s, TurnOf(s, clockwise)) && Traced(mid, was, l, 2 * s, top, clockwise)
    ensures Traced(now, was, l, s, top, clockwise)
  {
    hide Digit, WordOf, Put;
    forall r, h, k | 0 <= r < 64 && 0 <= h < l.H && 0 <= k < l.W
      ensures CellTraced(now, was, l, s, top, clockwise, Place(r, k), h)
    {
      var p := Place(r, k);
      var q := From(p, s, clockwise);
      assert RowStaged(now[r], mid, l, s, TurnOf(s, clockwise), r);
      assert BitStaged(now[r], mid, l, s, TurnOf(s, clockwise), r, h, k);
      BackInTable(p, s, s, clockwise, l.W);
      assert Back(p, s, s, clockwise) == q;
      assert CellTraced(mid, was, l, 2 * s, top, clockwise, Place(q.r, q.k), h);
    }
  }

  /** The table is the transposed old table. */
  ghost predicate Transposed(now: seq<Group>, was: seq<Group>, l: Layout, clockwise: bool)
    requires |now| == |was| == 64
  {
    forall r, h, k :: 0 <= r < 64 && 0 <= h < l.H && 0 <= k < l.W ==> CellTransposed(now, was, l, clockwise, Place(r, k), h)
  }

  ghost predicate CellTransposed(now: seq<Group>, was: seq<Group>, l: Layout, clockwise: bool, p: Place, h: nat)
    requires |now| == |was| == 64 && 0 <= p.r < 64
  {
    var q := Source(p, l.W, clockwise);
    0 <= q.r < 64 && Cell(now, l, p.r, h, p.k) == Cell(was, l, q.r, h, q.k)
  }

  lemma TracedIsTransposed(now: seq<Group>, was: seq<Group>, l: Layout, clockwise: bool)
    requires |now| == |was| == 64 && l.Valid() && Traced(now, was, l, 1, l.W / 2, clockwise)
    ensures Transposed(now, was, l, clockwise)
  {
    hide Back, Source, Cell;
    forall r, h, k | 0 <= r < 64 && 0 <= h < l.H && 0 <= k < l.W
      ensures CellTransposed(now, was, l, clockwise, Place(r, k), h)
    {
      BackIsSource(Place(r, k), l.W, clockwise);
      assert CellTraced(now, was, l, 1, l.W / 2, clockwise, Place(r, k), h);
    }
  }

  /** Transposes the table in place, stage by stage. */
  method Trasp(tab: array<Group>, l: Layout, clockwise: bool)
    requires tab.Length == 64 && l.Valid()
    modifies tab
    ensures Transposed(tab[..], old(tab[..]), l, clockwise)
  {
    hide Staged, Traced, Transposed;
    ghost var was := tab[..];
    ghost var top := l.W / 2;
    StartTraced(was, l, clockwise);
    var turn := if clockwise then Clockwise else CounterClockwise;
    if l.W == 64 {
      Stage(tab, l, 32, Straight);
      TracedNext(tab[..], was, was, l, 32, top, clockwise);
    }
    ghost var t := tab[..];
    Stage(tab, l, 16, Straight);
    TracedNext(tab[..], t, was, l, 16, top, clockwise);
    t := tab[..];
    Stage(tab, l, 8, Straight);
    TracedNext(tab[..], t, was, l, 8, top, clockwise);
    t := tab[..];
    Stage(tab, l, 4, turn);
    TracedNext(tab[..], t, was, l, 4, top, clockwise);
    t := tab[..];
    Stage(tab, l, 2, turn);
    TracedNext(tab[..], t, was, l, 2, top, clockwise);
    t := tab[..];
    Stage(tab, l, 1, turn);
    TracedNext(tab[..], t, was, l, 1, top, clockwise);
    TracedIsTransposed(tab[..], was, l, clockwise);
  }

  lemma StartTraced(was: seq<Group>, l: Layout, clockwise: bool)
    requires |was| == 64 && l.Valid()
    ensures Traced(was, was, l, l.W, l.W / 2, clockwise)
  {
  }

  /** Clockwise undoes counterclockwise, and the other way round. */
  lemma TransposeBack(a: seq<Group>, b: seq<Group>, c: seq<Group>, l: Layout, clockwise: bool)
    requires |a| == |b| == |c| == 64 && l.Valid()
    requires Transposed(b, a, l, clockwise) && Transposed(c, b, l, !clockwise)
    ensures forall r, h :: 0 <= r < 64 && 0 <= h < l.H ==> WordOf(l, c[r], h) == WordOf(l, a[r], h)
  {
    hide Flip, PartOf;
    forall r, h | 0 <= r < 64 && 0 <= h < l.H ensures WordOf(l, c[r], h) == WordOf(l, a[r], h) {
      forall k | 0 <= k < l.W ensures k in WordOf(l, c[r], h) <==> k in WordOf(l, a[r], h) {
        var p := Place(r, k);
        var q := Source(p, l.W, !clockwise);
        SourceBack(p, l.W, clockwise);
        assert CellTransposed(c, b, l, !clockwise, Place(r, k), h);
        assert CellTransposed(b, a, l, clockwise, Place(q.r, q.k), h);
      }
      assert forall k :: k in WordOf(l, c[r], h) <==> k in WordOf(l, a[r], h);
    }
  }

  lemma SourceBack(p: Place, W: nat, clockwise: bool)
    requires (W == 32 || W == 64) && 0 <= p.r < 64 && 0 <= p.k < W
    ensures var q := Source(p, W, !clockwise);
            0 <= q.r < 64 && 0 <= q.k < W && Source(q, W, clockwise) == p
  {
    hide Flip;
    var part := PartOf(p.r, W);
    FlipFlip(p.k);
    FlipFlip(p.r - part);
    FlipRoom(p.k, W);
    FlipRoom(p.r - part, W);
  }

  /** Packet g has its own word (or two) in the table: the row, and the half of it. */
  function RowOf(l: Layout, g: nat): nat { if l.H == 2 then g / 2 else g }

  function HalfOf(l: Layout, g: nat): nat { if l.H == 2 then g % 2 else 0 }

  /** The lane of packet g in bit-sliced form. */
  function LaneOf(l: Layout, g: nat): int { Pos(l, HalfOf(l, g), Flip(RowOf(l, g))) }

  /** Bit b of byte k of the block of packet g. */
  predicate PacketBit(rows: seq<Group>, l: Layout, g: nat, k: nat, b: nat)
    requires |rows| == 64 && l.Valid() && g < l.Lanes() && k < 8 && b < 8
  {
    var p := 8 * k + b;
    Cell(rows, l, RowOf(l, g) + PartOf(p, l.W), HalfOf(l, g), p - PartOf(p, l.W))
  }

  function PacketByte(rows: seq<Group>, l: Layout, g: nat, k: nat): (x: bv8)
    requires |rows| == 64 && l.Valid() && g < l.Lanes() && k < 8
    ensures forall b :: 0 <= b < 8 ==> BitAt(x, b) == PacketBit(rows, l, g, k, b)
  {
    FromBits(seq(8, b requires 0 <= b < 8 => PacketBit(rows, l, g, k, b)))
  }

  /** The block of packet g in the table. */
  function PacketBlock(rows: seq<Group>, l: Layout, g: nat): Block
    requires |rows| == 64 && l.Valid() && g < l.Lanes()
  {
    seq(8, k requires 0 <= k < 8 => PacketByte(rows, l, g, k))
  }

  /** Little-endian: the bits of len bytes of the block, from byte start on. */
  function WordFrom(data: Block, start: nat, len: nat): (x: Word)
    requires start + len <= 8
    ensures forall k {:trigger k in x} :: k in x <==> 0 <= k < 8 * len && BitAt(data[start + k / 8], k % 8)
  {
    set k | 0 <= k < 8 * len && BitAt(data[start + k / 8], k % 8)
  }

  /** The words of packet g are the little-endian form of its block. */
  ghost predicate Holds(rows: seq<Group>, l: Layout, g: nat, data: Block)
    requires |rows| == 64 && l.Valid() && g < l.Lanes()
  {
    if l.W == 32 then
      WordOf(l, rows[g], 0) == WordFrom(data, 0, 4) && WordOf(l, rows[32 + g], 0) == WordFrom(data, 4, 4)
    else
      WordOf(l, rows[RowOf(l, g)], HalfOf(l, g)) == WordFrom(data, 0, 8)
  }

  lemma BitOfWords(rows: seq<Group>, l: Layout, g: nat, data: Block, k: nat, b: nat)
    requires |rows| == 64 && l.Valid() && g < l.Lanes() && k < 8 && b < 8 && Holds(rows, l, g, data)
    ensures PacketBit(rows, l, g, k, b) == BitAt(data[k], b)
  {
    hide BitAt, WordOf;
    var p := 8 * k + b;
    if l.W == 32 && k >= 4 {
      assert p - 32 in WordFrom(data, 4, 4) <==> BitAt(data[4 + (p - 32) / 8], (p - 32) % 8);
      assert (p - 32) / 8 == k - 4 && (p - 32) % 8 == b;
    } else {
      assert p / 8 == k && p % 8 == b;
    }
  }

  lemma BlockOfWords(rows: seq<Group>, l: Layout, g: nat, data: Block)
    requires |rows| == 64 && l.Valid() && g < l.Lanes() && Holds(rows, l, g, data)
    ensures PacketBlock(rows, l, g) == data
  {
    hide FromBits, Holds, PacketBit;
    forall k | 0 <= k < 8 ensures PacketByte(rows, l, g, k) == data[k] {
      forall b | 0 <= b < 8 ensures PacketBit(rows, l, g, k, b) == BitAt(data[k], b) {
        BitOfWords(rows, l, g, data, k, b);
      }
      SameBits(PacketByte(rows, l, g, k), data[k]);
    }
  }

  lemma SameWords(now: seq<Group>, was: seq<Group>, l: Layout, g: nat)
    requires |now| == |was| == 64 && l.Valid() && g < l.Lanes()
    requires WordOf(l, now[RowOf(l, g)], HalfOf(l, g)) == WordOf(l, was[RowOf(l, g)], HalfOf(l, g))
    requires l.W == 32 ==> WordOf(l, now[32 + g], 0) == WordOf(l, was[32 + g], 0)
    ensures PacketBlock(now, l, g) == PacketBlock(was, l, g)
  {
    hide FromBits, WordOf;
    forall k | 0 <= k < 8 ensures PacketByte(now, l, g, k) == PacketByte(was, l, g, k) {
      SameBits(PacketByte(now, l, g, k), PacketByte(was, l, g, k));
    }
  }

  /** Stores the block of packet g: as two ints 32 rows apart, or as one word. */
  method TableIn(tab: array<Group>, l: Layout, g: nat, data: Block)
    requires tab.Length == 64 && l.Valid() && g < l.Lanes()
    modifies tab
    ensures PacketBlock(tab[..], l, g) == data
    ensures forall other :: 0 <= other < l.Lanes() && other != g ==>
              PacketBlock(tab[..], l, other) == PacketBlock(old(tab[..]), l, other)
  {
    hide PacketBlock, WithWord, WordOf, WordFrom;
    ghost var was := tab[..];
    if l.W == 32 {
      tab[g] := WithWord(l, tab[g], 0, WordFrom(data, 0, 4));
      tab[32 + g] := WithWord(l, tab[32 + g], 0, WordFrom(data, 4, 4));
    } else {
      tab[RowOf(l, g)] := WithWord(l, tab[RowOf(l, g)], HalfOf(l, g), WordFrom(data, 0, 8));
    }
    BlockOfWords(tab[..], l, g, data);
    forall other | 0 <= other < l.Lanes() && other != g
      ensures PacketBlock(tab[..], l, other) == PacketBlock(was, l, other)
    {
      SameWords(tab[..], was, l, other);
    }
  }

  /** Byte k of the block of packet g where the byte address finds it: in the
      32-bit layout the second int lies 32 rows further on. */
  function TableByte(rows: seq<Group>, l: Layout, g: nat, k: nat): bv8
    requires |rows| == 64 && l.Valid() && g < l.Lanes() && k < 8
  {
    var row := if l.W == 32 then g + (if k >= 4 then 32 else 0) else RowOf(l, g);
    var at := if l.W == 32 && k >= 4 then k - 4 else k;
    FromBits(seq(8, b requires 0 <= b < 8 => 8 * at + b in WordOf(l, rows[row], HalfOf(l, g))))
  }

  lemma TableByteIs(rows: seq<Group>, l: Layout, g: nat, k: nat)
    requires |rows| == 64 && l.Valid() && g < l.Lanes() && k < 8
    ensures TableByte(rows, l, g, k) == PacketBlock(rows, l, g)[k]
  {
    hide FromBits, WordOf;
    var row := if l.W == 32 then g + (if k >= 4 then 32 else 0) else RowOf(l, g);
    var at := if l.W == 32 && k >= 4 then k - 4 else k;
    var bits := seq(8, b requires 0 <= b < 8 => 8 * at + b in WordOf(l, rows[row], HalfOf(l, g)));
    forall b | 0 <= b < 8 ensures bits[b] == PacketBit(rows, l, g, k, b) {
    }
    SameBits(TableByte(rows, l, g, k), PacketByte(rows, l, g, k));
  }

  /** Loads the block of packet g. */
  method TableOut(tab: array<Group>, l: Layout, g: nat) returns (data: Block)
    requires tab.Length == 64 && l.Valid() && g < l.Lanes()
    ensures data == PacketBlock(tab[..], l, g)
  {
    hide TableByte, PacketByte;
    var rows := tab[..];
    data := seq(8, k requires 0 <= k < 8 => TableByte(rows, l, g, k));
    forall k | 0 <= k < 8 ensures data[k] == PacketByte(rows, l, g, k) {
      TableByteIs(rows, l, g, k);
    }
  }

  /** In the 64 rows after the counterclockwise transposition the lane of packet
      g holds the block that the table held. */
  lemma IntoLane(now: seq<Group>, was: seq<Group>, l: Layout, g: nat)
    requires |now| == |was| == 64 && l.Valid() && g < l.Lanes() && Transposed(now, was, l, false)
    ensures 0 <= LaneOf(l, g) < l.Lanes()
    ensures LaneBlock(now, LaneOf(l, g)) == PacketBlock(was, l, g)
  {
    hide FromBits, Flip;
    FlipRoom(RowOf(l, g), l.W);
    FlipFlip(RowOf(l, g));
    forall k | 0 <= k < 8 ensures LaneByte(now, k, LaneOf(l, g)) == PacketByte(was, l, g, k) {
      forall b | 0 <= b < 8 ensures (LaneOf(l, g) in now[8 * k + b]) == PacketBit(was, l, g, k, b) {
        assert CellTransposed(now, was, l, false, Place(8 * k + b, Flip(RowOf(l, g))), HalfOf(l, g));
      }
      SameBits(LaneByte(now, k, LaneOf(l, g)), PacketByte(was, l, g, k));
    }
  }

  /** After the clockwise transposition the table holds what the lane of packet
      g held in the 64 rows. */
  lemma OutOfLane(now: seq<Group>, was: seq<Group>, l: Layout, g: nat)
    requires |now| == |was| == 64 && l.Valid() && g < l.Lanes() && Transposed(now, was, l, true)
    ensures 0 <= LaneOf(l, g) < l.Lanes()
    ensures PacketBlock(now, l, g) == LaneBlock(was, LaneOf(l, g))
  {
    hide FromBits, Flip;
    FlipRoom(RowOf(l, g), l.W);
    forall k | 0 <= k < 8 ensures PacketByte(now, l, g, k) == LaneByte(was, k, LaneOf(l, g)) {
      forall b | 0 <= b < 8 ensures PacketBit(now, l, g, k, b) == (LaneOf(l, g) in was[8 * k + b]) {
        var p := 8 * k + b;
        var part := PartOf(p, l.W);
        assert CellTransposed(now, was, l, true, Place(RowOf(l, g) + part, p - part), HalfOf(l, g));
      }
      SameBits(PacketByte(now, l, g, k), LaneByte(was, k, LaneOf(l, g)));
    }
  }
}
