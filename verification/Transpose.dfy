/** The conversion between packets side by side and bits side by side: 64 rows
    of 32, 64 or 128 bits, transposed in place by exchanging ever smaller squares. */
module Transpose {
  import opened StreamGroup

  /** A layout of the tables: words of W bits, H of them in a row, one lane a bit. */
  datatype Layout = Layout(W: nat, H: nat)
  {
    predicate Valid() { (W == 32 && H == 1) || (W == 64 && H == 1) || (W == 64 && H == 2) }

    function Lanes(): nat { if H == 1 then W else 2 * W }
  }

  /** Bit k of the h-th word of a row, counted from the start of the row. */
  function Pos(l: Layout, h: nat, k: int): int { if h == 0 then k else l.W + k }

  /** A word is the set of its bits that are 1. */
  type Word = set<int>

  function WordOf(l: Layout, row: Group, h: nat): (x: Word)
    ensures forall k :: k in x <==> 0 <= k < l.W && Pos(l, h, k) in row
  {
    set k | 0 <= k < l.W && Pos(l, h, k) in row
  }

  function WithWord(l: Layout, row: Group, h: nat, x: Word): (r: Group)
    requires l.Valid() && h < l.H && forall k :: k in x ==> 0 <= k < l.W
    ensures WordOf(l, r, h) == x
    ensures forall other :: 0 <= other < l.H && other != h ==> WordOf(l, r, other) == WordOf(l, row, other)
  {
    var kept := set c | c in row && !(Pos(l, h, 0) <= c < Pos(l, h, l.W));
    var put := set k | k in x :: Pos(l, h, k);
    assert forall k :: k in x ==> Pos(l, h, k) in put;
    kept + put
  }

  function Shl(x: Word, s: nat, W: nat): (y: Word)
    ensures forall k {:trigger k in y} :: k in y <==> 0 <= k < W && k - s in x
  {
    set k {:trigger k - s} | 0 <= k < W && k - s in x
  }

  function Shr(x: Word, s: nat, W: nat): (y: Word)
    ensures forall k {:trigger k in y} :: k in y <==> 0 <= k < W && k + s in x
  {
    set k {:trigger k + s} | 0 <= k < W && k + s in x
  }

  predicate Span(s: nat) { s == 1 || s == 2 || s == 4 || s == 8 || s == 16 || s == 32 || s == 64 }

  /** The binary digit of x that has weight s. */
  function Digit(x: int, s: nat): (d: int)
    requires Span(s)
    ensures d == 0 || d == 1
    decreases s
  {
    if s == 1 then x % 2 else Digit(x / 2, s / 2)
  }

  /** The masks 0x0000ffff, 0x00ff00ff, 0x0f0f0f0f, ... and their complements. */
  function LowMask(s: nat, W: nat): (m: Word)
    requires Span(s)
    ensures forall k :: k in m <==> 0 <= k < W && Digit(k, s) == 0
  {
    set k | 0 <= k < W && Digit(k, s) == 0
  }

  function HighMask(s: nat, W: nat): (m: Word)
    requires Span(s)
    ensures forall k :: k in m <==> 0 <= k < W && Digit(k, s) == 1
  {
    set k | 0 <= k < W && Digit(k, s) == 1
  }

  /** How a stage exchanges the squares: straight, or turning the pair. */
  datatype Turn = Straight | CounterClockwise | Clockwise

  function Top(t: Word, b: Word, s: nat, W: nat, turn: Turn): Word
    requires Span(s)
  {
    match turn
    case Straight => (t * LowMask(s, W)) + Shl(if 2 * s == W then b else b * LowMask(s, W), s, W)
    case CounterClockwise => Shl(t * LowMask(s, W), s, W) + (b * LowMask(s, W))
    case Clockwise => Shr(t * HighMask(s, W), s, W) + (b * HighMask(s, W))
  }

  function Bottom(t: Word, b: Word, s: nat, W: nat, turn: Turn): Word
    requires Span(s)
  {
    match turn
    case Straight => Shr(if 2 * s == W then t else t * HighMask(s, W), s, W) + (b * HighMask(s, W))
    case CounterClockwise => (t * HighMask(s, W)) + Shr(b * HighMask(s, W), s, W)
    case Clockwise => (t * LowMask(s, W)) + Shl(b * LowMask(s, W), s, W)
  }

  /** Exchanging a bit with its partner: where digit s of the row and of the
      column of the new bit send it to in the old rows. */
  function OldRowDigit(rowDigit: int, colDigit: int, turn: Turn): int {
    match turn
    case CounterClockwise => 1 - colDigit
    case _ => colDigit
  }

  function OldColDigit(rowDigit: int, colDigit: int, turn: Turn): int {
    match turn
    case Clockwise => 1 - rowDigit
    case _ => rowDigit
  }

  function Put(x: int, s: nat, d: int): int
    requires Span(s)
  {
    if d == Digit(x, s) then x else if d == 1 then x + s else x - s
  }

  /** Adding or removing weight s flips the digit of weight s. */
  lemma {:induction false} MoveDigit(k: int, s: nat)
    requires Span(s)
    ensures Digit(k + s, s) == Digit(k - s, s) == 1 - Digit(k, s)
    decreases s
  {
    if s > 1 {
      assert (k + s) / 2 == k / 2 + s / 2 && (k - s) / 2 == k / 2 - s / 2;
      MoveDigit(k / 2, s / 2);
    }
  }

  /** Digits of a number below W, a larger power of two. */
  lemma {:induction false} DigitRoom(k: int, s: nat, W: nat)
    requires Span(s) && Span(W) && s < W && 0 <= k < W
    ensures Digit(k, s) == 0 ==> k + s < W
    ensures Digit(k, s) == 1 ==> s <= k
    ensures 2 * s == W ==> Digit(k, s) == if k < s then 0 else 1
    decreases s
  {
    if s > 1 {
      DigitRoom(k / 2, s / 2, W / 2);
    }
  }

  predicate IsWord(x: Word, W: nat) { forall k :: k in x ==> 0 <= k < W }

  /** Bit k of the upper word of a pair after a stage. */
  lemma TopBit(t: Word, b: Word, s: nat, W: nat, turn: Turn, k: int)
    requires Span(s) && Span(W) && s < W && 0 <= k < W && IsWord(t, W) && IsWord(b, W)
    ensures var d := Digit(k, s);
            (k in Top(t, b, s, W, turn)) ==
            (Put(k, s, OldColDigit(0, d, turn)) in if OldRowDigit(0, d, turn) == 0 then t else b)
  {
    hide Digit, LowMask, HighMask;
    MoveDigit(k, s);
    DigitRoom(k, s, W);
    match turn {
      case Straight =>
      case CounterClockwise =>
      case Clockwise =>
    }
  }

  /** Bit k of the lower word of a pair after a stage. */
  lemma BottomBit(t: Word, b: Word, s: nat, W: nat, turn: Turn, k: int)
    requires Span(s) && Span(W) && s < W && 0 <= k < W && IsWord(t, W) && IsWord(b, W)
    ensures var d := Digit(k, s);
            (k in Bottom(t, b, s, W, turn)) ==
            (Put(k, s, OldColDigit(1, d, turn)) in if OldRowDigit(1, d, turn) == 0 then t else b)
  {
    hide Digit, LowMask, HighMask;
    MoveDigit(k, s);
    DigitRoom(k, s, W);
    match turn {
      case Straight =>
      case CounterClockwise =>
      case Clockwise =>
    }
  }

  /** Bit k of the h-th word of row r. */
  predicate Cell(rows: seq<Group>, l: Layout, r: int, h: nat, k: int)
    requires 0 <= r < |rows|
  {
    k in WordOf(l, rows[r], h)
  }

  function OldRow(r: int, k: int, s: nat, turn: Turn): int
    requires Span(s)
  {
    Put(r, s, OldRowDigit(Digit(r, s), Digit(k, s), turn))
  }

  function OldCol(r: int, k: int, s: nat, turn: Turn): int
    requires Span(s)
  {
    Put(k, s, OldColDigit(Digit(r, s), Digit(k, s), turn))
  }

  /** Bit (h, k) of row r comes from where the digits say. */
  ghost predicate BitStaged(row: Group, rows: seq<Group>, l: Layout, s: nat, turn: Turn, r: int, h: nat, k: int)
    requires Span(s) && |rows| == 64
  {
    var from := OldRow(r, k, s, turn);
    0 <= from < 64 && ((k in WordOf(l, row, h)) == Cell(rows, l, from, h, OldCol(r, k, s, turn)))
  }

  /** What a stage does to row r. */
  ghost predicate RowStaged(row: Group, rows: seq<Group>, l: Layout, s: nat, turn: Turn, r: int)
    requires Span(s) && |rows| == 64
  {
    forall h, k :: 0 <= h < l.H && 0 <= k < l.W ==> BitStaged(row, rows, l, s, turn, r, h, k)
  }

  ghost predicate Staged(now: seq<Group>, was: seq<Group>, l: Layout, s: nat, turn: Turn)
    requires Span(s) && |now| == |was| == 64
  {
    forall r :: 0 <= r < 64 ==> RowStaged(now[r], was, l, s, turn, r)
  }

  /** The rows r and low, whose words are exchanged with each other. */
  method ExchangePair(tab: array<Group>, l: Layout, s: nat, turn: Turn, r: nat, low: nat)
    requires tab.Length == 64 && l.Valid() && Span(s) && s < l.W && low == r + s < 64 && Digit(r, s) == 0
    modifies tab
    ensures forall other :: 0 <= other < 64 && other != r && other != low ==> tab[other] == old(tab[other])
    ensures RowStaged(tab[r], old(tab[..]), l, s, turn, r)
    ensures RowStaged(tab[low], old(tab[..]), l, s, turn, low)
  {
    hide Digit, Top, Bottom, WithWord;
    ghost var was, t0, b0 := tab[..], tab[r], tab[low];
    for h := 0 to l.H
      invariant forall other :: 0 <= other < 64 && other != r && other != low ==> tab[other] == was[other]
      invariant forall g {:trigger WordOf(l, tab[r], g)} :: h <= g < l.H ==> WordOf(l, tab[r], g) == WordOf(l, t0, g)
      invariant forall g {:trigger WordOf(l, tab[low], g)} :: h <= g < l.H ==> WordOf(l, tab[low], g) == WordOf(l, b0, g)
      invariant forall g {:trigger WordOf(l, tab[r], g)} :: 0 <= g < h ==>
                  WordOf(l, tab[r], g) == Top(WordOf(l, t0, g), WordOf(l, b0, g), s, l.W, turn)
      invariant forall g {:trigger WordOf(l, tab[low], g)} :: 0 <= g < h ==>
                  WordOf(l, tab[low], g) == Bottom(WordOf(l, t0, g), WordOf(l, b0, g), s, l.W, turn)
    {
      var t, b := WordOf(l, tab[r], h), WordOf(l, tab[low], h);
      WordsStay(t, b, s, l.W, turn);
      tab[r] := WithWord(l, tab[r], h, Top(t, b, s, l.W, turn));
      tab[low] := WithWord(l, tab[low], h, Bottom(t, b, s, l.W, turn));
    }
    forall h, k | 0 <= h < l.H && 0 <= k < l.W
      ensures BitStaged(tab[r], was, l, s, turn, r, h, k)
      ensures BitStaged(tab[low], was, l, s, turn, low, h, k)
    {
      MoveDigit(r, s);
      TopBit(WordOf(l, t0, h), WordOf(l, b0, h), s, l.W, turn, k);
      BottomBit(WordOf(l, t0, h), WordOf(l, b0, h), s, l.W, turn, k);
    }
  }

  lemma WordsStay(t: Word, b: Word, s: nat, W: nat, turn: Turn)
    requires Span(s) && IsWord(t, W) && IsWord(b, W)
    ensures IsWord(Top(t, b, s, W, turn), W) && IsWord(Bottom(t, b, s, W, turn), W)
  {
    hide Digit;
  }

  /** j is a multiple of 2s. */
  predicate Aligned(j: nat, s: nat)
    requires Span(s)
    decreases s
  {
    j % 2 == 0 && (s == 1 || Aligned(j / 2, s / 2))
  }

  lemma {:induction false} AlignedNext(j: nat, s: nat, R: nat)
    requires Span(s) && Span(R) && s < R && Aligned(j, s) && j < R
    ensures Aligned(j + 2 * s, s) && j + 2 * s <= R
    decreases s
  {
    if s > 1 {
      AlignedNext(j / 2, s / 2, R / 2);
      assert (j + 2 * s) / 2 == j / 2 + 2 * (s / 2);
    }
  }

  /** The s rows that follow a multiple of 2s are the upper rows of the pairs. */
  lemma {:induction false} UpperRow(j: nat, s: nat, i: nat)
    requires Span(s) && Aligned(j, s) && i < s
    ensures Digit(j + i, s) == 0
    decreases s
  {
    if s > 1 {
      UpperRow(j / 2, s / 2, i / 2);
      assert (j + i) / 2 == j / 2 + i / 2;
    }
  }

  lemma {:induction false} AlignedZero(s: nat)
    requires Span(s)
    ensures Aligned(0, s)
    decreases s
  {
    if s > 1 {
      AlignedZero(s / 2);
    }
  }

  /** A staged row depends on its pair of rows only. */
  lemma StagedByPair(row: Group, rows: seq<Group>, was: seq<Group>, l: Layout, s: nat, turn: Turn, r: nat, low: nat, x: nat)
    requires Span(s) && |rows| == |was| == 64 && Digit(r, s) == 0 && low == r + s < 64 && (x == r || x == low)
    requires rows[r] == was[r] && rows[low] == was[low]
    requires RowStaged(row, rows, l, s, turn, x)
    ensures RowStaged(row, was, l, s, turn, x)
  {
    hide Digit;
    MoveDigit(r, s);
    forall h, k | 0 <= h < l.H && 0 <= k < l.W
      ensures BitStaged(row, was, l, s, turn, x, h, k)
    {
      assert BitStaged(row, rows, l, s, turn, x, h, k);
    }
  }

  /** One stage: all pairs of rows whose numbers differ in the digit of weight s. */
  method Stage(tab: array<Group>, l: Layout, s: nat, turn: Turn)
    requires tab.Length == 64 && l.Valid() && Span(s) && s < l.W
    modifies tab
    ensures Staged(tab[..], old(tab[..]), l, s, turn)
  {
    hide Digit, Aligned, RowStaged;
    ghost var was := tab[..];
    var j := 0;
    AlignedZero(s);
    while j < 64
      invariant j <= 64 && Aligned(j, s)
      invariant forall r :: 0 <= r < j ==> RowStaged(tab[r], was, l, s, turn, r)
      invariant forall r :: j <= r < 64 ==> tab[r] == was[r]
    {
      AlignedNext(j, s, 64);
      for i := 0 to s
        invariant forall r :: 0 <= r < j + i || j + s <= r < j + s + i ==> RowStaged(tab[r], was, l, s, turn, r)
        invariant forall r :: j + i <= r < j + s || j + s + i <= r < 64 ==> tab[r] == was[r]
      {
        UpperRow(j, s, i);
        ghost var rows := tab[..];
        ExchangePair(tab, l, s, turn, j + i, j + s + i);
        StagedByPair(tab[j + i], rows, was, l, s, turn, j + i, j + s + i, j + i);
        StagedByPair(tab[j + s + i], rows, was, l, s, turn, j + i, j + s + i, j + s + i);
      }
      j := j + 2 * s;
    }
  }

  /** A bit of the table: row and position in the word. */
  datatype Place = Place(r: int, k: int)

  function TurnOf(s: nat, clockwise: bool): Turn {
    if s >= 8 then Straight else if clockwise then Clockwise else CounterClockwise
  }

  function From(p: Place, s: nat, clockwise: bool): Place
    requires Span(s)
  {
    Place(OldRow(p.r, p.k, s, TurnOf(s, clockwise)), OldCol(p.r, p.k, s, TurnOf(s, clockwise)))
  }

  /** Where a bit was before the stages top, top/2, ..., s. */
  function Back(p: Place, s: nat, top: nat, clockwise: bool): Place
    requires Span(s) && Span(top) && top < 64
    decreases 64 - s
  {
    if s > top then p else Back(From(p, s, clockwise), 2 * s, top, clockwise)
  }

  /** Changing the digit of weight s leaves the other digits alone. */
  lemma {:induction false} PutDigit(x: int, s: nat, d: int, u: nat)
    requires Span(s) && Span(u) && (d == 0 || d == 1)
    ensures Digit(Put(x, s, d), u) == if u == s then d else Digit(x, u)
    decreases s
  {
    if s == 1 {
      assert u > 1 ==> Put(x, s, d) / 2 == x / 2;
    } else {
      assert Put(x, s, d) % 2 == x % 2;
      assert Put(x, s, d) / 2 == Put(x / 2, s / 2, d);
      if u > 1 {
        PutDigit(x / 2, s / 2, d, u / 2);
      }
    }
  }

  /** The digits of the place a bit comes from. */
  lemma {:induction false} BackDigits(p: Place, s: nat, top: nat, clockwise: bool, u: nat)
    requires Span(s) && Span(top) && top < 64 && Span(u)
    ensures var q := Back(p, s, top, clockwise);
            if s <= u <= top then
              && Digit(q.r, u) == OldRowDigit(Digit(p.r, u), Digit(p.k, u), TurnOf(u, clockwise))
              && Digit(q.k, u) == OldColDigit(Digit(p.r, u), Digit(p.k, u), TurnOf(u, clockwise))
            else
              Digit(q.r, u) == Digit(p.r, u) && Digit(q.k, u) == Digit(p.k, u)
    decreases 64 - s
  {
    hide Digit, Put;
    if s <= top {
      var turn := TurnOf(s, clockwise);
      PutDigit(p.r, s, OldRowDigit(Digit(p.r, s), Digit(p.k, s), turn), u);
      PutDigit(p.k, s, OldColDigit(Digit(p.r, s), Digit(p.k, s), turn), u);
      BackDigits(From(p, s, clockwise), 2 * s, top, clockwise, u);
    }
  }

  lemma {:induction false} BackInTable(p: Place, s: nat, top: nat, clockwise: bool, W: nat)
    requires Span(s) && Span(top) && Span(W) && top < W && 0 <= p.r < 64 && 0 <= p.k < W
    ensures var q := Back(p, s, top, clockwise); 0 <= q.r < 64 && 0 <= q.k < W
    decreases 64 - s
  {
    hide Digit;
    if s <= top {
      DigitRoom(p.r, s, 64);
      DigitRoom(p.k, s, W);
      BackInTable(From(p, s, clockwise), 2 * s, top, clockwise, W);
    }
  }

  /** Numbers below 64 with the same digits are equal. */
  lemma SameDigits(x: int, y: int)
    requires 0 <= x < 64 && 0 <= y < 64
    requires forall u :: Span(u) && u < 64 ==> Digit(x, u) == Digit(y, u)
    ensures x == y
  {
    assert Digit(x, 1) == Digit(y, 1) && Digit(x, 2) == Digit(y, 2) && Digit(x, 4) == Digit(y, 4);
    assert Digit(x, 8) == Digit(y, 8) && Digit(x, 16) == Digit(y, 16) && Digit(x, 32) == Digit(y, 32);
    ByDigits(x);
    ByDigits(y);
  }

  lemma ByDigits(x: int)
    requires 0 <= x < 64
    ensures x == Digit(x, 1) + 2 * Digit(x, 2) + 4 * Digit(x, 4) + 8 * Digit(x, 8) + 16 * Digit(x, 16) + 32 * Digit(x, 32)
  {
    assert Digit(x, 1) == x % 2;
    assert Digit(x, 2) == x / 2 % 2;
    assert Digit(x, 4) == Digit(x / 2, 2) == x / 2 / 2 % 2;
    assert Digit(x, 8) == Digit(x / 2, 4) == Digit(x / 2 / 2, 2) == x / 2 / 2 / 2 % 2;
    assert Digit(x, 16) == Digit(x / 2, 8) == Digit(x / 2 / 2, 4) == Digit(x / 2 / 2 / 2, 2) == x / 2 / 2 / 2 / 2 % 2;
    assert Digit(x, 32) == Digit(x / 2, 16) == Digit(x / 2 / 2, 8) == Digit(x / 2 / 2 / 2, 4) == Digit(x / 2 / 2 / 2 / 2, 2);
  }

  function InvertDigit(k: int, s: nat): int
    requires Span(s)
  {
    Put(k, s, 1 - Digit(k, s))
  }

  /** The number with its three lowest bits inverted: k xor 7. */
  function Flip(k: int): int { InvertDigit(InvertDigit(InvertDigit(k, 1), 2), 4) }

  lemma FlipDigits(k: int, u: nat)
    requires Span(u)
    ensures Digit(Flip(k), u) == if u < 8 then 1 - Digit(k, u) else Digit(k, u)
  {
    hide Digit, Put;
    var k1 := InvertDigit(k, 1);
    var k2 := InvertDigit(k1, 2);
    PutDigit(k, 1, 1 - Digit(k, 1), 2);
    PutDigit(k, 1, 1 - Digit(k, 1), 4);
    PutDigit(k1, 2, 1 - Digit(k1, 2), 4);
    PutDigit(k, 1, 1 - Digit(k, 1), u);
    PutDigit(k1, 2, 1 - Digit(k1, 2), u);
    PutDigit(k2, 4, 1 - Digit(k2, 4), u);
  }

  /** Row 0 to 63 of the table seen as words of W bits: the word in the row's
      part of the table and the part. */
  function PartOf(r: int, W: nat): int { if W == 32 && r >= 32 then 32 else 0 }

  /** Where the bits come from: the conversion to bit slices reads them from the
      word whose number is the flipped column, the conversion back inverts that. */
  function Source(p: Place, W: nat, clockwise: bool): Place {
    var part := PartOf(p.r, W);
    if clockwise then Place(part + p.k, Flip(p.r - part)) else Place(part + Flip(p.k), p.r - part)
  }

  lemma PartDigits(r: int, k: int, W: nat, u: nat)
    requires (W == 32 || W == 64) && Span(u) && u < 64 && 0 <= r < 64 && 0 <= k < W
    ensures Digit(PartOf(r, W) + k, u) == if u < W then Digit(k, u) else Digit(r, u)
    ensures Digit(r - PartOf(r, W), u) == if u < W then Digit(r, u) else 0
    ensures 0 <= r - PartOf(r, W) < W
  {
    if W == 32 {
      DigitRoom(r, 32, 64);
      DigitRoom(k, 32, 64);
      MoveDigit(k, 32);
      MoveDigit(r, 32);
      PutDigit(k, 32, 1, u);
      PutDigit(r, 32, 0, u);
    }
  }

  lemma FlipRoom(k: int, W: nat)
    requires (W == 32 || W == 64) && 0 <= k < W
    ensures 0 <= Flip(k) < W
  {
    hide Digit;
    DigitRoom(k, 1, W);
    DigitRoom(InvertDigit(k, 1), 2, W);
    DigitRoom(InvertDigit(InvertDigit(k, 1), 2), 4, W);
  }

  /** Flipping twice is the identity. */
  lemma FlipFlip(k: int)
    requires 0 <= k < 64
    ensures Flip(Flip(k)) == k
  {
    hide Digit, Flip;
    FlipRoom(k, 64);
    FlipRoom(Flip(k), 64);
    forall u | Span(u) && u < 64 ensures Digit(Flip(Flip(k)), u) == Digit(k, u) {
      FlipDigits(k, u);
      FlipDigits(Flip(k), u);
    }
    SameDigits(Flip(Flip(k)), k);
  }

  /** A digit of the place a bit comes from is the digit of its source. */
  lemma BackDigitIsSource(p: Place, W: nat, clockwise: bool, u: nat)
    requires (W == 32 || W == 64) && 0 <= p.r < 64 && 0 <= p.k < W && Span(u) && u < 64
    ensures var q, goal := Back(p, 1, W / 2, clockwise), Source(p, W, clockwise);
            Digit(q.r, u) == Digit(goal.r, u) && Digit(q.k, u) == Digit(goal.k, u)
  {
    hide Digit, Back, Flip, PartOf;
    var part := PartOf(p.r, W);
    BackDigits(p, 1, W / 2, clockwise, u);
    PartDigits(p.r, p.k, W, u);
    if clockwise {
      FlipDigits(p.r - part, u);
    } else {
      FlipRoom(p.k, W);
      PartDigits(p.r, Flip(p.k), W, u);
      FlipDigits(p.k, u);
    }
    if W <= u {
      DigitRoom(p.k, u, 64);
    }
  }

  /** The stages together are the transposition. */
  lemma BackIsSource(p: Place, W: nat, clockwise: bool)
    requires (W == 32 || W == 64) && 0 <= p.r < 64 && 0 <= p.k < W
    ensures Back(p, 1, W / 2, clockwise) == Source(p, W, clockwise)
  {
    hide Digit, Back, Flip;
    var q, goal := Back(p, 1, W / 2, clockwise), Source(p, W, clockwise);
    BackInTable(p, 1, W / 2, clockwise, W);
    FlipRoom(p.k, W);
    FlipRoom(p.r - PartOf(p.r, W), W);
    forall u | Span(u) && u < 64 ensures Digit(q.r, u) == Digit(goal.r, u) && Digit(q.k, u) == Digit(goal.k, u) {
      BackDigitIsSource(p, W, clockwise, u);
    }
    SameDigits(q.r, goal.r);
    SameDigits(q.k, goal.k);
  }
}
