/** Boolean functions of four inputs as 16-bit truth tables, and formulas that
    compute them. */
module TruthTables {
  function Pow2(n: nat): (p: nat)
    ensures p > 0
  {
    if n == 0 then 1 else 2 * Pow2(n - 1)
  }

  /** A truth table, read as a number. */
  type Table = t: int | 0 <= t < 65536

  const FALSE: Table := 0
  const TRUE: Table := 65535

  datatype Op = And | Or | Xor

  predicate Logic(op: Op, p: bool, q: bool) {
    match op case And => p && q case Or => p || q case Xor => p != q
  }

  predicate Odd(x: nat) { x % 2 == 1 }

  predicate BitOf(x: nat, k: nat) { if k == 0 then Odd(x) else BitOf(x / 2, k - 1) }

  /** The bitwise operation on numbers of n bits. */
  function Bitwise(op: Op, x: nat, y: nat, n: nat): (z: nat)
    requires x < Pow2(n) && y < Pow2(n)
    ensures z < Pow2(n)
  {
    if n == 0 then 0
    else 2 * Bitwise(op, x / 2, y / 2, n - 1) + if Logic(op, Odd(x), Odd(y)) then 1 else 0
  }

  lemma SixteenBits()
    ensures Pow2(16) == 65536
  {
    assert Pow2(4) == 16;
    assert Pow2(8) == 256;
    assert Pow2(12) == 4096;
  }

  function Apply(op: Op, x: Table, y: Table): (t: Table) {
    SixteenBits();
    Bitwise(op, x, y, 16)
  }

  lemma {:induction false} BitwiseBits(op: Op, x: nat, y: nat, n: nat, k: nat)
    requires x < Pow2(n) && y < Pow2(n) && k < n
    ensures BitOf(Bitwise(op, x, y, n), k) == Logic(op, BitOf(x, k), BitOf(y, k))
  {
    if k > 0 {
      BitwiseBits(op, x / 2, y / 2, n - 1, k - 1);
    }
  }

  lemma {:induction false} SameBits(x: nat, y: nat, n: nat)
    requires x < Pow2(n) && y < Pow2(n) && forall k :: 0 <= k < n ==> BitOf(x, k) == BitOf(y, k)
    ensures x == y
  {
    if n > 0 {
      assert BitOf(x, 0) == BitOf(y, 0);
      forall k | 0 <= k < n - 1 ensures BitOf(x / 2, k) == BitOf(y / 2, k) {
        assert BitOf(x, k + 1) == BitOf(y, k + 1);
      }
      SameBits(x / 2, y / 2, n - 1);
    }
  }

  lemma {:induction false} BitsOfZero(k: nat)
    ensures !BitOf(0, k)
  {
    if k > 0 {
      BitsOfZero(k - 1);
    }
  }

  lemma ApplyBits(op: Op, x: Table, y: Table, k: nat)
    requires k < 16
    ensures BitOf(Apply(op, x, y), k) == Logic(op, BitOf(x, k), BitOf(y, k))
  {
    SixteenBits();
    BitwiseBits(op, x, y, 16, k);
  }

  lemma SameTable(x: Table, y: Table)
    requires forall k :: 0 <= k < 16 ==> BitOf(x, k) == BitOf(y, k)
    ensures x == y
  {
    SixteenBits();
    SameBits(x, y, 16);
  }

  /** Combinations that the search does not try. */
  lemma Untried(op: Op, x: Table, y: Table)
    ensures Apply(op, x, y) == Apply(op, y, x)
    ensures Apply(op, x, x) == if op == Xor then FALSE else x
    ensures Apply(op, FALSE, y) == if op == And then FALSE else y
  {
    hide Apply, BitOf;
    forall k | 0 <= k < 16
      ensures BitOf(Apply(op, x, y), k) == BitOf(Apply(op, y, x), k)
      ensures BitOf(Apply(op, x, x), k) == BitOf(if op == Xor then FALSE else x, k)
      ensures BitOf(Apply(op, FALSE, y), k) == BitOf(if op == And then FALSE else y, k)
    {
      ApplyBits(op, x, y, k);
      ApplyBits(op, y, x, k);
      ApplyBits(op, x, x, k);
      ApplyBits(op, FALSE, y, k);
      BitsOfZero(k);
    }
    SameTable(Apply(op, x, y), Apply(op, y, x));
    SameTable(Apply(op, x, x), if op == Xor then FALSE else x);
    SameTable(Apply(op, FALSE, y), if op == And then FALSE else y);
  }

  datatype Source = SrcA | SrcB | SrcC | SrcD

  datatype Formula = Zero | One | Input(src: Source) | Gate(op: Op, left: Formula, right: Formula)

  function SourceTable(s: Source): Table {
    match s case SrcA => 0x00ff case SrcB => 0x0f0f case SrcC => 0x3333 case SrcD => 0x5555
  }

  function Denote(e: Formula): Table {
    match e
    case Zero => FALSE
    case One => TRUE
    case Input(s) => SourceTable(s)
    case Gate(op, x, y) => Apply(op, Denote(x), Denote(y))
  }

  function Gates(e: Formula): nat {
    match e
    case Gate(_, x, y) => Gates(x) + Gates(y) + 1
    case _ => 0
  }

  /** The value of an input in row k of the tables; row 15 has all inputs 0. */
  predicate InputAt(s: Source, k: nat)
    requires k < 16
  {
    match s case SrcA => k < 8 case SrcB => k % 8 < 4 case SrcC => k % 4 < 2 case SrcD => k % 2 < 1
  }

  predicate Eval(e: Formula, k: nat)
    requires k < 16
  {
    match e
    case Zero => false
    case One => true
    case Input(s) => InputAt(s, k)
    case Gate(op, x, y) => Logic(op, Eval(x, k), Eval(y, k))
  }

  /** The number without its last q hexadecimal digits. */
  function Digits(x: nat, q: nat): nat { if q == 0 then x else Digits(x / 16, q - 1) }

  predicate DigitBit(x: nat, r: nat)
    requires r < 4
  {
    Odd(if r == 0 then x else if r == 1 then x / 2 else if r == 2 then x / 4 else x / 8)
  }

  /** A bit of a number, from the hexadecimal digit that it is in. */
  lemma {:induction false} DigitBits(x: nat, q: nat, r: nat)
    requires r < 4
    ensures BitOf(x, 4 * q + r) == DigitBit(Digits(x, q), r)
  {
    if q == 0 {
      FirstDigit(x, r);
    } else {
      NextDigit(x, 4 * (q - 1) + r);
      DigitBits(x / 16, q - 1, r);
    }
  }

  lemma NextDigit(x: nat, k: nat)
    ensures BitOf(x, k + 4) == BitOf(x / 16, k)
  {
    assert BitOf(x, k + 4) == BitOf(x / 2, k + 3) == BitOf(x / 2 / 2, k + 2) == BitOf(x / 2 / 2 / 2, k + 1);
  }

  lemma FirstDigit(x: nat, k: nat)
    requires k < 4
    ensures BitOf(x, k) == DigitBit(x, k)
  {
    assert k > 0 ==> BitOf(x, k) == BitOf(x / 2, k - 1);
    assert k > 1 ==> BitOf(x / 2, k - 1) == BitOf(x / 2 / 2, k - 2);
    assert k > 2 ==> BitOf(x / 2 / 2, k - 2) == BitOf(x / 2 / 2 / 2, k - 3);
  }

  lemma ConstantBits(k: nat)
    requires k < 16
    ensures BitOf(TRUE, k) && !BitOf(FALSE, k)
  {
    BitsOfZero(k);
    DigitBits(TRUE, k / 4, k % 4);
    hide BitOf;
    assert k / 4 == 0 || k / 4 == 1 || k / 4 == 2 || k / 4 == 3;
    assert Digits(65535, 1) == 4095 && Digits(65535, 2) == 255 && Digits(65535, 3) == 15;
  }

  /** The tables of the inputs, shifted down digit by digit. */
  lemma SourceDigits(s: Source, q: nat)
    requires q < 4
    ensures Digits(SourceTable(s), q) == match s {
              case SrcA => if q == 0 then 0xff else if q == 1 then 0x0f else 0
              case SrcB => if q == 0 then 0xf0f else if q == 1 then 0xf0 else if q == 2 then 0x0f else 0
              case SrcC => if q == 0 then 0x3333 else if q == 1 then 0x333 else if q == 2 then 0x33 else 3
              case SrcD => if q == 0 then 0x5555 else if q == 1 then 0x555 else if q == 2 then 0x55 else 5
            }
  {
    var x := SourceTable(s);
    assert Digits(x, 1) == x / 16;
    assert q == 2 ==> Digits(x, 2) == Digits(x / 16, 1) == x / 16 / 16;
    assert q == 3 ==> Digits(x, 3) == Digits(x / 16, 2) == Digits(x / 16 / 16, 1) == x / 16 / 16 / 16;
  }

  lemma SourceBits(s: Source, k: nat)
    requires k < 16
    ensures BitOf(SourceTable(s), k) == InputAt(s, k)
  {
    DigitBits(SourceTable(s), k / 4, k % 4);
    SourceDigits(s, k / 4);
    hide BitOf, Digits, SourceTable;
  }

  /** The truth table of a formula holds its values. */
  lemma {:induction false} TableOfFormula(e: Formula, k: nat)
    requires k < 16
    ensures BitOf(Denote(e), k) == Eval(e, k)
  {
    hide Apply, BitOf;
    match e
    case Zero => ConstantBits(k);
    case One => ConstantBits(k);
    case Input(s) => SourceBits(s, k);
    case Gate(op, x, y) =>
      TableOfFormula(x, k);
      TableOfFormula(y, k);
      ApplyBits(op, Denote(x), Denote(y), k);
  }
}
