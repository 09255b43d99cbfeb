/** The level by level search for the cheapest formula of every function of four inputs. */
module LogicSearch {
  import opened TruthTables

  const LEVEL_ALOT := 1000000

  datatype OpType = OpFalse | OpTrue | OpSrc | OpAnd | OpOr | OpXor

  const SRC_A := 10
  const SRC_B := 20
  const SRC_C := 30
  const SRC_D := 40

  datatype Fun = Fun(level: int, opType: OpType, op1: int, op2: int)

  type Db = d: seq<Fun> | |d| == 65536 witness seq(65536, _ => Fun(LEVEL_ALOT, OpFalse, 0, 0))

  predicate Known(db: Db, f: Table) { db[f].level != LEVEL_ALOT }

  function SourceCode(s: Source): int {
    match s case SrcA => SRC_A case SrcB => SRC_B case SrcC => SRC_C case SrcD => SRC_D
  }

  function TypeOf(op: Op): OpType { match op case And => OpAnd case Or => OpOr case Xor => OpXor }

  predicate IsTable(x: int) { 0 <= x < 65536 }

  /** The entry is a gate whose inputs are known, with its level. */
  predicate GateOk(db: Db, f: Table, op: Op) {
    var e := db[f];
    IsTable(e.op1) && IsTable(e.op2) && Known(db, e.op1) && Known(db, e.op2) && f == Apply(op, e.op1, e.op2)
    && e.level == db[e.op1].level + db[e.op2].level + 1 && db[e.op1].level >= 0 && db[e.op2].level >= 0
  }

  /** What is stored for a known function is right one step down. */
  ghost predicate EntryOk(db: Db, f: Table) {
    var e := db[f];
    e.level >= 0 &&
    match e.opType
    case OpFalse => f == FALSE && e.level == 0
    case OpTrue => f == TRUE && e.level == 0
    case OpSrc => e.level == 0 && exists s :: e.op1 == SourceCode(s) && f == SourceTable(s)
    case OpAnd => GateOk(db, f, And)
    case OpOr => GateOk(db, f, Or)
    case OpXor => GateOk(db, f, Xor)
  }

  ghost predicate AllOk(db: Db) { forall f: Table :: Known(db, f) ==> EntryOk(db, f) }

  function SourceOf(code: int): Source {
    if code == SRC_A then SrcA else if code == SRC_B then SrcB else if code == SRC_C then SrcC else SrcD
  }

  /** The formula that the printers follow: they end because the levels fall. */
  ghost function TreeOf(db: Db, f: Table): Formula
    requires AllOk(db) && Known(db, f)
    decreases db[f].level
  {
    var e := db[f];
    assert EntryOk(db, f);
    match e.opType
    case OpFalse => Zero
    case OpTrue => One
    case OpSrc => Input(SourceOf(e.op1))
    case OpAnd => Gate(And, TreeOf(db, e.op1), TreeOf(db, e.op2))
    case OpOr => Gate(Or, TreeOf(db, e.op1), TreeOf(db, e.op2))
    case OpXor => Gate(Xor, TreeOf(db, e.op1), TreeOf(db, e.op2))
  }

  /** The stored tree is a formula of the function, with as many gates as its level says. */
  lemma {:induction false} TreeIsRight(db: Db, f: Table)
    requires AllOk(db) && Known(db, f)
    ensures Denote(TreeOf(db, f)) == f && Gates(TreeOf(db, f)) == db[f].level
    decreases db[f].level, 1
  {
    var e := db[f];
    assert EntryOk(db, f);
    match e.opType
    case OpFalse =>
    case OpTrue =>
    case OpSrc =>
      var s :| e.op1 == SourceCode(s) && f == SourceTable(s);
      assert SourceOf(e.op1) == s;
    case OpAnd => GateIsRight(db, f, And);
    case OpOr => GateIsRight(db, f, Or);
    case OpXor => GateIsRight(db, f, Xor);
  }

  lemma {:induction false} GateIsRight(db: Db, f: Table, op: Op)
    requires AllOk(db) && Known(db, f) && GateOk(db, f, op)
    ensures var e, g := db[f], Gate(op, TreeOf(db, db[f].op1), TreeOf(db, db[f].op2));
            Denote(g) == f && Gates(g) == e.level
    decreases db[f].level, 0
  {
    hide Apply, AllOk, TreeOf;
    TreeIsRight(db, db[f].op1);
    TreeIsRight(db, db[f].op2);
  }

  /** Every formula of at most l gates has been found, and nothing above that. */
  ghost predicate Complete(db: Db, l: int) {
    && AllOk(db)
    && (forall f: Table :: Known(db, f) ==> db[f].level <= l)
    && forall e: Formula :: Gates(e) <= l ==> Known(db, Denote(e)) && db[Denote(e)].level <= Gates(e)
  }

  /** f has a formula with n gates, and none with fewer. */
  ghost predicate LeastGates(f: Table, n: nat) {
    (exists e :: Denote(e) == f && Gates(e) == n) && forall e :: Denote(e) == f ==> Gates(e) >= n
  }

  /** After pass l a level is the least number of gates, if that is at most l. */
  lemma LevelIsLeast(db: Db, l: int, f: Table)
    requires Complete(db, l)
    ensures Known(db, f) ==> db[f].level >= 0 && LeastGates(f, db[f].level)
    ensures !Known(db, f) ==> forall e :: Denote(e) == f ==> Gates(e) > l
  {
    if Known(db, f) {
      TreeIsRight(db, f);
    }
  }

  function CountKnown(db: seq<Fun>): nat {
    if db == [] then 0 else CountKnown(db[..|db| - 1]) + if db[|db| - 1].level != LEVEL_ALOT then 1 else 0
  }

  lemma {:induction false} CountUpdate(db: seq<Fun>, i: nat, e: Fun)
    requires i < |db| && db[i].level == LEVEL_ALOT && e.level != LEVEL_ALOT
    ensures CountKnown(db[i := e]) == CountKnown(db) + 1
  {
    var n := |db| - 1;
    if i < n {
      assert db[i := e][..n] == db[..n][i := e];
      CountUpdate(db[..n], i, e);
    } else {
      assert db[i := e][..n] == db[..n];
    }
  }

  lemma {:induction false} CountLimit(db: seq<Fun>)
    ensures CountKnown(db) <= |db|
    ensures CountKnown(db) == |db| <==> forall i :: 0 <= i < |db| ==> db[i].level != LEVEL_ALOT
  {
    if db != [] {
      var n := |db| - 1;
      CountLimit(db[..n]);
      assert forall i :: 0 <= i < n ==> db[..n][i] == db[i];
    }
  }

  lemma {:induction false} CountNone(db: seq<Fun>)
    requires forall i :: 0 <= i < |db| ==> db[i].level == LEVEL_ALOT
    ensures CountKnown(db) == 0
  {
    if db != [] {
      CountNone(db[..|db| - 1]);
    }
  }

  /** During pass l: what was known before it stays, what is new has at most l gates. */
  ghost predicate Growing(db: Db, was: Db, l: int) {
    && AllOk(db)
    && (forall f: Table :: Known(was, f) ==> db[f] == was[f])
    && forall f: Table :: Known(db, f) ==> db[f].level <= l
  }

  lemma AddOk(db: Db, was: Db, l: int, op: Op, p1: Table, p2: Table)
    requires Growing(db, was, l) && Known(db, p1) && Known(db, p2) && 0 <= l < LEVEL_ALOT
    requires !Known(db, Apply(op, p1, p2)) && db[p1].level + db[p2].level + 1 <= l
    ensures var e := Fun(db[p1].level + db[p2].level + 1, TypeOf(op), p1, p2);
            Growing(db[Apply(op, p1, p2) := e], was, l) && e.level != LEVEL_ALOT
  {
    hide Apply;
    var c := Apply(op, p1, p2);
    assert EntryOk(db, p1) && EntryOk(db, p2);
    var now := db[c := Fun(db[p1].level + db[p2].level + 1, TypeOf(op), p1, p2)];
    forall f: Table | Known(now, f) ensures EntryOk(now, f) {
      if f != c {
        assert EntryOk(db, f);
      }
    }
  }

  /** Stores the combination of two known functions, if that is new. */
  method Try(db: array<Fun>, p1: Table, p2: Table, op: Op, nFun: nat, ghost was: Db, ghost l: int) returns (n: nat)
    requires db.Length == 65536 && Growing(db[..], was, l) && Known(db[..], p1) && Known(db[..], p2) && 0 <= l < LEVEL_ALOT
    requires db[p1].level + db[p2].level + 1 <= l && nFun == CountKnown(db[..])
    modifies db
    ensures Growing(db[..], was, l) && n == CountKnown(db[..])
    ensures forall f: Table :: Known(old(db[..]), f) ==> db[..][f] == old(db[..])[f]
    ensures Known(db[..], Apply(op, p1, p2))
  {
    hide Apply, Growing, CountKnown;
    n := nFun;
    var candidate := Apply(op, p1, p2);
    if db[candidate].level == LEVEL_ALOT {
      ghost var before := db[..];
      AddOk(before, was, l, op, p1, p2);
      CountUpdate(before, candidate, Fun(db[p1].level + db[p2].level + 1, TypeOf(op), p1, p2));
      db[candidate] := Fun(db[p1].level + db[p2].level + 1, TypeOf(op), p1, p2);
      assert db[..] == before[candidate := db[candidate]];
      n := n + 1;
    }
  }

  /** The pair has been tried: all its combinations are known. */
  ghost predicate Tried(db: Db, was: Db, l: int, q1: Table, q2: Table) {
    Known(was, q1) && Known(was, q2) && was[q1].level + was[q2].level + 1 <= l ==> forall op :: Known(db, Apply(op, q1, q2))
  }

  ghost predicate TriedUpTo(db: Db, was: Db, l: int, p1: int, p2: int) {
    forall q1: Table, q2: Table :: 1 <= q1 < q2 && (q1 < p1 || (q1 == p1 && q2 < p2)) ==> Tried(db, was, l, q1, q2)
  }

  lemma TriedStays(db: Db, before: Db, was: Db, l: int, p1: int, p2: int)
    requires TriedUpTo(before, was, l, p1, p2) && forall f: Table :: Known(before, f) ==> db[f] == before[f]
    ensures TriedUpTo(db, was, l, p1, p2)
  {
    hide Apply;
    forall q1: Table, q2: Table | 1 <= q1 < q2 && (q1 < p1 || (q1 == p1 && q2 < p2)) ensures Tried(db, was, l, q1, q2) {
      assert Tried(before, was, l, q1, q2);
    }
  }

  /** A combination of two functions that were known is known after the pass. */
  lemma GateFound(db: Db, was: Db, l: nat, p2: int, op: Op, x: Table, y: Table)
    requires Growing(db, was, l) && TriedUpTo(db, was, l, 65536, p2)
    requires Known(was, x) && Known(was, y) && Known(was, FALSE) && was[x].level + was[y].level + 1 <= l
    ensures Known(db, Apply(op, x, y)) && db[Apply(op, x, y)].level <= l
  {
    hide Apply, AllOk;
    Untried(op, x, y);
    Untried(op, y, x);
    if 1 <= x < y {
      assert Tried(db, was, l, x, y);
    } else if 1 <= y < x {
      assert Tried(db, was, l, y, x);
    }
  }

  /** A pass over all pairs finds everything with l gates. */
  lemma PassCompletes(db: Db, was: Db, l: nat, p2: int)
    requires Complete(was, if l == 0 then 0 else l - 1) && Growing(db, was, l) && TriedUpTo(db, was, l, 65536, p2)
    ensures Complete(db, l)
  {
    hide Apply, AllOk, TriedUpTo;
    forall e: Formula | Gates(e) <= l ensures Known(db, Denote(e)) && db[Denote(e)].level <= Gates(e) {
      if Gates(e) == l > 0 {
        assert Gates(e.left) <= l - 1 && Gates(e.right) <= l - 1;
        assert Known(was, Denote(e.left)) && Known(was, Denote(e.right));
        assert Gates(Zero) == 0 && Known(was, Denote(Zero));
        GateFound(db, was, l, p2, e.op, Denote(e.left), Denote(e.right));
      } else {
        assert Known(was, Denote(e));
      }
    }
  }

  /** One pass: all pairs of known functions whose combination has l gates. */
  method Pass(db: array<Fun>, l: nat, nFun: nat) returns (n: nat)
    requires db.Length == 65536 && l < 100 && Complete(db[..], if l == 0 then 0 else l - 1) && nFun == CountKnown(db[..])
    modifies db
    ensures Complete(db[..], l) && n == CountKnown(db[..])
  {
    hide Apply, AllOk, CountKnown, Tried, Complete;
    ghost var was := db[..];
    GrowingStarts(was, l);
    n := nFun;
    for p1 := 1 to 65536
      invariant Growing(db[..], was, l) && TriedUpTo(db[..], was, l, p1, p1 + 1) && n == CountKnown(db[..])
    {
      n := PassOne(db, l, n, p1, was);
    }
    PassCompletes(db[..], was, l, 65537);
  }

  lemma GrowingStarts(was: Db, l: nat)
    requires Complete(was, if l == 0 then 0 else l - 1)
    ensures Growing(was, was, l) && TriedUpTo(was, was, l, 1, 2)
  {
  }

  /** All partners of one function. */
  method PassOne(db: array<Fun>, l: nat, nFun: nat, p1: Table, ghost was: Db) returns (n: nat)
    requires db.Length == 65536 && l < 100 && Growing(db[..], was, l) && nFun == CountKnown(db[..])
    requires 1 <= p1 && TriedUpTo(db[..], was, l, p1, p1 + 1)
    modifies db
    ensures Growing(db[..], was, l) && n == CountKnown(db[..]) && TriedUpTo(db[..], was, l, p1 + 1, p1 + 2)
  {
    hide Apply, AllOk, CountKnown;
    n := nFun;
    if db[p1].level == LEVEL_ALOT {
      return;
    }
    LevelRange(db[..], was, l, p1);
    var maxP2Lev := l - db[p1].level - 1;
    for p2 := p1 + 1 to 65536
      invariant Growing(db[..], was, l) && TriedUpTo(db[..], was, l, p1, p2) && n == CountKnown(db[..])
      invariant Known(db[..], p1) && 0 <= db[p1].level && maxP2Lev == l - db[p1].level - 1
    {
      if db[p2].level <= maxP2Lev {
        ghost var before := db[..];
        n := TryAll(db, p1, p2, n, was, l);
        TriedStays(db[..], before, was, l, p1, p2);
      }
    }
  }

  /** The three combinations of two known functions. */
  method TryAll(db: array<Fun>, p1: Table, p2: Table, nFun: nat, ghost was: Db, ghost l: int) returns (n: nat)
    requires db.Length == 65536 && Growing(db[..], was, l) && Known(db[..], p1) && Known(db[..], p2) && 0 <= l < LEVEL_ALOT
    requires db[p1].level + db[p2].level + 1 <= l && nFun == CountKnown(db[..])
    modifies db
    ensures Growing(db[..], was, l) && n == CountKnown(db[..])
    ensures forall f: Table :: Known(old(db[..]), f) ==> db[..][f] == old(db[..])[f]
    ensures forall op :: Known(db[..], Apply(op, p1, p2))
  {
    hide Apply, Growing, CountKnown;
    ghost var e1, e2 := db[p1], db[p2];
    n := Try(db, p1, p2, And, nFun, was, l);
    assert db[..][p1] == e1 && db[..][p2] == e2;
    n := Try(db, p1, p2, Or, n, was, l);
    assert db[..][p1] == e1 && db[..][p2] == e2;
    n := Try(db, p1, p2, Xor, n, was, l);
    AllOps(db[..], p1, p2);
  }

  lemma LevelRange(db: Db, was: Db, l: int, f: Table)
    requires Growing(db, was, l) && Known(db, f)
    ensures 0 <= db[f].level <= l
  {
    assert EntryOk(db, f);
  }

  lemma AllOps(db: Db, p1: Table, p2: Table)
    requires Known(db, Apply(And, p1, p2)) && Known(db, Apply(Or, p1, p2)) && Known(db, Apply(Xor, p1, p2))
    ensures forall op :: Known(db, Apply(op, p1, p2))
  {
  }

  /** The entries for functions of no gates. */
  method Start(db: array<Fun>) returns (nFun: nat)
    requires db.Length == 65536
    modifies db
    ensures Complete(db[..], 0) && nFun == CountKnown(db[..])
  {
    for i := 0 to 65536
      invariant forall k :: 0 <= k < i ==> db[k].level == LEVEL_ALOT
    {
      db[i] := db[i].(level := LEVEL_ALOT);
    }
    CountNone(db[..]);
    nFun := 0;
    ghost var none := db[..];
    nFun := Put(db, FALSE, Fun(0, OpFalse, 0, 0), nFun);
    nFun := Put(db, TRUE, Fun(0, OpTrue, 0, 0), nFun);
    nFun := Put(db, 0x00ff, Fun(0, OpSrc, SRC_A, 0), nFun);
    nFun := Put(db, 0x0f0f, Fun(0, OpSrc, SRC_B, 0), nFun);
    nFun := Put(db, 0x3333, Fun(0, OpSrc, SRC_C, 0), nFun);
    nFun := Put(db, 0x5555, Fun(0, OpSrc, SRC_D, 0), nFun);
    Started(db[..]);
  }

  method Put(db: array<Fun>, f: Table, e: Fun, nFun: nat) returns (n: nat)
    requires db.Length == 65536 && !Known(db[..], f) && e.level == 0 && nFun == CountKnown(db[..])
    modifies db
    ensures db[..] == old(db[..])[f := e] && n == CountKnown(db[..])
  {
    CountUpdate(db[..], f, e);
    db[f] := e;
    n := nFun + 1;
  }

  lemma Started(db: Db)
    requires db[0] == Fun(0, OpFalse, 0, 0) && db[65535] == Fun(0, OpTrue, 0, 0)
    requires db[0x00ff] == Fun(0, OpSrc, SRC_A, 0) && db[0x0f0f] == Fun(0, OpSrc, SRC_B, 0)
    requires db[0x3333] == Fun(0, OpSrc, SRC_C, 0) && db[0x5555] == Fun(0, OpSrc, SRC_D, 0)
    requires forall f: Table :: f !in {0, 65535, 0x00ff, 0x0f0f, 0x3333, 0x5555} ==> !Known(db, f)
    ensures Complete(db, 0)
  {
    forall f: Table | Known(db, f) ensures EntryOk(db, f) {
      assert SourceCode(SrcA) == SRC_A && SourceCode(SrcB) == SRC_B && SourceCode(SrcC) == SRC_C && SourceCode(SrcD) == SRC_D;
    }
  }

  /** Fills the database level by level, until nothing is unknown. */
  method Search(db: array<Fun>) returns (nFun: nat)
    requires db.Length == 65536
    modifies db
    ensures nFun == 65536 && AllOk(db[..])
    ensures forall f: Table :: Known(db[..], f) && 0 <= db[f].level <= 60 && LeastGates(f, db[f].level)
  {
    hide Complete, LeastGates, CountKnown, AllOk;
    nFun := Start(db);
    ghost var upTo := 0;
    for l := 0 to 100
      invariant Complete(db[..], upTo) && upTo == (if l == 0 then 0 else l - 1) && nFun == CountKnown(db[..])
    {
      nFun := Pass(db, l, nFun);
      upTo := l;
      if nFun >= 65536 {
        break;
      }
    }
    CountLimit(db[..]);
    AllFound(db[..], upTo);
  }

  /** x where the input is 1, y where it is 0. */
  function Mux(s: Source, x: Formula, y: Formula): Formula {
    Gate(Xor, Gate(And, Input(s), x), Gate(And, Gate(Xor, Input(s), One), y))
  }

  lemma MuxValue(s: Source, x: Formula, y: Formula, k: nat)
    requires k < 16
    ensures Eval(Mux(s, x, y), k) == if InputAt(s, k) then Eval(x, k) else Eval(y, k)
    ensures Gates(Mux(s, x, y)) == Gates(x) + Gates(y) + 4
  {
    var neg := Gate(Xor, Input(s), One);
    var left, right := Gate(And, Input(s), x), Gate(And, neg, y);
    assert Eval(Input(s), k) == InputAt(s, k) && Eval(One, k);
    assert Eval(neg, k) == !InputAt(s, k) && Gates(neg) == 1;
    assert Eval(left, k) == (InputAt(s, k) && Eval(x, k)) && Gates(left) == Gates(x) + 1;
    assert Eval(right, k) == (!InputAt(s, k) && Eval(y, k)) && Gates(right) == Gates(y) + 2;
  }

  /** The formula that selects a row of the table by the lowest n inputs. */
  function Select(f: Table, n: nat, row: nat): (e: Formula)
    requires n <= 4
  {
    if n == 0 then (if BitOf(f, row) then One else Zero)
    else
      Mux(Splitter(n), Select(f, n - 1, row), Select(f, n - 1, row + Pow2(n - 1)))
  }

  function Low(k: nat, n: nat): (r: nat)
    requires n <= 4
  {
    if n == 0 then 0 else if n == 1 then k % 2 else if n == 2 then k % 4 else if n == 3 then k % 8 else k % 16
  }

  /** The input that tells the two halves of 2 ^ n rows apart. */
  function Splitter(n: nat): Source { if n == 1 then SrcD else if n == 2 then SrcC else if n == 3 then SrcB else SrcA }

  lemma LowSplit(k: nat, n: nat)
    requires 1 <= n <= 4 && k < 16
    ensures Low(k, n) == Low(k, n - 1) + if InputAt(Splitter(n), k) then 0 else Pow2(n - 1)
  {
    assert Pow2(0) == 1 && Pow2(1) == 2 && Pow2(2) == 4 && Pow2(3) == 8;
    hide Pow2;
  }

  function GatesFor(n: nat): nat { if n == 0 then 0 else 2 * GatesFor(n - 1) + 4 }

  lemma {:induction false} SelectGates(f: Table, n: nat, row: nat)
    requires n <= 4
    ensures Gates(Select(f, n, row)) == GatesFor(n)
  {
    if n > 0 {
      hide BitOf, Mux;
      SelectGates(f, n - 1, row);
      SelectGates(f, n - 1, row + Pow2(n - 1));
      MuxValue(Splitter(n), Select(f, n - 1, row), Select(f, n - 1, row + Pow2(n - 1)), 0);
    }
  }

  lemma {:induction false} SelectValue(f: Table, n: nat, row: nat, k: nat)
    requires n <= 4 && k < 16
    ensures Eval(Select(f, n, row), k) == BitOf(f, row + Low(k, n))
  {
    if n == 0 {
      assert Low(k, 0) == 0;
    } else {
      hide BitOf, Mux, Low, InputAt, Pow2, Splitter;
      SelectValue(f, n - 1, row, k);
      SelectValue(f, n - 1, row + Pow2(n - 1), k);
      MuxValue(Splitter(n), Select(f, n - 1, row), Select(f, n - 1, row + Pow2(n - 1)), k);
      LowSplit(k, n);
    }
  }

  lemma SelectRow(f: Table, k: nat)
    requires k < 16
    ensures BitOf(Denote(Select(f, 4, 0)), k) == BitOf(f, k)
  {
    hide BitOf, Select, Denote;
    TableOfFormula(Select(f, 4, 0), k);
    SelectValue(f, 4, 0, k);
  }

  /** Every function has a formula of 60 gates. */
  lemma SixtyGates(f: Table) returns (e: Formula)
    ensures Denote(e) == f && Gates(e) == 60
  {
    e := Select(f, 4, 0);
    SelectGates(f, 4, 0);
    assert GatesFor(1) == 4 && GatesFor(2) == 12 && GatesFor(3) == 28;
    hide BitOf, Select, Denote, Gates;
    forall k | 0 <= k < 16 ensures BitOf(Denote(e), k) == BitOf(f, k) {
      SelectRow(f, k);
    }
    SameTable(Denote(e), f);
  }

  /** At the end every function is known, with its least number of gates. */
  lemma AllFound(db: Db, l: nat)
    requires Complete(db, l) && (l == 99 || CountKnown(db) == 65536)
    ensures CountKnown(db) == 65536 && AllOk(db)
    ensures forall f: Table :: Known(db, f) && 0 <= db[f].level <= 60 && LeastGates(f, db[f].level)
  {
    hide CountKnown, LeastGates, AllOk;
    CountLimit(db);
    forall f: Table ensures Known(db, f) && 0 <= db[f].level <= 60 && LeastGates(f, db[f].level) {
      var e := SixtyGates(f);
      LevelIsLeast(db, l, f);
      NotMore(f, db[f].level, e);
    }
  }

  lemma NotMore(f: Table, n: int, e: Formula)
    requires n >= 0 && Denote(e) == f
    ensures LeastGates(f, n) ==> n <= Gates(e)
  {
  }
}
