/** The stream cipher as the packet loop uses it: tables of blocks in, tables of
    key-stream blocks out. */
module KeyStream {
  import opened Bits
  import opened StreamScalar
  import opened StreamGroup
  import opened StreamCipher
  import opened Transpose
  import opened SliceTables

  /** Every lane of the groups holds the bits of the key nibbles. */
  ghost predicate Spread(groups: seq<Quad>, nibbles: Nibbles8, n: nat) {
    |groups| == 8 && forall c :: 0 <= c < n ==> LaneKey(groups, c) == nibbles
  }

  function AllLanes(bit: bool, n: nat): Group { if bit then FF1(n) else FF0() }

  /** Spreads the bits of the key nibbles over all lanes. */
  method SpreadKey(nibbles: Nibbles8, n: nat) returns (groups: seq<Quad>)
    ensures Spread(groups, nibbles, n)
  {
    groups := [];
    for i := 0 to 8
      invariant |groups| == i
      invariant forall k, c :: 0 <= k < i && 0 <= c < n ==> NibbleAt(groups[k], c) == nibbles[k]
    {
      var x := nibbles[i];
      var q := Quad(AllLanes(Bit4(x, 0), n), AllLanes(Bit4(x, 1), n), AllLanes(Bit4(x, 2), n), AllLanes(Bit4(x, 3), n));
      forall c | 0 <= c < n ensures NibbleAt(q, c) == x {
      }
      groups := groups + [q];
    }
  }

  /** The registers of packet g, in its lane. */
  ghost predicate InLane(s: Sliced, l: Layout, g: nat, state: State) { s.At(LaneOf(l, g)) == state }

  /** Starts the key stream of every packet with the blocks of the table. */
  method StreamInit(regs: StreamRegs, l: Layout, groupA: seq<Quad>, groupB: seq<Quad>, tab: array<Group>,
                    ghost iA: Nibbles8, ghost iB: Nibbles8)
    requires regs.Valid() && l.Valid() && regs.N == l.Lanes() && tab.Length == 64
    requires Spread(groupA, iA, l.Lanes()) && Spread(groupB, iB, l.Lanes())
    modifies regs, regs.A, regs.B, tab
    ensures regs.Valid()
    ensures forall g :: 0 <= g < l.Lanes() ==> InLane(regs.View(32), l, g, Init(iA, iB, PacketBlock(old(tab[..]), l, g)))
  {
    hide Transposed, InitUpTo, PacketBlock, LaneBlock, Sliced.At, LaneOf;
    ghost var was := tab[..];
    Trasp(tab, l, false);
    ghost var rows := tab[..];
    regs.Init(groupA, groupB, tab);
    ghost var s := regs.View(32);
    forall g | 0 <= g < l.Lanes() ensures InLane(s, l, g, Init(iA, iB, PacketBlock(was, l, g))) {
      IntoLane(rows, was, l, g);
      LaneOfInit(s, groupA, groupB, rows, l.Lanes(), LaneOf(l, g));
    }
  }

  lemma LaneOfInit(s: Sliced, groupA: seq<Quad>, groupB: seq<Quad>, rows: seq<Group>, n: nat, c: int)
    requires |groupA| == |groupB| == 8 && |rows| == 64 && 0 <= c < n && InitUpTo(s, groupA, groupB, rows, n, 32)
    ensures s.At(c) == Init(LaneKey(groupA, c), LaneKey(groupB, c), LaneBlock(rows, c))
  {
  }

  /** Produces the next key-stream block of every packet in the table. */
  method StreamNormal(regs: StreamRegs, l: Layout, tab: array<Group>)
    requires regs.Valid() && l.Valid() && regs.N == l.Lanes() && tab.Length == 64
    modifies regs, regs.A, regs.B, tab
    ensures regs.Valid()
    ensures forall g, state :: 0 <= g < l.Lanes() && old(InLane(regs.View(32), l, g, state)) ==>
              InLane(regs.View(32), l, g, Steps(state, 32)) && PacketBlock(tab[..], l, g) == Output(state)
  {
    hide Transposed, RunUpTo, BlocksOut, PacketBlock, LaneBlock, Sliced.At, LaneOf;
    ghost var s0 := regs.View(32);
    regs.Normal(tab);
    ghost var rows := tab[..];
    Trasp(tab, l, true);
    ghost var s := regs.View(32);
    forall g, state | 0 <= g < l.Lanes() && InLane(s0, l, g, state)
      ensures InLane(s, l, g, Steps(state, 32)) && PacketBlock(tab[..], l, g) == Output(state)
    {
      OutOfLane(tab[..], rows, l, g);
      LaneOfRun(s, s0, rows, l.Lanes(), LaneOf(l, g));
    }
  }

  lemma LaneOfRun(s: Sliced, s0: Sliced, rows: seq<Group>, n: nat, c: int)
    requires |rows| == 64 && 0 <= c < n && RunUpTo(s, s0, n, 32) && BlocksOut(rows, s0, n)
    ensures s.At(c) == Steps(s0.At(c), 32) && LaneBlock(rows, c) == Output(s0.At(c))
  {
  }
}
