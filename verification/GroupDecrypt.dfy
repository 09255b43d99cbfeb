/** The 23 iterations that decrypt a sorted group of packets together, in place. */
module GroupDecrypt {
  import opened Bits
  import opened Numbers
  import opened StreamScalar
  import opened StreamGroup
  import opened StreamCipher
  import opened Transpose
  import opened SliceTables
  import opened KeyStream
  import opened BlockScalar
  import opened BlockGroup
  import opened Csa
  import opened TsPacket
  import opened Jobs

  /** The entry describes the packet. */
  ghost predicate JobOf(job: Job, p: Packet) {
    && job.offset == Offset(p) && job.n == BlockCount(p) && job.n > 0
    && job.len == 188 - Offset(p) && job.residue == job.len - 8 * job.n
  }

  /** The entries name distinct packets of the memory, and describe them. */
  ghost predicate GroupOf(jobs: seq<Job>, packets: seq<Packet>, slots: nat) {
    && |jobs| == |packets| && Distinct(jobs)
    && forall g :: 0 <= g < |jobs| ==> 0 <= jobs[g].pkt < slots && JobOf(jobs[g], packets[g])
  }

  /** Every packet of the group has its first k blocks done, or all of them. */
  ghost predicate Done(mem: seq<Packet>, jobs: seq<Job>, packets: seq<Packet>, key: Key, k: nat)
    requires GroupOf(jobs, packets, |mem|)
  {
    forall g :: 0 <= g < |jobs| ==> mem[jobs[g].pkt] == After(key, packets[g], Min(k, jobs[g].n))
  }

  /** Everything but the packets from..to of the group is as it was. */
  ghost predicate OnlyGroup(now: seq<Packet>, was: seq<Packet>, jobs: seq<Job>, from: nat, to: nat)
    requires from <= to <= |jobs|
  {
    |now| == |was| && forall s :: 0 <= s < |now| && (forall g :: from <= g < to ==> jobs[g].pkt != s) ==> now[s] == was[s]
  }

  function Block8(p: Packet, at: nat): Block
    requires at + 8 <= 188
  {
    p[at..at + 8]
  }

  function Splice(p: Packet, at: nat, b: Block): Packet
    requires at + 8 <= 188
  {
    p[..at] + b + p[at + 8..]
  }

  /** Alive packets: the key stream is taken off the next block. */
  method NextInputs(l: Layout, mem: array<Packet>, jobs: seq<Job>, enc: array<int>, tab: array<Group>,
                    ib: array<Block>, m: nat)
    requires l.Valid() && m <= |jobs| <= l.Lanes() && enc.Length == ib.Length == l.Lanes() && tab.Length == 64
    requires forall g :: 0 <= g < m ==> 0 <= jobs[g].pkt < mem.Length && 0 <= enc[g] && enc[g] + 16 <= 188
    modifies ib
    ensures forall g :: 0 <= g < m ==> ib[g] == XorBlock(PacketBlock(tab[..], l, g), Block8(mem[jobs[g].pkt], enc[g] + 8))
  {
    hide PacketBlock, XorBlock;
    for g := 0 to m
      invariant forall k :: 0 <= k < g ==> ib[k] == XorBlock(PacketBlock(tab[..], l, k), Block8(mem[jobs[k].pkt], enc[k] + 8))
    {
      var stream := TableOut(tab, l, g);
      ib[g] := XorBlock(stream, Block8(mem[jobs[g].pkt], enc[g] + 8));
    }
  }

  /** Alive packets: the deciphered block and the next input make plain text. */
  method WriteAlive(mem: array<Packet>, jobs: seq<Job>, enc: array<int>, ib: array<Block>, blockOut: array<Block>, m: nat)
    requires m <= |jobs| && Distinct(jobs) && m <= enc.Length && m <= ib.Length && m <= blockOut.Length
    requires forall g :: 0 <= g < m ==> 0 <= jobs[g].pkt < mem.Length && 0 <= enc[g] && enc[g] + 8 <= 188
    modifies mem
    ensures OnlyGroup(mem[..], old(mem[..]), jobs, 0, m)
    ensures forall g :: 0 <= g < m ==>
              mem[jobs[g].pkt] == Splice(old(mem[jobs[g].pkt]), enc[g], XorBlock(ib[g], blockOut[g]))
  {
    hide XorBlock, Splice;
    for g := 0 to m
      invariant forall s :: 0 <= s < mem.Length && (forall k :: 0 <= k < g ==> jobs[k].pkt != s) ==> mem[s] == old(mem[s])
      invariant forall k :: 0 <= k < g ==>
                  mem[jobs[k].pkt] == Splice(old(mem[jobs[k].pkt]), enc[k], XorBlock(ib[k], blockOut[k]))
    {
      mem[jobs[g].pkt] := Splice(mem[jobs[g].pkt], enc[g], XorBlock(ib[g], blockOut[g]));
    }
  }

  /** Packets in their last iteration: the deciphered block is the plain text. */
  method WriteDead(mem: array<Packet>, jobs: seq<Job>, enc: array<int>, blockOut: array<Block>, from: nat, to: nat)
    requires from <= to <= |jobs| && Distinct(jobs) && to <= enc.Length && to <= blockOut.Length
    requires forall g :: from <= g < to ==> 0 <= jobs[g].pkt < mem.Length && 0 <= enc[g] && enc[g] + 8 <= 188
    modifies mem
    ensures OnlyGroup(mem[..], old(mem[..]), jobs, from, to)
    ensures forall g :: from <= g < to ==> mem[jobs[g].pkt] == Splice(old(mem[jobs[g].pkt]), enc[g], blockOut[g])
  {
    hide Splice;
    for g := from to to
      invariant forall s :: 0 <= s < mem.Length && (forall k :: from <= k < g ==> jobs[k].pkt != s) ==> mem[s] == old(mem[s])
      invariant forall k :: from <= k < g ==> mem[jobs[k].pkt] == Splice(old(mem[jobs[k].pkt]), enc[k], blockOut[k])
    {
      mem[jobs[g].pkt] := Splice(mem[jobs[g].pkt], enc[g], blockOut[g]);
    }
  }

  /** The packet with n bytes from at on exclusive-ored with a key-stream block. */
  function XorResidue(p: Packet, at: nat, n: nat, stream: Block): Packet
    requires at + n <= 188 && n <= 8
  {
    p[..at] + seq(n, i requires 0 <= i < n => Xor(p[at + i], stream[i])) + p[at + n..]
  }

  /** Exclusive-ors the bytes of one residue, byte after byte. */
  method XorOneResidue(tab: array<Group>, l: Layout, g: nat, n: nat, p: Packet, at: nat) returns (q: Packet)
    requires l.Valid() && g < l.Lanes() && tab.Length == 64 && at + n <= 188 && n <= 8
    ensures q == XorResidue(p, at, n, PacketBlock(tab[..], l, g))
  {
    hide PacketBlock, TableByte, Xor;
    var rows := tab[..];
    q := p;
    for j := 0 to n
      invariant forall i :: 0 <= i < 188 ==>
                  q[i] == if at <= i < at + j then Xor(p[i], PacketBlock(rows, l, g)[i - at]) else p[i]
    {
      TableByteIs(rows, l, g, j);
      q := q[at + j := Xor(q[at + j], TableByte(rows, l, g, j))];
    }
  }

  method WriteResidues(l: Layout, mem: array<Packet>, jobs: seq<Job>, enc: array<int>, tab: array<Group>, from: nat, to: nat)
    requires l.Valid() && from <= to <= |jobs| && Distinct(jobs) && to <= enc.Length && to <= l.Lanes() && tab.Length == 64
    requires forall g :: from <= g < to ==>
               0 <= jobs[g].pkt < mem.Length && 0 <= enc[g] && 0 <= jobs[g].residue < 8 && enc[g] + 8 + jobs[g].residue <= 188
    modifies mem
    ensures OnlyGroup(mem[..], old(mem[..]), jobs, from, to)
    ensures forall g :: from <= g < to ==>
              mem[jobs[g].pkt] == XorResidue(old(mem[jobs[g].pkt]), enc[g] + 8, jobs[g].residue, PacketBlock(tab[..], l, g))
  {
    hide XorResidue, PacketBlock;
    for g := from to to
      invariant forall s :: 0 <= s < mem.Length && (forall k :: from <= k < g ==> jobs[k].pkt != s) ==> mem[s] == old(mem[s])
      invariant forall k :: from <= k < g ==>
                  mem[jobs[k].pkt] == XorResidue(old(mem[jobs[k].pkt]), enc[k] + 8, jobs[k].residue, PacketBlock(tab[..], l, k))
    {
      var q := XorOneResidue(tab, l, g, jobs[g].residue, mem[jobs[g].pkt], enc[g] + 8);
      mem[jobs[g].pkt] := q;
    }
  }

  /** A packet that goes on: one more block of it is plain. */
  lemma StepAlive(key: Key, p: Packet, k: nat)
    requires k + 1 < BlockCount(p)
    ensures var o := Offset(p) + 8 * k;
            var plain := XorBlock(Intermediate(key, p, k + 1), Decipher(SboxTable(), key.kk, Intermediate(key, p, k)));
            Splice(After(key, p, k), o, plain) == After(key, p, k + 1)
  {
    hide XorBlock, Intermediate, Decipher, After;
    AfterNext(key, p, k);
  }

  /** A packet that ends: its last block and its residue are plain. */
  lemma StepDead(key: Key, p: Packet, k: nat)
    requires k + 1 == BlockCount(p)
    ensures var o := Offset(p) + 8 * k;
            var q := Splice(After(key, p, k), o, Decipher(SboxTable(), key.kk, Intermediate(key, p, k)));
            XorResidue(q, o + 8, 188 - (o + 8), StreamBlock(key, p, k + 1)) == After(key, p, k + 1)
  {
    hide XorBlock, Intermediate, Decipher, After, StreamBlock, Xor;
    AfterNext(key, p, k);
    var o := Offset(p) + 8 * k;
    var before := After(key, p, k);
    var q := Splice(before, o, Decipher(SboxTable(), key.kk, Intermediate(key, p, k)));
    assert q[o + 8..] == before[o + 8..];
  }

  /** A full packet has no residue. */
  lemma StepLast(key: Key, p: Packet)
    requires BlockCount(p) == 23
    ensures Offset(p) == 4
    ensures Splice(After(key, p, 22), 4 + 8 * 22, Decipher(SboxTable(), key.kk, Intermediate(key, p, 22))) == After(key, p, 23)
  {
    hide XorBlock, Intermediate, Decipher, After, StreamBlock, Xor;
    AfterNext(key, p, 22);
  }

  /** The key, spread over lanes and batches. */
  datatype GroupKey = GroupKey(groupA: seq<Quad>, groupB: seq<Quad>, kk: RoundKeys)

  ghost predicate KeyOf(gk: GroupKey, key: Key, n: nat) {
    Spread(gk.groupA, key.iA, n) && Spread(gk.groupB, key.iB, n) && gk.kk == key.kk
  }

  /** The sorted entries and how many of them have more than i blocks. */
  ghost predicate AliveOf(alive: seq<nat>, jobs: seq<Job>) {
    && |alive| == 24 && alive[23] == 0
    && (forall i :: 0 <= i < 24 ==> alive[i] <= |jobs|)
    && forall i, g :: 0 <= i < 24 && 0 <= g < |jobs| ==> (g < alive[i] <==> jobs[g].n > i)
  }

  /** A packet with more than i blocks has more than i - 1. */
  lemma AliveFalls(alive: seq<nat>, jobs: seq<Job>, i: nat)
    requires AliveOf(alive, jobs) && 1 <= i < 24
    ensures alive[i] <= alive[i - 1]
  {
    if alive[i] > 0 {
      var g := alive[i] - 1;
      assert g < alive[i] <==> jobs[g].n > i;
      assert g < alive[i - 1] <==> jobs[g].n > i - 1;
    }
  }

  /** Every packet has a whole block. */
  ghost predicate Whole(packets: seq<Packet>) {
    forall g :: 0 <= g < |packets| ==> BlockCount(packets[g]) > 0
  }

  lemma GroupIsWhole(jobs: seq<Job>, packets: seq<Packet>, slots: nat)
    requires GroupOf(jobs, packets, slots)
    ensures Whole(packets)
  {
    forall g | 0 <= g < |packets| ensures BlockCount(packets[g]) > 0 {
      assert JobOf(jobs[g], packets[g]);
    }
  }

  /** Every key stream has produced k blocks. */
  ghost predicate Streaming(s: Sliced, l: Layout, packets: seq<Packet>, key: Key, k: nat)
    requires Whole(packets) && l.Valid() && |packets| <= l.Lanes()
  {
    forall g :: 0 <= g < |packets| ==> InLane(s, l, g, AfterCalls(StartState(key, packets[g]), k))
  }

  /** A packet with more than k blocks is about to decipher block k. */
  ghost predicate AtBlock(enc: int, b: Block, p: Packet, key: Key, k: nat) {
    k < BlockCount(p) ==> enc == Offset(p) + 8 * k && b == Intermediate(key, p, k)
  }

  ghost predicate AllAtBlock(enc: seq<int>, ib: seq<Block>, packets: seq<Packet>, key: Key, k: nat)
    requires |packets| <= |enc| && |packets| <= |ib|
  {
    forall g :: 0 <= g < |packets| ==> AtBlock(enc[g], ib[g], packets[g], key, k)
  }

  /** Block k of the packet is deciphered, and the next key-stream block is there. */
  ghost predicate Deciphered(b: Block, stream: Block, p: Packet, key: Key, k: nat) {
    k < BlockCount(p) ==>
      b == Decipher(SboxTable(), key.kk, Intermediate(key, p, k)) && stream == StreamBlock(key, p, k + 1)
  }

  ghost predicate AllDeciphered(blockOut: seq<Block>, rows: seq<Group>, l: Layout, packets: seq<Packet>, key: Key, k: nat)
    requires l.Valid() && |packets| <= |blockOut| && |packets| <= l.Lanes() && |rows| == 64
  {
    forall g :: 0 <= g < |packets| ==> Deciphered(blockOut[g], PacketBlock(rows, l, g), packets[g], key, k)
  }

  /** What packet g holds after the three write loops of an iteration. */
  function Written(p: Packet, g: nat, goOn: nat, last: nat, job: Job, enc: nat, b: Block, deciphered: Block, stream: Block): Packet
    requires goOn <= last && (g < last ==> enc + 8 <= 188)
    requires goOn <= g < last ==> 0 <= job.residue < 8 && enc + 8 + job.residue <= 188
  {
    if g < goOn then Splice(p, enc, XorBlock(b, deciphered))
    else if g < last then XorResidue(Splice(p, enc, deciphered), enc + 8, job.residue, stream)
    else p
  }

  /** Plain text for the packets that go on, plain text and residue for those that end. */
  method WriteAll(l: Layout, mem: array<Packet>, jobs: seq<Job>, enc: array<int>, ib: array<Block>, blockOut: array<Block>,
                  tab: array<Group>, goOn: nat, last: nat)
    requires l.Valid() && goOn <= last <= |jobs| <= l.Lanes() && Distinct(jobs)
    requires enc.Length == ib.Length == blockOut.Length == l.Lanes() && tab.Length == 64
    requires forall g :: 0 <= g < |jobs| ==> 0 <= jobs[g].pkt < mem.Length
    requires forall g :: 0 <= g < last ==> 0 <= enc[g] && enc[g] + 8 <= 188
    requires forall g :: goOn <= g < last ==> 0 <= jobs[g].residue < 8 && enc[g] + 8 + jobs[g].residue <= 188
    modifies mem
    ensures OnlyGroup(mem[..], old(mem[..]), jobs, 0, |jobs|)
    ensures forall g :: 0 <= g < last ==>
              mem[jobs[g].pkt] == Written(old(mem[jobs[g].pkt]), g, goOn, last, jobs[g], enc[g], ib[g], blockOut[g], PacketBlock(tab[..], l, g))
    ensures forall g :: last <= g < |jobs| ==> mem[jobs[g].pkt] == old(mem[jobs[g].pkt])
  {
    hide PacketBlock, XorBlock, Splice, XorResidue;
    WriteAlive(mem, jobs, enc, ib, blockOut, goOn);
    WriteDead(mem, jobs, enc, blockOut, goOn, last);
    WriteResidues(l, mem, jobs, enc, tab, goOn, last);
  }

  /** The writes are one step of the packet's decryption. */
  lemma WrittenNext(key: Key, p: Packet, g: nat, goOn: nat, last: nat, job: Job, enc: nat, b: Block, deciphered: Block, stream: Block, k: nat)
    requires JobOf(job, p) && (g < goOn <==> job.n > k + 1) && (g < last <==> job.n > k) && goOn <= last && g < last
    requires enc == Offset(p) + 8 * k && Deciphered(deciphered, stream, p, key, k)
    requires job.n > k + 1 ==> b == Intermediate(key, p, k + 1)
    ensures Written(After(key, p, k), g, goOn, last, job, enc, b, deciphered, stream) == After(key, p, k + 1)
  {
    hide StreamBlock, Intermediate, Decipher, After, XorBlock, Splice, XorResidue;
    if g < goOn {
      StepAlive(key, p, k);
    } else {
      StepDead(key, p, k);
    }
  }

  /** What the memory gets from one iteration. */
  method WriteBlocks(l: Layout, mem: array<Packet>, jobs: seq<Job>, alive: array<nat>, enc: array<int>, ib: array<Block>,
                     blockOut: array<Block>, tab: array<Group>, iter: nat, ghost packets: seq<Packet>, ghost key: Key)
    requires l.Valid() && |jobs| <= l.Lanes() && 1 <= iter < 23 && GroupOf(jobs, packets, mem.Length) && AliveOf(alive[..], jobs)
    requires enc.Length == ib.Length == blockOut.Length == l.Lanes() && tab.Length == 64
    requires Done(mem[..], jobs, packets, key, iter - 1)
    requires forall g :: 0 <= g < |jobs| && jobs[g].n >= iter ==> enc[g] == Offset(packets[g]) + 8 * (iter - 1)
    requires AllDeciphered(blockOut[..], tab[..], l, packets, key, iter - 1)
    requires forall g :: 0 <= g < |jobs| && jobs[g].n > iter ==> ib[g] == Intermediate(key, packets[g], iter)
    modifies mem
    ensures Done(mem[..], jobs, packets, key, iter)
    ensures OnlyGroup(mem[..], old(mem[..]), jobs, 0, |jobs|)
  {
    hide PacketBlock, StreamBlock, Intermediate, Decipher, After, XorBlock, Splice, XorResidue, Written, OnlyGroup;
    AliveFalls(alive[..], jobs, iter);
    WriteAll(l, mem, jobs, enc, ib, blockOut, tab, alive[iter], alive[iter - 1]);
    forall g | 0 <= g < |jobs|
      ensures mem[jobs[g].pkt] == After(key, packets[g], Min(iter, jobs[g].n))
    {
      assert Deciphered(blockOut[g], PacketBlock(tab[..], l, g), packets[g], key, iter - 1);
      if g < alive[iter - 1] {
        WrittenNext(key, packets[g], g, alive[iter], alive[iter - 1], jobs[g], enc[g], ib[g], blockOut[g], PacketBlock(tab[..], l, g), iter - 1);
      }
    }
  }

  /** The key stream of every packet goes on by one block. */
  method NextStream(regs: StreamRegs, l: Layout, tab: array<Group>, iter: nat, ghost packets: seq<Packet>, ghost key: Key)
    requires regs.Valid() && l.Valid() && regs.N == l.Lanes() && tab.Length == 64
    requires |packets| <= l.Lanes() && Whole(packets) && iter >= 1 && Streaming(regs.View(32), l, packets, key, iter - 1)
    modifies regs, regs.A, regs.B, tab
    ensures regs.Valid() && Streaming(regs.View(32), l, packets, key, iter)
    ensures forall g :: 0 <= g < |packets| ==> PacketBlock(tab[..], l, g) == StreamBlock(key, packets[g], iter)
  {
    hide InLane, PacketBlock, Output, StartState, Steps, BlockCount;
    ghost var s := regs.View(32);
    StreamNormal(regs, l, tab);
    forall g | 0 <= g < |packets|
      ensures InLane(regs.View(32), l, g, AfterCalls(StartState(key, packets[g]), iter))
      ensures PacketBlock(tab[..], l, g) == StreamBlock(key, packets[g], iter)
    {
      assert InLane(s, l, g, AfterCalls(StartState(key, packets[g]), iter - 1));
    }
  }

  /** Deciphers a block of every packet that has one left, and goes on with the
      key stream of every packet. */
  method NextBlocks(regs: StreamRegs, l: Layout, gk: GroupKey, alive: array<nat>, ib: array<Block>, blockOut: array<Block>,
                    tab: array<Group>, iter: nat, ghost jobs: seq<Job>, ghost enc: seq<int>, ghost packets: seq<Packet>, ghost key: Key)
    requires regs.Valid() && l.Valid() && regs.N == l.Lanes() && gk.kk == key.kk
    requires ib.Length == blockOut.Length == l.Lanes() == |enc| && ib != blockOut && tab.Length == 64
    requires |jobs| == |packets| <= l.Lanes() && Whole(packets)
    requires forall g :: 0 <= g < |jobs| ==> jobs[g].n == BlockCount(packets[g])
    requires 1 <= iter < 23 && AliveOf(alive[..], jobs)
    requires Streaming(regs.View(32), l, packets, key, iter - 1) && AllAtBlock(enc, ib[..], packets, key, iter - 1)
    modifies regs, regs.A, regs.B, tab, blockOut
    ensures regs.Valid()
    ensures Streaming(regs.View(32), l, packets, key, iter)
    ensures AllDeciphered(blockOut[..], tab[..], l, packets, key, iter - 1)
  {
    hide Streaming, PacketBlock, Decipher, Intermediate, StreamBlock, BlockCount;
    BlockDecypherGroup(gk.kk, ib, blockOut, l.Lanes(), alive[iter - 1]);
    NextStream(regs, l, tab, iter, packets, key);
    forall g | 0 <= g < |packets|
      ensures Deciphered(blockOut[g], PacketBlock(tab[..], l, g), packets[g], key, iter - 1)
    {
      assert AtBlock(enc[g], ib[g], packets[g], key, iter - 1);
    }
  }

  /** What is left of the received block is the next input. */
  lemma NextInput(key: Key, p: Packet, k: nat)
    requires 1 <= k < BlockCount(p)
    ensures XorBlock(StreamBlock(key, p, k), Block8(After(key, p, k - 1), Offset(p) + 8 * k)) == Intermediate(key, p, k)
  {
    hide XorBlock, StreamBlock, After;
    StillCipher(key, p, k - 1, k);
  }

  /** The pointers of the packets that go on move to the next block. */
  method MovePointers(enc: array<int>, m: nat)
    requires m <= enc.Length
    modifies enc
    ensures forall g :: 0 <= g < enc.Length ==> enc[g] == old(enc[g]) + (if g < m then 8 else 0)
  {
    for g := 0 to m
      invariant forall k :: 0 <= k < enc.Length ==> enc[k] == old(enc[k]) + (if k < g then 8 else 0)
    {
      enc[g] := enc[g] + 8;
    }
  }

  /** Takes the key stream off the next block of every packet that goes on. */
  method TakeInputs(l: Layout, mem: array<Packet>, jobs: seq<Job>, alive: array<nat>, enc: array<int>, ib: array<Block>,
                    tab: array<Group>, iter: nat, ghost blockOut: seq<Block>, ghost packets: seq<Packet>, ghost key: Key)
    requires l.Valid() && enc.Length == ib.Length == |blockOut| == l.Lanes() && tab.Length == 64 && |jobs| <= l.Lanes()
    requires 1 <= iter < 23 && GroupOf(jobs, packets, mem.Length) && AliveOf(alive[..], jobs)
    requires Done(mem[..], jobs, packets, key, iter - 1)
    requires AllDeciphered(blockOut, tab[..], l, packets, key, iter - 1)
    requires forall g :: 0 <= g < |jobs| && jobs[g].n >= iter ==> enc[g] == Offset(packets[g]) + 8 * (iter - 1)
    modifies ib
    ensures forall g :: 0 <= g < |jobs| && jobs[g].n > iter ==> ib[g] == Intermediate(key, packets[g], iter)
  {
    hide PacketBlock, StreamBlock, Intermediate, Decipher, After, XorBlock, Block8;
    NextInputs(l, mem, jobs, enc, tab, ib, alive[iter]);
    forall g | 0 <= g < |jobs| && jobs[g].n > iter ensures ib[g] == Intermediate(key, packets[g], iter) {
      assert Deciphered(blockOut[g], PacketBlock(tab[..], l, g), packets[g], key, iter - 1);
      NextInput(key, packets[g], iter);
    }
  }

  /** One round of the loop over the iterations 1 to 22. */
  method Iteration(regs: StreamRegs, l: Layout, gk: GroupKey, mem: array<Packet>, jobs: seq<Job>, alive: array<nat>,
                   enc: array<int>, ib: array<Block>, blockOut: array<Block>, tab: array<Group>, iter: nat,
                   ghost packets: seq<Packet>, ghost key: Key)
    requires regs.Valid() && l.Valid() && regs.N == l.Lanes() && gk.kk == key.kk
    requires enc.Length == ib.Length == blockOut.Length == l.Lanes() && tab.Length == 64 && |jobs| <= l.Lanes()
    requires Apart(mem, alive, enc, ib, blockOut)
    requires 1 <= iter < 23 && GroupOf(jobs, packets, mem.Length) && Whole(packets) && AliveOf(alive[..], jobs)
    requires Streaming(regs.View(32), l, packets, key, iter - 1) && AllAtBlock(enc[..], ib[..], packets, key, iter - 1)
    requires Done(mem[..], jobs, packets, key, iter - 1)
    modifies regs, regs.A, regs.B, tab, blockOut, ib, enc, mem
    ensures regs.Valid()
    ensures Streaming(regs.View(32), l, packets, key, iter) && AllAtBlock(enc[..], ib[..], packets, key, iter)
    ensures Done(mem[..], jobs, packets, key, iter)
    ensures OnlyGroup(mem[..], old(mem[..]), jobs, 0, |jobs|)
  {
    hide PacketBlock, StreamBlock, Intermediate, Decipher, After, Streaming, AllDeciphered, Done, OnlyGroup, JobOf;
    GroupSizes(jobs, packets, mem.Length);
    NextBlocks(regs, l, gk, alive, ib, blockOut, tab, iter, jobs, enc[..], packets, key);
    Pointers(enc[..], ib[..], packets, key, iter - 1);
    TakeInputs(l, mem, jobs, alive, enc, ib, tab, iter, blockOut[..], packets, key);
    WriteBlocks(l, mem, jobs, alive, enc, ib, blockOut, tab, iter, packets, key);
    MovePointers(enc, alive[iter]);
  }

  lemma GroupSizes(jobs: seq<Job>, packets: seq<Packet>, slots: nat)
    requires GroupOf(jobs, packets, slots)
    ensures forall g :: 0 <= g < |jobs| ==> jobs[g].n == BlockCount(packets[g])
  {
    forall g | 0 <= g < |jobs| ensures jobs[g].n == BlockCount(packets[g]) {
      assert JobOf(jobs[g], packets[g]);
    }
  }

  lemma Pointers(enc: seq<int>, ib: seq<Block>, packets: seq<Packet>, key: Key, k: nat)
    requires |packets| <= |enc| && |packets| <= |ib| && AllAtBlock(enc, ib, packets, key, k)
    ensures forall g :: 0 <= g < |packets| && BlockCount(packets[g]) > k ==> enc[g] == Offset(packets[g]) + 8 * k
  {
    hide Intermediate;
    forall g | 0 <= g < |packets| && BlockCount(packets[g]) > k ensures enc[g] == Offset(packets[g]) + 8 * k {
      assert AtBlock(enc[g], ib[g], packets[g], key, k);
    }
  }

  /** Arrays that are not one and the same. */
  ghost predicate Apart(mem: array<Packet>, alive: array<nat>, enc: array<int>, ib: array<Block>, blockOut: array<Block>) {
    var m: object, a: object, e: object, i: object, b: object := mem, alive, enc, ib, blockOut;
    m != a && m != e && m != i && m != b && a != e && a != i && a != b && e != i && e != b && i != b
  }

  /** The blocks of the group enter the stream cipher and wait for the block cipher. */
  method FirstBlocks(regs: StreamRegs, l: Layout, gk: GroupKey, mem: array<Packet>, jobs: seq<Job>, enc: array<int>,
                     ib: array<Block>, tab: array<Group>, ghost packets: seq<Packet>, ghost key: Key)
    requires regs.Valid() && l.Valid() && regs.N == l.Lanes() && KeyOf(gk, key, l.Lanes())
    requires enc.Length == ib.Length == l.Lanes() && tab.Length == 64 && |jobs| <= l.Lanes()
    requires GroupOf(jobs, packets, mem.Length) && Whole(packets)
    requires forall g :: 0 <= g < |jobs| ==> mem[jobs[g].pkt] == packets[g]
    modifies regs, regs.A, regs.B, tab, ib, enc
    ensures regs.Valid()
    ensures Streaming(regs.View(32), l, packets, key, 0) && AllAtBlock(enc[..], ib[..], packets, key, 0)
  {
    hide PacketBlock, Init, InLane, Whole;
    for g := 0 to |jobs|
      modifies tab, enc
      invariant forall k :: 0 <= k < g ==> enc[k] == Offset(packets[k]) && PacketBlock(tab[..], l, k) == CipherBlock(packets[k], 0)
    {
      assert JobOf(jobs[g], packets[g]);
      enc[g] := jobs[g].offset;
      TableIn(tab, l, g, Block8(mem[jobs[g].pkt], enc[g]));
    }
    ghost var rows := tab[..];
    StreamInit(regs, l, gk.groupA, gk.groupB, tab, key.iA, key.iB);
    for g := 0 to |jobs|
      modifies ib
      invariant forall k :: 0 <= k < g ==> ib[k] == CipherBlock(packets[k], 0)
    {
      ib[g] := Block8(mem[jobs[g].pkt], enc[g]);
    }
    forall g | 0 <= g < |packets| ensures InLane(regs.View(32), l, g, AfterCalls(StartState(key, packets[g]), 0)) {
    }
  }

  lemma NothingDone(mem: seq<Packet>, jobs: seq<Job>, packets: seq<Packet>, key: Key)
    requires GroupOf(jobs, packets, |mem|)
    requires forall g :: 0 <= g < |jobs| ==> mem[jobs[g].pkt] == packets[g]
    ensures Done(mem, jobs, packets, key, 0)
  {
    hide After;
    forall g | 0 <= g < |jobs| ensures mem[jobs[g].pkt] == After(key, packets[g], Min(0, jobs[g].n)) {
      AfterNone(key, packets[g]);
    }
  }

  lemma OnlyGroupSelf(a: seq<Packet>, jobs: seq<Job>)
    ensures OnlyGroup(a, a, jobs, 0, |jobs|)
  {
  }

  lemma OnlyGroupTwice(c: seq<Packet>, b: seq<Packet>, a: seq<Packet>, jobs: seq<Job>)
    requires OnlyGroup(c, b, jobs, 0, |jobs|) && OnlyGroup(b, a, jobs, 0, |jobs|)
    ensures OnlyGroup(c, a, jobs, 0, |jobs|)
  {
  }

  /** The last iteration: only full packets are left, and they have no residue. */
  method LastIteration(l: Layout, gk: GroupKey, mem: array<Packet>, jobs: seq<Job>, alive: array<nat>, enc: array<int>,
                       ib: array<Block>, blockOut: array<Block>, k: nat, ghost packets: seq<Packet>, ghost key: Key)
    requires l.Valid() && gk.kk == key.kk
    requires enc.Length == ib.Length == blockOut.Length == l.Lanes() && |jobs| <= l.Lanes()
    requires Apart(mem, alive, enc, ib, blockOut)
    requires GroupOf(jobs, packets, mem.Length) && AliveOf(alive[..], jobs) && k <= 22 && (k == 22 || alive[k] == 0)
    requires AllAtBlock(enc[..], ib[..], packets, key, k) && Done(mem[..], jobs, packets, key, k)
    modifies blockOut, mem
    ensures forall g :: 0 <= g < |jobs| ==> mem[jobs[g].pkt] == Descrambled(key, packets[g])
    ensures OnlyGroup(mem[..], old(mem[..]), jobs, 0, |jobs|)
  {
    hide Intermediate, Decipher, After, Splice;
    BlockDecypherGroup(gk.kk, ib, blockOut, l.Lanes(), alive[22]);
    forall g | 0 <= g < alive[22]
      ensures enc[g] == 4 + 8 * 22 && blockOut[g] == Decipher(SboxTable(), key.kk, Intermediate(key, packets[g], 22))
    {
      assert AtBlock(enc[g], ib[g], packets[g], key, k);
      assert g < alive[k];
      StepLast(key, packets[g]);
    }
    WriteDead(mem, jobs, enc, blockOut, 0, alive[22]);
    forall g | 0 <= g < |jobs| ensures mem[jobs[g].pkt] == Descrambled(key, packets[g]) {
      if g < alive[22] {
        StepLast(key, packets[g]);
      }
    }
  }

  /** Decrypts a sorted group of packets, whatever the unused lanes hold. */
  method RunGroup(l: Layout, gk: GroupKey, mem: array<Packet>, jobs: seq<Job>, alive: array<nat>, tab: array<Group>,
                  ghost packets: seq<Packet>, ghost key: Key)
    requires l.Valid() && KeyOf(gk, key, l.Lanes()) && tab.Length == 64 && |jobs| <= l.Lanes()
    requires GroupOf(jobs, packets, mem.Length) && AliveOf(alive[..], jobs)
    requires forall g :: 0 <= g < |jobs| ==> mem[jobs[g].pkt] == packets[g]
    modifies mem, tab
    ensures forall g :: 0 <= g < |jobs| ==> mem[jobs[g].pkt] == Descrambled(key, packets[g])
    ensures OnlyGroup(mem[..], old(mem[..]), jobs, 0, |jobs|)
  {
    hide PacketBlock, StreamBlock, Intermediate, Decipher, After, Streaming, AllAtBlock, Done, OnlyGroup, JobOf;
    GroupIsWhole(jobs, packets, mem.Length);
    var regs := new StreamRegs(l.Lanes());
    var enc, ib, blockOut := new int[l.Lanes()], new Block[l.Lanes()], new Block[l.Lanes()];
    FirstBlocks(regs, l, gk, mem, jobs, enc, ib, tab, packets, key);
    NothingDone(mem[..], jobs, packets, key);
    OnlyGroupSelf(mem[..], jobs);
    var iter := 1;
    while iter < 23 && alive[iter - 1] > 0
      invariant 1 <= iter <= 23 && regs.Valid()
      invariant Streaming(regs.View(32), l, packets, key, iter - 1) && AllAtBlock(enc[..], ib[..], packets, key, iter - 1)
      invariant Done(mem[..], jobs, packets, key, iter - 1)
      invariant OnlyGroup(mem[..], old(mem[..]), jobs, 0, |jobs|)
    {
      ghost var now := mem[..];
      Iteration(regs, l, gk, mem, jobs, alive, enc, ib, blockOut, tab, iter, packets, key);
      OnlyGroupTwice(mem[..], now, old(mem[..]), jobs);
      iter := iter + 1;
    }
    ghost var now := mem[..];
    LastIteration(l, gk, mem, jobs, alive, enc, ib, blockOut, iter - 1, packets, key);
    OnlyGroupTwice(mem[..], now, old(mem[..]), jobs);
  }
}
