/** Finding the packets of a group: the walk over the ranges. */
module Walk {
  import opened Csa
  import opened TsPacket
  import opened Jobs
  import opened Cluster

  /** What the walk has found: the memory with cleared headers, the group, the
      parity of the group, whether ranges may still shrink, and by how many
      packets they have shrunk. */
  datatype Walk = Walk(mem: seq<Packet>, jobs: seq<Job>, odd: bool, canAdvance: bool, advanced: nat)

  function Advance(w: Walk): Walk { if w.canAdvance then w.(advanced := w.advanced + 1) else w }

  function JobFor(s: int, p: Packet): Job {
    var len := 188 - Offset(p);
    Job(s, len, Offset(p), BlockCount(p), len - 8 * BlockCount(p))
  }

  /** One packet: clear and reserved ones are passed over, those of the group's
      parity lose their scrambling bits and join the group if they hold a block,
      and the first one of the other parity stops the ranges from shrinking. */
  function Examine(w: Walk, s: int): (v: Walk)
    requires 0 <= s < |w.mem|
    ensures |v.mem| == |w.mem| && forall t :: 0 <= t < |w.mem| && t != s ==> v.mem[t] == w.mem[t]
  {
    var p := w.mem[s];
    if !Scrambled(p) then Advance(w)
    else if w.jobs != [] && w.odd != Odd(p) then w.(canAdvance := false)
    else
      var q := HeaderCleared(p);
      var v := Advance(w.(mem := w.mem[s := q], odd := Odd(p)));
      if BlockCount(q) == 0 then v else v.(jobs := v.jobs + [JobFor(s, q)])
  }

  ghost predicate InMemory(slots: seq<int>, count: nat) {
    forall j :: 0 <= j < |slots| ==> 0 <= slots[j] < count
  }

  /** The packets one after the other, until the group is full. */
  function WalkAll(w: Walk, slots: seq<int>, n: nat): (v: Walk)
    requires InMemory(slots, |w.mem|)
    ensures |v.mem| == |w.mem|
    decreases |slots|
  {
    if slots == [] || |w.jobs| == n then w else WalkAll(Examine(w, slots[0]), slots[1..], n)
  }

  /** Length, offset, whole blocks and residue of the payload; no blocks if the
      packet is broken. */
  method PayloadOf(p: Packet) returns (len: int, offset: int, n: int, residue: int)
    ensures n == BlockCount(p)
    ensures n > 0 ==> forall s :: Job(s, len, offset, n, residue) == JobFor(s, p)
  {
    if p[3] & 0x20 == 0x20 {
      offset := 4 + p[4] as int + 1;
      len := 188 - offset;
      if len <= 0 {
        n, residue := 0, 0;
        return;
      }
      n := len / 8;
      residue := len - n * 8;
    } else {
      len, offset, n, residue := 184, 4, 23, 0;
    }
  }

  /** The two scrambling control bits: clear or reserved, and which key. */
  method Control(p: Packet) returns (plain: bool, evOdd: bool)
    ensures plain <==> !Scrambled(p)
    ensures evOdd <==> Odd(p)
  {
    var xc0 := p[3] & 0xc0;
    plain := xc0 == 0x00 || xc0 == 0x40;
    evOdd := xc0 & 0x40 == 0x40;
  }

  /** Looks at one packet in place. */
  method ExaminePacket(mem: array<Packet>, g: array<Job>, s: int, grouped: nat, groupOdd: bool, canAdvance: bool, advanced: nat)
    returns (nowGrouped: nat, nowOdd: bool, nowCan: bool, nowAdvanced: nat)
    requires 0 <= s < mem.Length && grouped < g.Length
    modifies mem, g
    ensures nowGrouped <= g.Length
    ensures Walk(mem[..], g[..nowGrouped], nowOdd, nowCan, nowAdvanced)
         == Examine(old(Walk(mem[..], g[..grouped], groupOdd, canAdvance, advanced)), s)
  {
    hide BlockCount, JobFor, HeaderCleared, Odd, Scrambled;
    ghost var w := Walk(mem[..], g[..grouped], groupOdd, canAdvance, advanced);
    nowGrouped, nowOdd, nowCan, nowAdvanced := grouped, groupOdd, canAdvance, advanced;
    var plain, evOdd := Control(mem[s]);
    if plain {
      if canAdvance {
        nowAdvanced := advanced + 1;
      }
      return;
    }
    if grouped == 0 {
      nowOdd := evOdd;
    }
    if nowOdd != evOdd {
      nowCan := false;
      return;
    }
    if canAdvance {
      nowAdvanced := advanced + 1;
    }
    var q := HeaderCleared(mem[s]);
    mem[s] := q;
    assert mem[..] == w.mem[s := q];
    var len, offset, n, residue := PayloadOf(q);
    if n == 0 {
      return;
    }
    g[grouped] := Job(s, len, offset, n, residue);
    nowGrouped := grouped + 1;
    assert g[..nowGrouped] == w.jobs + [JobFor(s, q)];
  }

  /** Packets are dropped one by one until the walk stops dropping. */
  lemma ExamineMoves(w: Walk, s: int)
    requires 0 <= s < |w.mem|
    ensures var v := Examine(w, s);
            if v.canAdvance then w.canAdvance && v.advanced == w.advanced + 1 else v.advanced == w.advanced
  {
  }

  /** The packets not yet looked at when the walk is at pkt of the range at index i. */
  function Rest(c: seq<int>, i: nat, pkt: int): seq<int> {
    if i + 1 >= |c| || pkt == NULL then [] else Span(pkt, c[i + 1]) + Listed(c, i + 2)
  }

  /** The walk is at pkt of the range at index i; the ranges hold what is left of
      all the packets. */
  ghost predicate At(c: seq<int>, i: nat, pkt: int, canAdvance: bool, advanced: nat, all: seq<int>, slots: nat) {
    && i < |c| && Terminated(c, 0, slots) && Terminated(c, i, slots) && NoEnd(c, i)
    && (pkt == NULL <==> c[i] == NULL) && pkt >= c[i]
    && advanced <= |all| && Listed(c, 0) == all[advanced..]
    && (canAdvance ==> pkt == c[i] && Listed(c, i) == all[advanced..])
    && InMemory(Rest(c, i, pkt), slots)
  }

  lemma StartAt(c: seq<int>, slots: nat)
    requires Terminated(c, 0, slots)
    ensures At(c, 0, c[0], true, 0, Listed(c, 0), slots) && Rest(c, 0, c[0]) == Listed(c, 0)
  {
    ListedInMemory(c, 0, slots);
  }

  lemma {:induction false} SpanInMemory(lo: int, hi: int, slots: nat)
    requires 0 <= lo && hi <= slots
    ensures InMemory(Span(lo, hi), slots)
    decreases hi - lo
  {
    if lo < hi {
      SpanInMemory(lo + 1, hi, slots);
    }
  }

  lemma {:induction false} ListedInMemory(c: seq<int>, i: nat, slots: nat)
    requires Terminated(c, i, slots)
    ensures InMemory(Listed(c, i), slots)
    decreases |c| - i
  {
    if c[i] != NULL {
      SpanInMemory(c[i], c[i + 1], slots);
      ListedInMemory(c, i + 2, slots);
    }
  }

  lemma InRange(c: seq<int>, i: nat, pkt: int, canAdvance: bool, advanced: nat, all: seq<int>, slots: nat)
    requires At(c, i, pkt, canAdvance, advanced, all, slots) && pkt != NULL
    ensures i + 2 < |c| && c[i + 1] <= slots && 0 <= pkt
  {
  }

  /** Out of this range: on to the next one. */
  lemma NextRange(c: seq<int>, i: nat, pkt: int, canAdvance: bool, advanced: nat, all: seq<int>, slots: nat)
    requires At(c, i, pkt, canAdvance, advanced, all, slots) && pkt != NULL && i + 2 < |c| && pkt >= c[i + 1]
    ensures At(c, i + 2, c[i + 2], canAdvance, advanced, all, slots)
    ensures Rest(c, i + 2, c[i + 2]) == Rest(c, i, pkt)
  {
    RestOver(c, i, pkt);
    if canAdvance {
      ListedOver(c, i);
    }
    hide Rest, Span, Listed;
  }

  lemma ListedOver(c: seq<int>, i: nat)
    requires i + 2 < |c| && c[i] != NULL && c[i] >= c[i + 1]
    ensures Listed(c, i) == Listed(c, i + 2)
  {
    assert Span(c[i], c[i + 1]) == [];
    hide Span;
    assert Listed(c, i) == Span(c[i], c[i + 1]) + Listed(c, i + 2);
  }

  lemma RestOver(c: seq<int>, i: nat, pkt: int)
    requires i + 2 < |c| && pkt != NULL && pkt >= c[i + 1]
    ensures Rest(c, i, pkt) == Listed(c, i + 2) == Rest(c, i + 2, c[i + 2])
  {
    assert Span(pkt, c[i + 1]) == [];
  }

  lemma InMemoryTail(x: int, rest: seq<int>, slots: nat)
    requires InMemory([x] + rest, slots)
    ensures 0 <= x < slots && InMemory(rest, slots)
  {
    assert ([x] + rest)[0] == x;
    forall j | 0 <= j < |rest| ensures 0 <= rest[j] < slots {
      assert ([x] + rest)[j + 1] == rest[j];
    }
  }

  lemma RestStep(c: seq<int>, i: nat, pkt: int, slots: nat)
    requires i + 2 < |c| && 0 <= pkt < c[i + 1] && InMemory(Rest(c, i, pkt), slots)
    ensures Rest(c, i, pkt) == [pkt] + Rest(c, i, pkt + 1)
    ensures InMemory(Rest(c, i, pkt + 1), slots)
  {
    hide Listed;
    assert [pkt] + Span(pkt + 1, c[i + 1]) + Listed(c, i + 2) == [pkt] + (Span(pkt + 1, c[i + 1]) + Listed(c, i + 2));
    InMemoryTail(pkt, Rest(c, i, pkt + 1), slots);
  }

  /** The next packet of the range, whose start does not move any more. */
  lemma NextStays(c: seq<int>, i: nat, pkt: int, canAdvance: bool, advanced: nat, all: seq<int>, slots: nat)
    requires At(c, i, pkt, canAdvance, advanced, all, slots) && pkt != NULL && i + 2 < |c| && pkt < c[i + 1]
    ensures At(c, i, pkt + 1, false, advanced, all, slots)
    ensures Rest(c, i, pkt) == [pkt] + Rest(c, i, pkt + 1)
  {
    InRange(c, i, pkt, canAdvance, advanced, all, slots);
    RestStep(c, i, pkt, slots);
    hide Terminated, Listed, NoEnd, Span, Rest, InMemory;
  }

  /** The next packet of the range, whose start moves with it: one packet is dropped. */
  lemma NextMoves(c: seq<int>, i: nat, pkt: int, advanced: nat, all: seq<int>, slots: nat)
    requires At(c, i, pkt, true, advanced, all, slots) && pkt != NULL && i + 2 < |c| && pkt < c[i + 1]
    ensures var d := c[i := c[i] + 1];
            At(d, i, pkt + 1, true, advanced + 1, all, slots) && Rest(c, i, pkt) == [pkt] + Rest(d, i, pkt + 1)
  {
    var d := c[i := c[i] + 1];
    InRange(c, i, pkt, true, advanced, all, slots);
    RestStep(c, i, pkt, slots);
    Shrunk(c, i, slots);
    assert Rest(c, i, pkt) == Listed(c, i) && Rest(d, i, pkt + 1) == Listed(d, i) == Rest(c, i, pkt + 1);
    hide Terminated, Listed, NoEnd, Span, Rest, InMemory;
    assert all[advanced..] == [pkt] + Listed(d, i);
    assert all[advanced + 1..] == all[advanced..][1..] == Listed(d, i);
  }

  /** A range that loses its first packet, when all before it are empty. */
  lemma Shrunk(c: seq<int>, i: nat, slots: nat)
    requires i + 2 < |c| && 0 <= c[i] < c[i + 1] <= slots && Terminated(c, 0, slots) && Terminated(c, i, slots) && NoEnd(c, i)
    requires Listed(c, 0) == Listed(c, i)
    ensures var d := c[i := c[i] + 1];
            && Terminated(d, 0, slots) && Terminated(d, i, slots) && NoEnd(d, i)
            && Listed(d, i + 2) == Listed(c, i + 2) && Listed(d, 0) == Listed(d, i)
  {
    var d := c[i := c[i] + 1];
    assert d[..i] == c[..i] && d[i + 2..] == c[i + 2..];
    BeforeFrame(c, d, i);
    TerminatedFrame(c, d, i + 2, slots);
    StillTerminated(c, d, i, i, slots);
    ListedSplit(c, i);
    ListedSplit(d, i);
    hide Listed, ListedBefore;
    assert |ListedBefore(c, i)| == 0;
  }

  lemma {:induction false} StillTerminated(c: seq<int>, d: seq<int>, i: nat, k: nat, slots: nat)
    requires k <= i < |c| && Terminated(c, 0, slots) && NoEnd(c, k) && Terminated(d, k, slots)
    requires |c| == |d| && d[..i] == c[..i]
    ensures Terminated(d, 0, slots)
  {
    if k > 0 {
      assert d[k - 2] == d[..i][k - 2] && d[k - 1] == d[..i][k - 1];
      UpTo(c, k - 2, slots);
      StillTerminated(c, d, i, k - 2, slots);
    }
  }

  lemma {:induction false} UpTo(c: seq<int>, k: nat, slots: nat)
    requires k <= |c| && Terminated(c, 0, slots) && NoEnd(c, k)
    ensures Terminated(c, k, slots)
  {
    if k > 0 {
      UpTo(c, k - 2, slots);
    }
  }

  /** Handles the packet at pkt; the start of its range follows if it may. */
  method VisitPacket(mem: array<Packet>, cluster: array<int>, g: array<Job>, clst: nat, pkt: int,
                     grouped: nat, groupOdd: bool, canAdvance: bool, advanced: nat, ghost all: seq<int>)
    returns (nowGrouped: nat, nowOdd: bool, nowCan: bool, nowAdvanced: nat)
    requires At(cluster[..], clst, pkt, canAdvance, advanced, all, mem.Length) && pkt != NULL
    requires clst + 2 < cluster.Length && pkt < cluster[clst + 1] && grouped < g.Length
    modifies mem, cluster, g
    ensures nowGrouped <= g.Length && 0 <= pkt < mem.Length && At(cluster[..], clst, pkt + 1, nowCan, nowAdvanced, all, mem.Length)
    ensures old(Rest(cluster[..], clst, pkt)) == [pkt] + Rest(cluster[..], clst, pkt + 1)
    ensures Walk(mem[..], g[..nowGrouped], nowOdd, nowCan, nowAdvanced)
         == Examine(old(Walk(mem[..], g[..grouped], groupOdd, canAdvance, advanced)), pkt)
    ensures cluster[clst + 1] == old(cluster[clst + 1])
  {
    hide Examine, Terminated, Listed, NoEnd, Rest;
    ghost var was := Walk(mem[..], g[..grouped], groupOdd, canAdvance, advanced);
    ghost var c := cluster[..];
    InRange(c, clst, pkt, canAdvance, advanced, all, mem.Length);
    nowGrouped, nowOdd, nowCan, nowAdvanced := ExaminePacket(mem, g, pkt, grouped, groupOdd, canAdvance, advanced);
    ExamineMoves(was, pkt);
    hide At;
    if nowCan {
      NextMoves(c, clst, pkt, advanced, all, mem.Length);
      cluster[clst] := cluster[clst] + 1;
      assert cluster[..] == c[clst := c[clst] + 1];
    } else {
      NextStays(c, clst, pkt, canAdvance, advanced, all, mem.Length);
    }
  }

  lemma WalkOne(w: Walk, s: int, rest: seq<int>, n: nat)
    requires InMemory([s] + rest, |w.mem|) && |w.jobs| < n
    ensures 0 <= s < |w.mem| && InMemory(rest, |w.mem|)
    ensures WalkAll(w, [s] + rest, n) == WalkAll(Examine(w, s), rest, n)
  {
    hide Examine;
    InMemoryTail(s, rest, |w.mem|);
    assert ([s] + rest)[1..] == rest;
  }

  /** What is left to walk leads where the whole walk leads. */
  ghost predicate Walking(c: seq<int>, i: nat, pkt: int, w: Walk, start: Walk, all: seq<int>, n: nat) {
    && |start.mem| == |w.mem| && |w.jobs| <= n && InMemory(all, |w.mem|)
    && At(c, i, pkt, w.canAdvance, w.advanced, all, |w.mem|)
    && WalkAll(w, Rest(c, i, pkt), n) == WalkAll(start, all, n)
  }

  lemma WalkStarts(c: seq<int>, w: Walk, n: nat)
    requires Terminated(c, 0, |w.mem|) && w.canAdvance && w.advanced == 0 && w.jobs == []
    ensures |c| > 0 && Walking(c, 0, c[0], w, w, Listed(c, 0), n)
  {
    hide Examine, WalkAll;
    StartAt(c, |w.mem|);
  }

  lemma WalkOn(c: seq<int>, i: nat, pkt: int, w: Walk, start: Walk, all: seq<int>, n: nat)
    requires Walking(c, i, pkt, w, start, all, n) && pkt != NULL
    ensures i + 2 < |c|
    ensures pkt >= c[i + 1] ==> Walking(c, i + 2, c[i + 2], w, start, all, n)
    ensures pkt < c[i + 1] ==> At(c, i, pkt, w.canAdvance, w.advanced, all, |w.mem|)
  {
    hide Examine, WalkAll;
    InRange(c, i, pkt, w.canAdvance, w.advanced, all, |w.mem|);
    if pkt >= c[i + 1] {
      NextRange(c, i, pkt, w.canAdvance, w.advanced, all, |w.mem|);
    }
  }

  lemma WalkVisited(c: seq<int>, d: seq<int>, i: nat, pkt: int, w: Walk, v: Walk, start: Walk, all: seq<int>, n: nat)
    requires Walking(c, i, pkt, w, start, all, n) && |w.jobs| < n
    requires 0 <= pkt < |w.mem| && v == Examine(w, pkt)
    requires At(d, i, pkt + 1, v.canAdvance, v.advanced, all, |w.mem|) && Rest(c, i, pkt) == [pkt] + Rest(d, i, pkt + 1)
    ensures Walking(d, i, pkt + 1, v, start, all, n)
  {
    hide WalkAll, Terminated, Listed, NoEnd, Rest;
    WalkOne(w, pkt, Rest(d, i, pkt + 1), n);
  }

  lemma WalkEnds(c: seq<int>, i: nat, pkt: int, w: Walk, start: Walk, all: seq<int>, n: nat)
    requires Walking(c, i, pkt, w, start, all, n) && (pkt == NULL || |w.jobs| == n)
    ensures InMemory(all, |start.mem|) && w == WalkAll(start, all, n)
    ensures w.advanced <= |all| && Listed(c, 0) == all[w.advanced..] && Terminated(c, 0, |w.mem|)
  {
    hide Examine, NoEnd;
  }

  /** Builds the group and moves the starts of the ranges. */
  method Collect(mem: array<Packet>, cluster: array<int>, g: array<Job>, n: nat)
    returns (grouped: nat, odd: bool, canAdvance: bool, advanced: nat)
    requires g.Length == n && Terminated(cluster[..], 0, mem.Length)
    modifies mem, cluster, g
    ensures grouped <= n && advanced <= |old(Listed(cluster[..], 0))|
    ensures InMemory(old(Listed(cluster[..], 0)), mem.Length)
    ensures Walk(mem[..], g[..grouped], odd, canAdvance, advanced)
         == WalkAll(Walk(old(mem[..]), [], false, true, 0), old(Listed(cluster[..], 0)), n)
    ensures Terminated(cluster[..], 0, mem.Length)
    ensures Listed(cluster[..], 0) == old(Listed(cluster[..], 0))[advanced..]
  {
    hide Examine, Terminated, Listed, Walking, WalkAll, At, Rest, InMemory;
    ghost var all := Listed(cluster[..], 0);
    ghost var start := Walk(mem[..], [], false, true, 0);
    grouped, odd, advanced, canAdvance := 0, false, 0, true;
    var clst := 0;
    WalkStarts(cluster[..], start, n);
    var pkt := cluster[0];
    assert g[..0] == [];
    while grouped != n && pkt != NULL
      invariant grouped <= n && clst < cluster.Length
      invariant Walking(cluster[..], clst, pkt, Walk(mem[..], g[..grouped], odd, canAdvance, advanced), start, all, n)
      decreases cluster.Length - clst, if clst + 1 < cluster.Length then cluster[clst + 1] - pkt else 0
    {
      ghost var was := Walk(mem[..], g[..grouped], odd, canAdvance, advanced);
      ghost var c := cluster[..];
      WalkOn(c, clst, pkt, was, start, all, n);
      if pkt >= cluster[clst + 1] {
        clst := clst + 2;
        pkt := cluster[clst];
      } else {
        grouped, odd, canAdvance, advanced := VisitPacket(mem, cluster, g, clst, pkt, grouped, odd, canAdvance, advanced, all);
        WalkVisited(c, cluster[..], clst, pkt, was, Walk(mem[..], g[..grouped], odd, canAdvance, advanced), start, all, n);
        pkt := pkt + 1;
      }
    }
    WalkEnds(cluster[..], clst, pkt, Walk(mem[..], g[..grouped], odd, canAdvance, advanced), start, all, n);
  }
}
