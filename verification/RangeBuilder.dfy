/** Choosing the packets of one service from a buffer, as ranges. */
module RangeBuilder {
  import opened Sequences
  import opened Csa
  import opened Headers
  import opened TsPacket
  import opened Cluster
  import opened Walk
  import opened WalkExact
  import opened Decrypt
  import opened Driver
  import opened FastEcm

  type PidMap = map<int, int>

  /** Where the payload starts, or 0 if there is none or the packet is broken. */
  function PayloadOffset(p: Packet): (o: nat)
    ensures o != 0 ==> o == Offset(p) && 4 <= o <= 188
    ensures o == 0 <==> p[0] != TS_SYNC_BYTE || p[3] & 0x30 == 0
                        || (p[3] & 0x20 != 0 && p[4] as int > (if p[3] & 0x10 != 0 then 182 else 183))
  {
    var adapt, payload := p[3] & 0x20 != 0, p[3] & 0x10 != 0;
    assert p[3] & 0x20 == 0x20 <==> p[3] & 0x20 != 0;
    assert p[3] & 0x30 == 0 <==> p[3] & 0x20 == 0 && p[3] & 0x10 == 0;
    if p[0] != TS_SYNC_BYTE then 0
    else if !adapt && !payload then 0
    else if adapt then
      var len := p[4] as int;
      if payload && len > 182 then 0
      else if !payload && len > 183 then 0
      else if len + 4 > 188 then 0
      else 4 + 1 + len
    else 4
  }

  /** A scrambled packet with a payload, of a PID that is mapped to some key. */
  predicate Mapped(p: Packet, pids: PidMap) {
    Scrambled(p) && PayloadOffset(p) != 0 && Pid(p) < MAX_CSA_PID && Pid(p) in pids
  }

  predicate Chosen(p: Packet, pids: PidMap, idx: int) { Mapped(p, pids) && pids[Pid(p)] == idx }

  ghost predicate Increasing(all: seq<int>) { forall i, j :: 0 <= i < j < |all| ==> all[i] < all[j] }

  /** How many of the first s packets are chosen. */
  function CountChosen(mem: seq<Packet>, pids: PidMap, idx: int, s: nat): nat
    requires s <= |mem|
  {
    if s == 0 then 0 else CountChosen(mem, pids, idx, s - 1) + if Chosen(mem[s - 1], pids, idx) then 1 else 0
  }

  ghost function ChosenSet(mem: seq<Packet>, pids: PidMap, idx: int, s: nat): set<int>
    requires s <= |mem|
  {
    set x | 0 <= x < s && Chosen(mem[x], pids, idx)
  }

  lemma {:induction false} CountIs(mem: seq<Packet>, pids: PidMap, idx: int, s: nat)
    requires s <= |mem|
    ensures CountChosen(mem, pids, idx, s) == |ChosenSet(mem, pids, idx, s)|
  {
    hide Chosen;
    if s > 0 {
      CountIs(mem, pids, idx, s - 1);
      var before := ChosenSet(mem, pids, idx, s - 1);
      if Chosen(mem[s - 1], pids, idx) {
        assert ChosenSet(mem, pids, idx, s) == before + {s - 1};
      } else {
        assert ChosenSet(mem, pids, idx, s) == before;
      }
    } else {
      assert ChosenSet(mem, pids, idx, s) == {};
    }
  }

  /** The last chosen packet among the first s ones, or -1. */
  function LastChosen(mem: seq<Packet>, pids: PidMap, idx: int, s: nat): (x: int)
    requires s <= |mem|
    ensures -1 <= x < s && (x >= 0 ==> Chosen(mem[x], pids, idx))
    ensures forall y :: x < y < s ==> !Chosen(mem[y], pids, idx)
  {
    if s == 0 then -1 else if Chosen(mem[s - 1], pids, idx) then s - 1 else LastChosen(mem, pids, idx, s - 1)
  }

  /** The first chosen packet with a whole block from x on, before s, or -1. */
  function FirstWholeChosen(mem: seq<Packet>, pids: PidMap, idx: int, s: nat, x: nat): (y: int)
    requires x <= s <= |mem|
    ensures y == -1 || (x <= y < s && Chosen(mem[y], pids, idx) && BlockCount(mem[y]) > 0)
    ensures forall z :: x <= z < (if y == -1 then s else y) ==> !(Chosen(mem[z], pids, idx) && BlockCount(mem[z]) > 0)
    decreases s - x
  {
    if x == s then -1
    else if Chosen(mem[x], pids, idx) && BlockCount(mem[x]) > 0 then x
    else FirstWholeChosen(mem, pids, idx, s, x + 1)
  }

  /** In terms of header fields: which packets are mapped, and the parity they ask for. */
  lemma MappedIs(p: Packet, h: Header, pids: PidMap)
    requires HasHeader(p, h)
    ensures Mapped(p, pids) <==>
              && p[0] == 0x47 && h.control >= 2 && h.adaptation > 0 && h.pid < 8191 && h.pid in pids
              && (h.adaptation == 3 ==> p[4] as int <= 182) && (h.adaptation == 2 ==> p[4] as int <= 183)
    ensures ParityOf(p) == if h.control % 2 == 1 then 2 else 1
  {
    FieldsOf(p, h);
    ThirdByte(p[3] as int, h);
    AdaptationBits(p[3]);
    hide Scrambled, Odd, Pid, HasHeader;
  }

  lemma AdaptationBits(b: bv8)
    ensures b & 0x20 != 0 <==> b as int / 32 % 2 == 1
    ensures b & 0x10 != 0 <==> b as int / 16 % 2 == 1
    ensures b & 0x30 == 0 <==> b & 0x20 == 0 && b & 0x10 == 0
  {
    BitBelow(b);
    assert b & 0x20 != 0 <==> b & 0x20 == 0x20;
    assert b & 0x10 != 0 <==> b & 0x10 == 0x10;
  }

  // What a scan comes to, told from the buffer alone.

  /** How many whole packets len bytes hold. */
  function Packets(len: int): (n: nat)
    ensures len < 188 ==> n == 0
    ensures len >= 188 ==> 188 * n <= len < 188 * n + 188
  {
    if len < 188 then 0 else len / 188
  }

  /** The first packet from x on, before e, without a sync byte, or e. */
  function InSync(mem: seq<Packet>, e: nat, x: nat): (y: nat)
    requires x <= e <= |mem|
    ensures x <= y <= e && (y < e ==> mem[y][0] != TS_SYNC_BYTE)
    ensures forall z :: x <= z < y ==> mem[z][0] == TS_SYNC_BYTE
    decreases e - x
  {
    if x == e || mem[x][0] != TS_SYNC_BYTE then x else InSync(mem, e, x + 1)
  }

  /** The first mapped packet from x on, before e, or e. */
  function FirstMapped(mem: seq<Packet>, pids: PidMap, e: nat, x: nat): (y: nat)
    requires x <= e <= |mem|
    ensures x <= y <= e && (y < e ==> Mapped(mem[y], pids))
    ensures forall z :: x <= z < y ==> !Mapped(mem[z], pids)
    decreases e - x
  {
    if x == e || Mapped(mem[x], pids) then x else FirstMapped(mem, pids, e, x + 1)
  }

  /** The key of the first mapped packet before sync is lost; -1 if there is none. */
  function Service(mem: seq<Packet>, pids: PidMap, len: int): int
    requires len <= 188 * |mem|
  {
    var e := InSync(mem, Packets(len), 0);
    var y := FirstMapped(mem, pids, e, 0);
    if y < e then pids[Pid(mem[y])] else -1
  }

  /** The first count from x on at which enough packets are chosen, or e. */
  function SeenFrom(mem: seq<Packet>, pids: PidMap, idx: int, e: nat, csnew: nat, x: nat): (y: nat)
    requires x <= e <= |mem|
    ensures x <= y <= e && (y < e ==> CountChosen(mem, pids, idx, y) >= csnew)
    ensures forall z :: x <= z < y ==> CountChosen(mem, pids, idx, z) < csnew
    decreases e - x
  {
    if x == e || CountChosen(mem, pids, idx, x) >= csnew then x else SeenFrom(mem, pids, idx, e, csnew, x + 1)
  }

  /** How many packets are looked at: until enough are chosen, sync is lost, or at the end. */
  function Seen(mem: seq<Packet>, pids: PidMap, len: int, csnew: nat): (y: nat)
    requires len <= 188 * |mem|
    ensures y <= |mem|
  {
    SeenFrom(mem, pids, Service(mem, pids, len), InSync(mem, Packets(len), 0), csnew, 0)
  }

  /** The caller has no use of the first packet: it is clear, or nobody's. */
  predicate Refused(mem: seq<Packet>, pids: PidMap, len: int)
    requires len <= 188 * |mem|
  {
    && len >= 188 && mem[0][0] == TS_SYNC_BYTE
    && (!Scrambled(mem[0]) || (PayloadOffset(mem[0]) != 0 && !Mapped(mem[0], pids)))
  }

  lemma {:induction false} CountGrows(mem: seq<Packet>, pids: PidMap, idx: int, x: nat, y: nat)
    requires x <= y <= |mem|
    ensures CountChosen(mem, pids, idx, x) <= CountChosen(mem, pids, idx, y)
    decreases y
  {
    hide Chosen;
    if x < y {
      CountGrows(mem, pids, idx, x, y - 1);
    }
  }

  /** What the scan knows of its service: first is the first mapped packet. */
  ghost predicate Serves(mem: seq<Packet>, pids: PidMap, s: nat, first: nat, currIdx: int) {
    && first <= s <= |mem| && (forall z :: 0 <= z < first ==> !Mapped(mem[z], pids))
    && (forall z :: 0 <= z < s ==> mem[z][0] == TS_SYNC_BYTE)
    && if currIdx < 0 then first == s else first < s && Mapped(mem[first], pids) && currIdx == pids[Pid(mem[first])]
  }

  /** The scan ends at the end of the buffer, where sync is lost, or with enough packets. */
  lemma ScanFixed(mem: seq<Packet>, pids: PidMap, len: int, csnew: nat, s: nat, first: nat, currIdx: int)
    requires len <= 188 * |mem| && csnew >= 1 && Serves(mem, pids, s, first, currIdx) && s <= Packets(len)
    requires forall pid :: pid in pids ==> pids[pid] >= 0
    requires forall z :: 0 <= z < s ==> CountChosen(mem, pids, currIdx, z) < csnew
    requires s == Packets(len) || mem[s][0] != TS_SYNC_BYTE || (currIdx >= 0 && CountChosen(mem, pids, currIdx, s) >= csnew)
    ensures Service(mem, pids, len) == (if currIdx < 0 then -1 else currIdx) && Seen(mem, pids, len, csnew) == s
  {
    hide Mapped, Chosen, Pid, CountChosen;
    var e := InSync(mem, Packets(len), 0);
    assert s <= e;
    var y := FirstMapped(mem, pids, e, 0);
    if currIdx >= 0 {
      assert y == first;
    } else {
      assert e == s == y;
      forall z | 0 <= z < s ensures CountChosen(mem, pids, -1, z) < csnew {
        NoneNegative(mem, pids, -1, z);
      }
    }
  }

  /** One packet more. */
  lemma ServesNext(mem: seq<Packet>, pids: PidMap, s: nat, first: nat, currIdx: int, now: int)
    requires Serves(mem, pids, s, first, currIdx) && s < |mem| && mem[s][0] == TS_SYNC_BYTE
    requires forall pid :: pid in pids ==> pids[pid] >= 0
    requires now == if currIdx < 0 && Mapped(mem[s], pids) then pids[Pid(mem[s])] else currIdx
    ensures Serves(mem, pids, s + 1, if now < 0 then s + 1 else if currIdx < 0 then s else first, now)
  {
    hide Scrambled, Pid, PayloadOffset;
  }

  function ParityOf(p: Packet): int { if Odd(p) then ODD else EVEN }

  /** The list under construction: m entries, then the null start. */
  ghost predicate Holds(c: seq<int>, m: nat, all: seq<int>, slots: nat) {
    && m < |c| && c[m] == NULL && NoEnd(c, m) && NoneEmptyBefore(c, m)
    && (forall k :: 0 <= k < m ==> c[k] <= slots)
    && ListedBefore(c, m) == all
  }

  lemma HoldsAll(c: seq<int>, m: nat, all: seq<int>, slots: nat)
    requires Holds(c, m, all, slots)
    ensures Terminated(c, 0, slots) && NoneEmpty(c, 0) && Listed(c, 0) == all
  {
    ClosedList(c, m, slots);
    ListedSplit(c, m);
  }

  lemma AddRange(c: seq<int>, m: nat, all: seq<int>, slots: nat, s: nat)
    requires Holds(c, m, all, slots) && m + 2 < |c| && s < slots
    ensures Holds(c[m := s][m + 2 := NULL][m + 1 := s + 1], m + 2, all + [s], slots)
  {
    var d := c[m := s][m + 2 := NULL][m + 1 := s + 1];
    assert c[..m] == d[..m];
    BeforeFrame(c, d, m);
    assert Span(s, s + 1) == [s] + Span(s + 1, s + 1);
  }

  lemma ExtendRange(c: seq<int>, m: nat, all: seq<int>, slots: nat, s: nat)
    requires Holds(c, m, all, slots) && m >= 2 && c[m - 2] < c[m - 1] <= s < slots
    ensures Holds(c[m - 1 := s + 1], m, all + Span(c[m - 1], s + 1), slots)
  {
    var d := c[m - 1 := s + 1];
    assert c[..m - 2] == d[..m - 2];
    BeforeFrame(c, d, m - 2);
    SpanSplit(c[m - 2], c[m - 1], s + 1);
    hide Span;
    InOneGo(ListedBefore(c, m - 2), Span(c[m - 2], c[m - 1]), Span(c[m - 1], s + 1));
    assert ListedBefore(d, m) == ListedBefore(c, m - 2) + Span(c[m - 2], s + 1);
    hide ListedBefore;
    assert NoneEmptyBefore(d, m);
  }

  lemma {:induction false} SpanSplit(lo: int, mid: int, hi: int)
    requires lo <= mid <= hi
    ensures Span(lo, mid) + Span(mid, hi) == Span(lo, hi)
    decreases mid - lo
  {
    if lo < mid {
      SpanSplit(lo + 1, mid, hi);
      assert [lo] + Span(lo + 1, mid) + Span(mid, hi) == [lo] + (Span(lo + 1, mid) + Span(mid, hi));
    }
  }

  lemma {:induction false} SpanIncreasing(lo: int, hi: int)
    ensures Increasing(Span(lo, hi))
    decreases hi - lo
  {
    SpanMembers(lo, hi);
    if lo < hi {
      SpanIncreasing(lo + 1, hi);
      SpanMembers(lo + 1, hi);
      var all := Span(lo, hi);
      forall i, j | 0 <= i < j < |all| ensures all[i] < all[j] {
        assert all[j] == Span(lo + 1, hi)[j - 1];
        if i > 0 {
          assert all[i] == Span(lo + 1, hi)[i - 1];
        } else {
          assert Span(lo + 1, hi)[j - 1] in Span(lo + 1, hi);
        }
      }
    }
  }

  /** What has been listed when s packets have been seen and the last range ends
      at end: chosen packets, all of them, and clear ones between them. */
  ghost predicate Picked(all: seq<int>, mem: seq<Packet>, pids: PidMap, idx: int, s: nat, end: int)
    requires s <= |mem|
  {
    && Increasing(all) && end <= s
    && (forall x :: x in all ==> 0 <= x < end && (Chosen(mem[x], pids, idx) || !Scrambled(mem[x])))
    && forall x :: 0 <= x < s && Chosen(mem[x], pids, idx) ==> x in all
  }

  lemma PickedAdd(all: seq<int>, mem: seq<Packet>, pids: PidMap, idx: int, s: nat, end: int, from: nat)
    requires s < |mem| && Picked(all, mem, pids, idx, s, end) && Chosen(mem[s], pids, idx)
    requires end <= from <= s && forall x :: from <= x < s ==> !Scrambled(mem[x])
    ensures Picked(all + Span(from, s + 1), mem, pids, idx, s + 1, s + 1)
  {
    hide Chosen, Scrambled;
    var more := Span(from, s + 1);
    SpanMembers(from, s + 1);
    SpanIncreasing(from, s + 1);
    var now := all + more;
    forall i, j | 0 <= i < j < |now| ensures now[i] < now[j] {
      if i < |all| <= j {
        assert now[i] in all && now[j] in more;
      } else if |all| <= i {
        assert now[i] == more[i - |all|] && now[j] == more[j - |all|];
      }
    }
    forall x | x in now ensures 0 <= x < s + 1 && (Chosen(mem[x], pids, idx) || !Scrambled(mem[x])) {
      if x in all {
      } else {
        assert x in more;
      }
    }
    forall x | 0 <= x < s + 1 && Chosen(mem[x], pids, idx) ensures x in now {
      if x == s {
        assert x in more;
      } else {
        assert x in all;
      }
    }
  }

  lemma PickedSkip(all: seq<int>, mem: seq<Packet>, pids: PidMap, idx: int, s: nat, end: int)
    requires s < |mem| && Picked(all, mem, pids, idx, s, end) && !Chosen(mem[s], pids, idx)
    ensures Picked(all, mem, pids, idx, s + 1, end)
  {
    hide Chosen, Scrambled;
  }

  /** The state of the scan over the buffer. */
  ghost predicate Scan(c: seq<int>, r: int, ccs: nat, newRange: bool, currIdx: int, all: seq<int>,
                       mem: seq<Packet>, pids: PidMap, s: nat, csnew: nat) {
    && -2 <= r && s <= |mem| && |c| == 2 * csnew + 5 && r + 2 <= 2 * ccs && ccs <= csnew
    && Holds(c, r + 2, all, |mem|)
    && (currIdx < 0 ==> r == -2 && newRange && all == [] && ccs == 0
                        && forall x, idx :: 0 <= x < s && idx >= 0 ==> !Chosen(mem[x], pids, idx))
    && (currIdx >= 0 ==> r >= 0 && all != [] && 0 <= c[r] < c[r + 1] && ccs == CountChosen(mem, pids, currIdx, s)
                         && Picked(all, mem, pids, currIdx, s, c[r + 1])
                         && (!newRange ==> forall x :: c[r + 1] <= x < s ==> !Scrambled(mem[x])))
  }

  /** A packet that is not chosen; scrambled ones make a hole. */
  lemma ScanSkip(c: seq<int>, r: int, ccs: nat, newRange: bool, hole: bool, currIdx: int, all: seq<int>,
                 mem: seq<Packet>, pids: PidMap, s: nat, csnew: nat)
    requires Scan(c, r, ccs, newRange, currIdx, all, mem, pids, s, csnew) && s < |mem|
    requires forall idx :: idx >= 0 && (currIdx < 0 || idx == currIdx) ==> !Chosen(mem[s], pids, idx)
    requires hole || !Scrambled(mem[s])
    ensures Scan(c, r, ccs, newRange || hole, currIdx, all, mem, pids, s + 1, csnew)
  {
    hide Chosen, Scrambled, Holds;
    if currIdx >= 0 {
      PickedSkip(all, mem, pids, currIdx, s, c[r + 1]);
    }
  }

  /** What is known of the packets before a chosen one. */
  lemma ScanBefore(c: seq<int>, r: int, ccs: nat, newRange: bool, currIdx: int, all: seq<int>,
                   mem: seq<Packet>, pids: PidMap, s: nat, csnew: nat, idx: int)
    requires Scan(c, r, ccs, newRange, currIdx, all, mem, pids, s, csnew) && idx >= 0 && (currIdx < 0 || idx == currIdx)
    ensures Picked(all, mem, pids, idx, s, if r < 0 then 0 else c[r + 1]) && ccs == CountChosen(mem, pids, idx, s)
  {
    hide Chosen, Scrambled, Holds;
    if currIdx < 0 {
      NoneChosen(mem, pids, idx, s);
    }
  }

  /** A chosen packet opens a range. */
  lemma ScanOpen(c: seq<int>, r: int, ccs: nat, currIdx: int, all: seq<int>,
                 mem: seq<Packet>, pids: PidMap, s: nat, csnew: nat, idx: int)
    requires Scan(c, r, ccs, true, currIdx, all, mem, pids, s, csnew) && s < |mem| && ccs < csnew
    requires idx >= 0 && Chosen(mem[s], pids, idx) && (currIdx < 0 || idx == currIdx)
    ensures Scan(c[r + 2 := s][r + 4 := NULL][r + 3 := s + 1], r + 2, ccs + 1, false, idx,
                 all + Span(s, s + 1), mem, pids, s + 1, csnew)
  {
    hide Chosen, Scrambled, Holds, Span;
    ScanBefore(c, r, ccs, true, currIdx, all, mem, pids, s, csnew, idx);
    PickedAdd(all, mem, pids, idx, s, if r < 0 then 0 else c[r + 1], s);
    hide Picked;
    AddRange(c, r + 2, all, |mem|, s);
    OneSpan(s);
  }

  lemma OneSpan(s: int)
    ensures Span(s, s + 1) == [s]
  {
    assert Span(s + 1, s + 1) == [];
  }

  /** A chosen packet extends the last range over clear packets. */
  lemma ScanExtend(c: seq<int>, r: int, ccs: nat, currIdx: int, all: seq<int>,
                   mem: seq<Packet>, pids: PidMap, s: nat, csnew: nat, idx: int)
    requires Scan(c, r, ccs, false, currIdx, all, mem, pids, s, csnew) && s < |mem| && ccs < csnew
    requires idx >= 0 && Chosen(mem[s], pids, idx) && (currIdx < 0 || idx == currIdx)
    ensures r >= 0 && Scan(c[r + 1 := s + 1], r, ccs + 1, false, idx, all + Span(c[r + 1], s + 1), mem, pids, s + 1, csnew)
  {
    hide Chosen, Scrambled, Holds, Span;
    ScanBefore(c, r, ccs, false, currIdx, all, mem, pids, s, csnew, idx);
    PickedAdd(all, mem, pids, idx, s, c[r + 1], c[r + 1]);
    hide Picked;
    ExtendRange(c, r + 2, all, |mem|, s);
  }

  lemma {:induction false} NoneChosen(mem: seq<Packet>, pids: PidMap, idx: int, s: nat)
    requires s <= |mem| && forall x :: 0 <= x < s ==> !Chosen(mem[x], pids, idx)
    ensures CountChosen(mem, pids, idx, s) == 0
  {
    hide Chosen;
    if s > 0 {
      NoneChosen(mem, pids, idx, s - 1);
    }
  }

  class DeCSAAdapter {
    const csnew: nat
    const rangenew: array<int>
    var adapterPidMap: PidMap

    ghost predicate Valid()
      reads this
    {
      csnew >= 1 && rangenew.Length == csnew * 2 + 5 && forall pid :: pid in adapterPidMap ==> adapterPidMap[pid] >= 0
    }

    constructor (n: nat)
      ensures Valid() && fresh(rangenew) && adapterPidMap == map[]
      ensures csnew >= n + 5 && csnew >= n + n / 10 && (csnew == n + 5 || csnew == n + n / 10)
    {
      var r := n + n / 10;
      if r < n + 5 {
        r := n + 5;
      }
      csnew := r;
      rangenew := new int[r * 2 + 5];
      adapterPidMap := map[];
    }

    /** Assigns a PID to a key, or ends its descrambling. */
    method SetCaPid(pid: int, index: int)
      requires Valid()
      modifies this
      ensures Valid()
      ensures adapterPidMap - {pid} == old(adapterPidMap) - {pid}
      ensures pid in adapterPidMap <==> index >= 0
      ensures index >= 0 ==> adapterPidMap[pid] == index
    {
      if index < 0 {
        adapterPidMap := adapterPidMap - {pid};
      } else {
        adapterPidMap := adapterPidMap[pid := index];
      }
    }

    method SearchPid(pid: int) returns (idx: int)
      requires Valid()
      ensures idx == if pid in adapterPidMap then adapterPidMap[pid] else -1
    {
      idx := if pid in adapterPidMap then adapterPidMap[pid] else -1;
    }

    /** Puts a chosen packet into the ranges. */
    method TakePacket(s: nat, idx: int, newRange: bool, r: int, ghost ccs: nat, ghost currIdx: int, ghost all: seq<int>,
                      ghost mem: seq<Packet>)
      returns (now: int, ghost listed: seq<int>)
      requires Valid() && s < |mem| && ccs < csnew && Scan(rangenew[..], r, ccs, newRange, currIdx, all, mem, adapterPidMap, s, csnew)
      requires idx >= 0 && Chosen(mem[s], adapterPidMap, idx) && (currIdx < 0 || idx == currIdx)
      modifies rangenew
      ensures Scan(rangenew[..], now, ccs + 1, false, idx, listed, mem, adapterPidMap, s + 1, csnew)
    {
      ghost var c := rangenew[..];
      now := r;
      if newRange {
        ScanOpen(c, r, ccs, currIdx, all, mem, adapterPidMap, s, csnew, idx);
        now := r + 2;
        rangenew[now] := s;
        rangenew[now + 2] := NULL;
        listed := all + Span(s, s + 1);
        assert rangenew[..] == c[r + 2 := s][r + 4 := NULL];
      } else {
        ScanExtend(c, r, ccs, currIdx, all, mem, adapterPidMap, s, csnew, idx);
        listed := all + Span(c[r + 1], s + 1);
      }
      hide Scan;
      rangenew[now + 1] := s + 1;
      assert rangenew[..] == if newRange then c[r + 2 := s][r + 4 := NULL][r + 3 := s + 1] else c[r + 1 := s + 1];
    }

    lemma IsValid()
      requires Valid()
      ensures csnew >= 1 && rangenew.Length == csnew * 2 + 5 && forall pid :: pid in adapterPidMap ==> adapterPidMap[pid] >= 0
    {
    }

    /** Scans the first len bytes of the buffer; refused when its first packet is
        not one to be decrypted. */
    method BuildRanges(mem: array<Packet>, len: int)
      returns (refused: bool, currIdx: int, r: int, ccs: nat, newRange: bool, wantsparity: int, curPid: int,
               ghost seen: nat, ghost all: seq<int>)
      requires Valid() && len <= 188 * mem.Length
      modifies rangenew
      ensures refused <==> Refused(mem[..], adapterPidMap, len)
      ensures !refused ==> Service(mem[..], adapterPidMap, len) == (if currIdx < 0 then -1 else currIdx)
      ensures !refused ==> seen == Seen(mem[..], adapterPidMap, len, csnew)
      ensures !refused ==> Scan(rangenew[..], r, ccs, newRange, currIdx, all, mem[..], adapterPidMap, seen, csnew)
      ensures !refused && currIdx >= 0 ==> seen > 0 && Asked(mem[..], adapterPidMap, currIdx, seen, wantsparity, curPid)
      ensures !refused && currIdx >= 0 && Scrambled(mem[0]) && PayloadOffset(mem[0]) != 0 ==> Chosen(mem[0], adapterPidMap, currIdx)
    {
      hide *;
      PacketsIn(len);
      IsRefused(mem[..], adapterPidMap, len);
      IsValid();
      wantsparity, curPid := 0, 0;
      r, ccs, currIdx, refused := -2, 0, -1, false;
      newRange := true;
      rangenew[0] := NULL;
      seen, all := 0, [];
      ghost var first := 0;
      ScanStarts(rangenew[..], mem[..], adapterPidMap, csnew);
      ServesNone(mem[..], adapterPidMap);
      var s := 0;
      while 188 * s < len - 187
        invariant 0 <= s <= mem.Length && 188 * s <= (if len < 0 then 0 else len) && s == seen && !refused && ccs < csnew
        invariant Scan(rangenew[..], r, ccs, newRange, currIdx, all, mem[..], adapterPidMap, s, csnew)
        invariant currIdx >= 0 ==> s > 0 && Asked(mem[..], adapterPidMap, currIdx, s, wantsparity, curPid)
        invariant Serves(mem[..], adapterPidMap, s, first, currIdx) && s <= Packets(len)
        invariant s > 0 ==> !Refused(mem[..], adapterPidMap, len)
        decreases len - 188 * s
      {
        var p := mem[s];
        ghost var was := currIdx;
        ChosenOr(p, adapterPidMap);
        AskedStays(mem[..], adapterPidMap, currIdx, s, wantsparity, curPid);
        if p[0] != TS_SYNC_BYTE {
          break;
        }
        var plain, evOdd := Control(p);
        if !plain {
          var offset := PayloadOffset(p);
          if offset == 0 {
            ScanSkip(rangenew[..], r, ccs, newRange, true, currIdx, all, mem[..], adapterPidMap, s, csnew);
            newRange := true;
          } else {
            var pid := Pid(p);
            var idx := SearchPid(pid);
            if s == 0 && (idx < 0 || pid == MAX_CSA_PID) {
              refused := true;
              return;
            }
            if idx >= 0 && pid < MAX_CSA_PID && (currIdx < 0 || idx == currIdx) {
              r, all := TakePacket(s, idx, newRange, r, ccs, currIdx, all, mem[..]);
              currIdx := idx;
              curPid := pid;
              wantsparity := if evOdd then ODD else EVEN;
              newRange := false;
              ccs := ccs + 1;
              AskedNow(mem[..], adapterPidMap, idx, s);
              if ccs >= csnew {
                ServesNext(mem[..], adapterPidMap, s, first, was, currIdx);
                first := if was < 0 then s else first;
                seen := s + 1;
                break;
              }
            } else {
              ScanSkip(rangenew[..], r, ccs, newRange, true, currIdx, all, mem[..], adapterPidMap, s, csnew);
              newRange := true;
            }
          }
        } else if s == 0 {
          refused := true;
          return;
        } else {
          ScanSkip(rangenew[..], r, ccs, newRange, false, currIdx, all, mem[..], adapterPidMap, s, csnew);
        }
        ServesNext(mem[..], adapterPidMap, s, first, was, currIdx);
        first := if currIdx < 0 then s + 1 else if was < 0 then s else first;
        s := s + 1;
        seen := s;
      }
      ScanCounts(rangenew[..], r, ccs, newRange, currIdx, all, mem[..], adapterPidMap, seen, csnew, s);
      ScanFixed(mem[..], adapterPidMap, len, csnew, seen, first, currIdx);
      if currIdx >= 0 {
        FirstServed(mem[..], adapterPidMap, len, currIdx);
      }
    }

    /** Decrypts a group of the packets that are of the same service as the first
        ones. With Fast ECM, the parity of the last chosen packet is waited for;
        keyArray and keys hold the keys as they are after that. */
    method Decrypt(l: Transpose.Layout, keyArray: map<int, GroupKeys>, mem: array<Packet>, len: int, force: bool,
                   fast: bool, ecm: FastEcmKey, outside: seq<seq<Event>>, aborted: seq<bool>, timedOut: seq<bool>,
                   ghost clock: nat, ghost keys: map<int, Keys>)
      returns (ok: bool, ghost all: seq<int>)
      requires Valid() && len <= 188 * mem.Length && l.Valid()
      requires forall idx :: idx in keyArray ==> idx in keys && KeysOf(keyArray[idx], keys[idx], l.Lanes())
      requires Inv(ecm.State(), clock) && |outside| == |aborted| == |timedOut| == 51 && ProperAll(outside, clock)
      modifies rangenew, mem, ecm
      ensures ok <==> Succeeds(old(mem[..]), adapterPidMap, len, csnew, force, keyArray.Keys)
                      && (fast ==> !Cancelled(old(mem[..]), adapterPidMap, len, csnew, old(ecm.State()), outside, aborted, timedOut))
      ensures !ok ==> mem[..] == old(mem[..])
      ensures ok ==> var idx, seen := Service(old(mem[..]), adapterPidMap, len), Seen(old(mem[..]), adapterPidMap, len, csnew);
                && idx in keys && OneGroup(mem[..], old(mem[..]), all, adapterPidMap, idx, seen, l.Lanes(), keys[idx])
                && AsAsked(mem[..], old(mem[..]), adapterPidMap, idx, seen)
      ensures ok && Scrambled(old(mem[0])) && PayloadOffset(old(mem[0])) != 0 ==>
                var idx := Service(old(mem[..]), adapterPidMap, len);
                idx in keys && mem[0] == DecryptOne(keys[idx], old(mem[0])) && !Scrambled(mem[0])
      ensures ok && fast ==>
                var last := Last(old(mem[..]), adapterPidMap, len, csnew);
                ecm.State() == RESET || Held(ecm.State(), Pid(last), ParityOf(last))
    {
      hide *;
      ghost var orig := mem[..];
      var refused, idx, r, ccs, newRange, wantsparity, curPid;
      ghost var seen;
      refused, idx, r, ccs, newRange, wantsparity, curPid, seen, all := BuildRanges(mem, len);
      var going := !refused && r >= 0 && (ccs >= csnew || force) && idx >= 0 && idx in keyArray;
      GoesOn(rangenew[..], refused, idx, r, ccs, newRange, all, orig, adapterPidMap, len, csnew, seen, force, keyArray.Keys);
      if !going {
        return false, all;
      }
      AskedParity(orig, adapterPidMap, idx, seen, wantsparity, curPid);
      AskedLast(orig, adapterPidMap, len, csnew, wantsparity, curPid, ecm.State(), outside, aborted, timedOut);
      if fast {
        var granted, sleeps := ecm.WaitForParity(curPid, wantsparity, outside, aborted, timedOut, clock);
        if !granted {
          return false, all;
        }
      } else {
        ecm.SetActiveParity2(curPid, wantsparity);
      }
      ghost var c := rangenew[..];
      ScanDone(c, r, ccs, newRange, idx, all, orig, adapterPidMap, seen, csnew);
      var n := DecryptPackets(l, keyArray[idx], mem, rangenew, keys[idx]);
      SomeLanes(l);
      CallDrops(mem[..], orig, all, l.Lanes(), keys[idx]);
      IsOneGroup(mem[..], orig, all, adapterPidMap, idx, seen, c[r + 1], n, l.Lanes(), keys[idx]);
      GroupAsAsked(mem[..], orig, all, adapterPidMap, idx, seen, c[r + 1], l.Lanes(), keys[idx]);
      ok := n > 0;
    }
  }

  /** When a call has something to decrypt and does it. */
  ghost predicate Succeeds(mem: seq<Packet>, pids: PidMap, len: int, csnew: nat, force: bool, keyed: set<int>)
    requires len <= 188 * |mem|
  {
    var idx, seen := Service(mem, pids, len), Seen(mem, pids, len, csnew);
    !Refused(mem, pids, len) && idx >= 0 && (force || CountChosen(mem, pids, idx, seen) >= csnew) && idx in keyed
  }

  /** The last chosen packet. */
  ghost function Last(mem: seq<Packet>, pids: PidMap, len: int, csnew: nat): Packet
    requires len <= 188 * |mem| && |mem| > 0
  {
    var x := LastChosen(mem, pids, Service(mem, pids, len), Seen(mem, pids, len, csnew));
    if x >= 0 then mem[x] else mem[0]
  }

  /** The wait for the parity of the last chosen packet is aborted. */
  ghost predicate Cancelled(mem: seq<Packet>, pids: PidMap, len: int, csnew: nat, s: Ecm,
                            outside: seq<seq<Event>>, aborted: seq<bool>, timedOut: seq<bool>)
    requires len <= 188 * |mem| && |outside| == |aborted| == |timedOut|
  {
    |mem| > 0 && var last := Last(mem, pids, len, csnew); WaitFails(s, Pid(last), ParityOf(last), outside, aborted, timedOut)
  }

  /** One group of the packets seen is decrypted, from a list of the chosen ones,
      all of them and in order, and clear ones between them. */
  ghost predicate OneGroup(now: seq<Packet>, orig: seq<Packet>, all: seq<int>, pids: PidMap, idx: int, seen: nat, n: nat, keys: Keys) {
    && seen <= |orig| == |now| && Picked(all, orig, pids, idx, seen, seen) && InMemory(all, |orig|)
    && TakenOnly(now, orig, all, n, keys)
    && forall x :: 0 <= x < |orig| && now[x] != orig[x] ==> Chosen(orig[x], pids, idx) && now[x] == DecryptOne(keys, orig[x])
  }

  /** Parity and PID of the last chosen packet. */
  ghost predicate Asked(mem: seq<Packet>, pids: PidMap, idx: int, s: nat, parity: int, pid: int) {
    s <= |mem| && var x := LastChosen(mem, pids, idx, s); x >= 0 && parity == ParityOf(mem[x]) && pid == Pid(mem[x])
  }

  lemma AskedParity(mem: seq<Packet>, pids: PidMap, idx: int, s: nat, parity: int, pid: int)
    requires Asked(mem, pids, idx, s, parity, pid)
    ensures Parity(parity)
  {
    hide Chosen, Odd, Pid;
  }

  lemma SomeLanes(l: Transpose.Layout)
    requires l.Valid()
    ensures l.Lanes() > 0
  {
  }

  /** Whether the call goes on to decrypt. */
  lemma GoesOn(c: seq<int>, refused: bool, idx: int, r: int, ccs: nat, newRange: bool, all: seq<int>, mem: seq<Packet>,
               pids: PidMap, len: int, csnew: nat, seen: nat, force: bool, keyed: set<int>)
    requires len <= 188 * |mem| && (refused <==> Refused(mem, pids, len))
    requires !refused ==> Service(mem, pids, len) == (if idx < 0 then -1 else idx) && seen == Seen(mem, pids, len, csnew)
    requires !refused ==> Scan(c, r, ccs, newRange, idx, all, mem, pids, seen, csnew)
    ensures Succeeds(mem, pids, len, csnew, force, keyed) <==>
              !refused && r >= 0 && (ccs >= csnew || force) && idx >= 0 && idx in keyed
  {
    hide Refused, Service, Seen, Holds, Picked, Chosen, CountChosen;
  }

  lemma AskedLast(mem: seq<Packet>, pids: PidMap, len: int, csnew: nat, parity: int, pid: int,
                  s: Ecm, outside: seq<seq<Event>>, aborted: seq<bool>, timedOut: seq<bool>)
    requires len <= 188 * |mem| && |outside| == |aborted| == |timedOut|
    requires Asked(mem, pids, Service(mem, pids, len), Seen(mem, pids, len, csnew), parity, pid)
    ensures |mem| > 0 && pid == Pid(Last(mem, pids, len, csnew)) && parity == ParityOf(Last(mem, pids, len, csnew))
    ensures Cancelled(mem, pids, len, csnew, s, outside, aborted, timedOut) <==> WaitFails(s, pid, parity, outside, aborted, timedOut)
  {
    hide Service, Seen, LastChosen, Pid, ParityOf, WaitFails;
  }

  lemma IsOneGroup(now: seq<Packet>, orig: seq<Packet>, all: seq<int>, pids: PidMap, idx: int, seen: nat, end: int,
                   n: nat, lanes: nat, keys: Keys)
    requires seen <= |orig| && Picked(all, orig, pids, idx, seen, end) && Partly(now, orig, all, n, keys) && n >= 1
    requires TakenOnly(now, orig, all, lanes, keys)
    ensures OneGroup(now, orig, all, pids, idx, seen, lanes, keys)
    ensures seen > 0 && Chosen(orig[0], pids, idx) ==> now[0] == DecryptOne(keys, orig[0]) && !Scrambled(now[0])
  {
    hide TakenOnly, Chosen, Scrambled, DecryptOne;
    OnlyChosen(now, orig, all, pids, idx, seen, end, n, keys);
  }

  lemma AskedNow(mem: seq<Packet>, pids: PidMap, idx: int, s: nat)
    requires s < |mem| && Chosen(mem[s], pids, idx)
    ensures Asked(mem, pids, idx, s + 1, if Odd(mem[s]) then ODD else EVEN, Pid(mem[s]))
  {
    hide Chosen, Odd, Pid;
  }

  lemma AskedStays(mem: seq<Packet>, pids: PidMap, idx: int, s: nat, parity: int, pid: int)
    requires s < |mem|
    ensures Asked(mem, pids, idx, s, parity, pid) && !Chosen(mem[s], pids, idx) ==> Asked(mem, pids, idx, s + 1, parity, pid)
  {
    hide Chosen, Odd, Pid;
  }

  /** A first packet that is scrambled and has a payload is of the service. */
  lemma FirstServed(mem: seq<Packet>, pids: PidMap, len: int, idx: int)
    requires len <= 188 * |mem| && !Refused(mem, pids, len) && Service(mem, pids, len) == idx >= 0
    ensures |mem| > 0 && (Scrambled(mem[0]) && PayloadOffset(mem[0]) != 0 ==> Chosen(mem[0], pids, idx))
  {
    hide Scrambled, PayloadOffset, Pid;
    var e := InSync(mem, Packets(len), 0);
    var y := FirstMapped(mem, pids, e, 0);
    assert y < e && mem[0][0] == TS_SYNC_BYTE;
    PidBelow(mem[0]);
  }

  lemma PidBelow(p: Packet)
    ensures Pid(p) <= MAX_CSA_PID
  {
  }

  lemma PacketsIn(len: int)
    ensures forall s: nat :: 188 * s < len - 187 <==> s < Packets(len)
  {
  }

  lemma IsRefused(mem: seq<Packet>, pids: PidMap, len: int)
    requires len <= 188 * |mem|
    ensures Refused(mem, pids, len) ==
              (len >= 188 && mem[0][0] == TS_SYNC_BYTE
               && (!Scrambled(mem[0]) || (PayloadOffset(mem[0]) != 0 && (Pid(mem[0]) == MAX_CSA_PID || Pid(mem[0]) !in pids))))
  {
  }

  lemma ServesNone(mem: seq<Packet>, pids: PidMap)
    ensures Serves(mem, pids, 0, 0, -1)
  {
  }

  /** The counts before the last packet looked at. */
  lemma ScanCounts(c: seq<int>, r: int, ccs: nat, newRange: bool, currIdx: int, all: seq<int>,
                   mem: seq<Packet>, pids: PidMap, seen: nat, csnew: nat, s: nat)
    requires Scan(c, r, ccs, newRange, currIdx, all, mem, pids, seen, csnew) && s <= |mem|
    requires (seen == s && ccs < csnew) || (seen == s + 1 && ccs == csnew && currIdx >= 0 && Chosen(mem[s], pids, currIdx))
    requires csnew >= 1 && forall pid :: pid in pids ==> pids[pid] >= 0
    ensures forall z :: 0 <= z < seen ==> CountChosen(mem, pids, currIdx, z) < csnew
    ensures currIdx >= 0 ==> CountChosen(mem, pids, currIdx, seen) == ccs
  {
    hide Holds, Picked, Chosen;
    forall z | 0 <= z < seen ensures CountChosen(mem, pids, currIdx, z) < csnew {
      if currIdx >= 0 {
        CountGrows(mem, pids, currIdx, z, if seen == s then s else seen - 1);
      } else {
        NoneNegative(mem, pids, currIdx, z);
      }
    }
  }

  lemma {:induction false} NoneNegative(mem: seq<Packet>, pids: PidMap, idx: int, s: nat)
    requires s <= |mem| && idx < 0 && forall pid :: pid in pids ==> pids[pid] >= 0
    ensures CountChosen(mem, pids, idx, s) == 0
  {
    hide Scrambled, Pid, PayloadOffset;
    if s > 0 {
      NoneNegative(mem, pids, idx, s - 1);
    }
  }

  /** When a packet is chosen, and when not. */
  lemma ChosenOr(p: Packet, pids: PidMap)
    ensures Mapped(p, pids) <==> Scrambled(p) && PayloadOffset(p) != 0 && Pid(p) < MAX_CSA_PID && Pid(p) in pids
    ensures forall idx :: Chosen(p, pids, idx) <==>
              Scrambled(p) && PayloadOffset(p) != 0 && Pid(p) < MAX_CSA_PID && Pid(p) in pids && pids[Pid(p)] == idx
  {
  }

  /** All decrypted blocks have the parity that was asked for if and only if the first
      chosen packet that holds a block has the parity of the last chosen one. */
  ghost predicate AsAsked(now: seq<Packet>, orig: seq<Packet>, pids: PidMap, idx: int, s: nat)
    requires s <= |orig| == |now|
  {
    var first, last := FirstWholeChosen(orig, pids, idx, s, 0), LastChosen(orig, pids, idx, s);
    first >= 0 && last >= 0 ==>
      ((forall x :: 0 <= x < |orig| && now[x] != orig[x] && BlockCount(orig[x]) > 0 ==> ParityOf(orig[x]) == ParityOf(orig[last]))
       <==> ParityOf(orig[first]) == ParityOf(orig[last]))
  }

  lemma {:induction false} NoneJoined(orig: seq<Packet>, all: seq<int>, k: nat)
    requires InMemory(all, |orig|) && k <= Leader(orig, all)
    ensures Joined(orig, all, k) == 0
  {
    if k > 0 {
      hide Whole, OfGroup;
      NoneJoined(orig, all, k - 1);
    }
  }

  /** The first packet of the group is the first chosen one that holds a block. */
  lemma LeaderIsFirst(orig: seq<Packet>, all: seq<int>, pids: PidMap, idx: int, s: nat, end: int)
    requires s <= |orig| && Picked(all, orig, pids, idx, s, end) && InMemory(all, |orig|)
    ensures var i, first := Leader(orig, all), FirstWholeChosen(orig, pids, idx, s, 0);
            first >= 0 ==> i < |all| && all[i] == first
  {
    hide Chosen, Scrambled, BlockCount, FirstWholeChosen;
    var i, first := Leader(orig, all), FirstWholeChosen(orig, pids, idx, s, 0);
    if first >= 0 {
      assert first in all;
      var j: nat :| j < |all| && all[j] == first;
      ChosenIsScrambled(orig[first], pids, idx);
      assert Whole(orig, all, j);
      assert i <= j;
      assert all[i] in all;
      assert Whole(orig, all, i);
      assert all[i] <= first;
    }
  }

  lemma ChosenIsScrambled(p: Packet, pids: PidMap, idx: int)
    ensures Chosen(p, pids, idx) ==> Scrambled(p)
  {
  }

  lemma GroupAsAsked(now: seq<Packet>, orig: seq<Packet>, all: seq<int>, pids: PidMap, idx: int, s: nat, end: int, n: nat, keys: Keys)
    requires s <= |orig| && Picked(all, orig, pids, idx, s, end) && InMemory(all, |orig|) && n > 0
    requires TakenOnly(now, orig, all, n, keys)
    ensures AsAsked(now, orig, pids, idx, s)
  {
    hide Chosen, Scrambled, DecryptOne, Odd, BlockCount, Leader, End, FirstWholeChosen, LastChosen, Picked;
    var first, last := FirstWholeChosen(orig, pids, idx, s, 0), LastChosen(orig, pids, idx, s);
    if first >= 0 && last >= 0 {
      var e := End(orig, all, n);
      LeaderIsFirst(orig, all, pids, idx, s, end);
      LeaderTaken(orig, all, n);
      TakenDiffers(orig, all, e, first, keys);
      forall x | 0 <= x < |orig| && now[x] != orig[x] && BlockCount(orig[x]) > 0 ensures ParityOf(orig[x]) == ParityOf(orig[first]) {
        WholeTaken(orig, all, e, x);
      }
    }
  }

  lemma LeaderTaken(orig: seq<Packet>, all: seq<int>, n: nat)
    requires InMemory(all, |orig|) && n > 0 && Leader(orig, all) < |all|
    ensures Taken(orig, all, End(orig, all, n), all[Leader(orig, all)])
  {
    hide BlockCount;
    var i, e := Leader(orig, all), End(orig, all, n);
    if e <= i {
      NoneJoined(orig, all, e);
    }
    assert i < e && TakenAt(orig, all, i);
  }

  lemma WholeTaken(orig: seq<Packet>, all: seq<int>, e: nat, x: int)
    requires InMemory(all, |orig|) && e <= |all| && 0 <= x < |orig| && Taken(orig, all, e, x) && BlockCount(orig[x]) > 0
    requires Leader(orig, all) < |all|
    ensures Odd(orig[x]) == Odd(orig[all[Leader(orig, all)]])
  {
    hide BlockCount, Odd, Scrambled;
    var j: nat :| j < e && all[j] == x && TakenAt(orig, all, j);
    assert j < Leader(orig, all) ==> !Whole(orig, all, j);
  }

  /** A buffer with an odd and then an even packet of a PID that was granted the even
      word, the odd word being old: the request is for the even word and is answered
      at once, though one for the odd word would have to wait, and a group of the
      odd packet is decrypted. */
  lemma OddBeforeEven(n: nat)
    requires n > 0
    ensures var s, orig, pids := Ecm(1000, 400, EVEN, map[100 := EVEN]), [ODD_PACKET, EVEN_PACKET], map[100 := 0];
            && Inv(s, 1000) && Picked([0, 1], orig, pids, 0, 2, 2) && InMemory([0, 1], 2)
            && Asked(orig, pids, 0, 2, EVEN, 100) && Answer(s, 100, EVEN, false) == 1 && MustWait(s, 100, ODD)
            && Taken(orig, [0, 1], End(orig, [0, 1], n), 0) && BlockCount(orig[0]) > 0 && ParityOf(orig[0]) == ODD
  {
    var orig := [ODD_PACKET, EVEN_PACKET];
    FullPackets();
    hide Scrambled, BlockCount, Odd;
    assert Pid(ODD_PACKET) == 100 && Pid(EVEN_PACKET) == 100;
    assert PayloadOffset(ODD_PACKET) == 4 && PayloadOffset(EVEN_PACKET) == 4;
    assert Whole(orig, [0, 1], 0);
    assert Leader(orig, [0, 1]) == 0;
    LeaderTaken(orig, [0, 1], n);
  }

  /** The ranges that a scan has built. */
  lemma ScanDone(c: seq<int>, r: int, ccs: nat, newRange: bool, currIdx: int, all: seq<int>,
                 mem: seq<Packet>, pids: PidMap, s: nat, csnew: nat)
    requires Scan(c, r, ccs, newRange, currIdx, all, mem, pids, s, csnew) && r >= 0
    ensures r + 1 < |c| && s <= |mem| && Terminated(c, 0, |mem|) && Listed(c, 0) == all && all != []
    ensures Picked(all, mem, pids, currIdx, s, c[r + 1]) && InMemory(all, |mem|)
  {
    hide Chosen, Scrambled;
    HoldsAll(c, r + 2, all, |mem|);
    ListedInMemory(c, 0, |mem|);
  }

  /** What one call decrypts of the picked packets. */
  lemma OnlyChosen(now: seq<Packet>, orig: seq<Packet>, all: seq<int>, pids: PidMap, idx: int, s: nat, end: int, n: nat, keys: Keys)
    requires s <= |orig| && Picked(all, orig, pids, idx, s, end) && Partly(now, orig, all, n, keys) && n >= 1
    ensures forall x :: 0 <= x < |orig| && now[x] != orig[x] ==> Chosen(orig[x], pids, idx) && now[x] == DecryptOne(keys, orig[x])
    ensures s > 0 && Chosen(orig[0], pids, idx) ==> now[0] == DecryptOne(keys, orig[0]) && !Scrambled(now[0])
  {
    hide Chosen, Scrambled, DecryptOne;
    forall x | 0 <= x < |orig| && now[x] != orig[x] ensures Chosen(orig[x], pids, idx) && now[x] == DecryptOne(keys, orig[x]) {
      ClearStays(keys, orig[x]);
    }
    if s > 0 && Chosen(orig[0], pids, idx) {
      var j :| 0 <= j < |all| && all[j] == 0;
      assert all[0] in all;
      assert all[0] == 0;
      DecryptOnce(keys, orig[0]);
    }
  }

  lemma ScanStarts(c: seq<int>, mem: seq<Packet>, pids: PidMap, csnew: nat)
    requires |c| == 2 * csnew + 5 && c[0] == NULL
    ensures Scan(c, -2, 0, true, -1, [], mem, pids, 0, csnew)
  {
  }
}
