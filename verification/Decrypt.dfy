/** One call of decrypt_packets. */
module Decrypt {
  import opened StreamGroup
  import opened Transpose
  import opened Csa
  import opened TsPacket
  import opened Jobs
  import opened Cluster
  import opened Walk
  import opened WalkFacts
  import opened WalkExact
  import opened GroupDecrypt

  /** The two keys, as they are stored for a group. */
  datatype GroupKeys = GroupKeys(even: GroupKey, odd: GroupKey)

  ghost predicate KeysOf(gks: GroupKeys, keys: Keys, n: nat) { KeyOf(gks.even, keys.even, n) && KeyOf(gks.odd, keys.odd, n) }

  function KeyOfGroup(keys: Keys, odd: bool): Key { if odd then keys.odd else keys.even }

  /** Every packet that the walk took is decrypted, every other one is as it was. */
  ghost predicate Finished(now: seq<Packet>, w: Walk, orig: seq<Packet>, keys: Keys)
    requires |w.mem| == |orig|
  {
    |now| == |orig| && forall s :: 0 <= s < |orig| ==> SlotFinished(now[s], w.mem[s], orig[s], keys)
  }

  ghost predicate SlotFinished(now: Packet, walked: Packet, orig: Packet, keys: Keys) {
    now == if walked == orig then orig else DecryptOne(keys, orig)
  }

  /** The entries of the group describe the packets they name. */
  lemma GroupDescribed(w: Walk, orig: seq<Packet>, sorted: seq<Job>)
    requires WalkOk(w, orig) && SameBag(sorted, w.jobs)
    ensures Distinct(sorted) && |sorted| == |w.jobs|
    ensures forall g :: 0 <= g < |sorted| ==> 0 <= sorted[g].pkt < |w.mem| && JobOf(sorted[g], w.mem[sorted[g].pkt])
  {
    hide Offset, BlockCount, Scrambled, SameBag;
    BagDistinct(sorted, w.jobs);
    BagMembers(sorted, w.jobs);
    forall g | 0 <= g < |sorted| ensures 0 <= sorted[g].pkt < |w.mem| && JobOf(sorted[g], w.mem[sorted[g].pkt]) {
      assert sorted[g] in w.jobs;
      var k :| 0 <= k < |w.jobs| && w.jobs[k] == sorted[g];
      assert JobOk(w, k);
    }
  }

  lemma JobsSized(w: Walk, orig: seq<Packet>)
    requires WalkOk(w, orig)
    ensures Sized(w.jobs)
  {
    hide Offset, BlockCount, Scrambled;
    forall g | 0 <= g < |w.jobs| ensures 1 <= w.jobs[g].n <= 23 {
      assert JobOk(w, g);
    }
  }

  ghost function PacketsOf(mem: seq<Packet>, jobs: seq<Job>): (packets: seq<Packet>)
    requires forall g :: 0 <= g < |jobs| ==> 0 <= jobs[g].pkt < |mem|
    ensures |packets| == |jobs| && forall g :: 0 <= g < |jobs| ==> packets[g] == mem[jobs[g].pkt]
  {
    seq(|jobs|, g requires 0 <= g < |jobs| => mem[jobs[g].pkt])
  }

  /** With its group decrypted, the memory is finished. */
  lemma GroupFinishes(now: seq<Packet>, w: Walk, orig: seq<Packet>, sorted: seq<Job>, keys: Keys)
    requires WalkOk(w, orig) && SameBag(sorted, w.jobs) && OnlyGroup(now, w.mem, sorted, 0, |sorted|)
    requires forall g :: 0 <= g < |sorted| ==> 0 <= sorted[g].pkt < |w.mem|
    requires forall g :: 0 <= g < |sorted| ==> now[sorted[g].pkt] == Descrambled(KeyOfGroup(keys, w.odd), w.mem[sorted[g].pkt])
    ensures Finished(now, w, orig, keys)
  {
    hide Offset, BlockCount, Descrambled, HeaderCleared, Odd, Scrambled, SameBag;
    BagMembers(sorted, w.jobs);
    forall s | 0 <= s < |orig| ensures SlotFinished(now[s], w.mem[s], orig[s], keys) {
      assert SlotOk(w, orig, s);
      ClearedHeader(orig[s]);
      if HasJob(w.jobs, s) {
        var g :| 0 <= g < |w.jobs| && w.jobs[g].pkt == s;
        assert w.jobs[g] in sorted;
        var k :| 0 <= k < |sorted| && sorted[k] == w.jobs[g];
      } else {
        NotSorted(sorted, w.jobs, s);
        assert now[s] == w.mem[s];
        ShortPacket(keys, orig[s]);
      }
    }
  }

  lemma NotSorted(sorted: seq<Job>, jobs: seq<Job>, s: int)
    requires !HasJob(jobs, s) && forall j :: j in sorted <==> j in jobs
    ensures forall g :: 0 <= g < |sorted| ==> sorted[g].pkt != s
  {
    forall g | 0 <= g < |sorted| ensures sorted[g].pkt != s {
      assert sorted[g] in jobs;
    }
  }

  /** Only the header of a packet without a whole block is changed. */
  lemma ShortPacket(keys: Keys, p: Packet)
    ensures Scrambled(p) && BlockCount(p) == 0 ==> DecryptOne(keys, p) == HeaderCleared(p)
  {
    ClearedHeader(p);
  }

  lemma StartOk(orig: seq<Packet>)
    ensures WalkOk(Walk(orig, [], false, true, 0), orig)
  {
    var w := Walk(orig, [], false, true, 0);
    forall s | 0 <= s < |orig| ensures SlotOk(w, orig, s) {
    }
  }

  /** The walk of one call over the listed packets. */
  function WalkOf(orig: seq<Packet>, all: seq<int>, n: nat): (w: Walk)
    requires InMemory(all, |orig|)
    ensures |w.mem| == |orig|
  {
    WalkAll(Walk(orig, [], false, true, 0), all, n)
  }

  /** Exactly the packets that the walk gets to and takes are decrypted: those of the
      group's parity, and those before the group that hold no block. */
  ghost predicate TakenOnly(now: seq<Packet>, orig: seq<Packet>, all: seq<int>, n: nat, keys: Keys)
    requires InMemory(all, |orig|)
  {
    |now| == |orig| && forall s :: 0 <= s < |orig| ==>
      now[s] == if Taken(orig, all, End(orig, all, n), s) then DecryptOne(keys, orig[s]) else orig[s]
  }

  lemma FinishedIsTaken(now: seq<Packet>, orig: seq<Packet>, all: seq<int>, n: nat, keys: Keys)
    requires InMemory(all, |orig|) && Finished(now, WalkOf(orig, all, n), orig, keys)
    ensures TakenOnly(now, orig, all, n, keys) && WalkOf(orig, all, n).advanced == Dropped(orig, all, n)
  {
    hide DecryptOne, WalkAll, Taken, End, Dropped;
    WalkExactly(orig, all, n);
    var w := WalkOf(orig, all, n);
    forall s | 0 <= s < |orig|
      ensures now[s] == if Taken(orig, all, End(orig, all, n), s) then DecryptOne(keys, orig[s]) else orig[s]
    {
      assert SlotFinished(now[s], w.mem[s], orig[s], keys);
    }
  }

  /** After a call, the packets that are still listed are as they were if and only if
      none of the group's parity was met after the one that stopped the ranges, and
      none that was dropped is listed again. */
  lemma LeftUndecrypted(now: seq<Packet>, orig: seq<Packet>, all: seq<int>, n: nat, keys: Keys)
    requires InMemory(all, |orig|) && TakenOnly(now, orig, all, n, keys)
    ensures (forall j :: Dropped(orig, all, n) <= j < |all| ==> now[all[j]] == orig[all[j]]) <==>
            NoneAfterStop(orig, all, n) && NoneAgain(orig, all, n)
  {
    hide Scrambled, DecryptOne, Stop, End, OfGroup, Taken, WalkAll, NoneAfterStop, NoneAgain;
    LeftUntouched(orig, all, n);
    WalkExactly(orig, all, n);
    var w := WalkOf(orig, all, n);
    forall j | Dropped(orig, all, n) <= j < |all| ensures now[all[j]] == orig[all[j]] <==> w.mem[all[j]] == orig[all[j]] {
      TakenDiffers(orig, all, End(orig, all, n), all[j], keys);
    }
  }

  lemma TakenDiffers(orig: seq<Packet>, all: seq<int>, k: nat, s: int, keys: Keys)
    requires InMemory(all, |orig|) && k <= |all| && 0 <= s < |orig|
    ensures Taken(orig, all, k, s) ==> DecryptOne(keys, orig[s]) != orig[s]
  {
    hide Scrambled, DecryptOne;
    if Taken(orig, all, k, s) {
      DecryptOnce(keys, orig[s]);
    }
  }

  /** Decrypts a group of packets of the ranges, and takes packets that are clear
      now off the ranges. */
  method DecryptPackets(l: Layout, gks: GroupKeys, mem: array<Packet>, cluster: array<int>, ghost keys: Keys)
    returns (advanced: nat)
    requires l.Valid() && KeysOf(gks, keys, l.Lanes()) && Terminated(cluster[..], 0, mem.Length)
    modifies mem, cluster
    ensures Terminated(cluster[..], 0, mem.Length) && NoneEmpty(cluster[..], 0)
    ensures InMemory(old(Listed(cluster[..], 0)), mem.Length) && advanced <= |old(Listed(cluster[..], 0))|
    ensures Listed(cluster[..], 0) == old(Listed(cluster[..], 0))[advanced..]
    ensures advanced == Dropped(old(mem[..]), old(Listed(cluster[..], 0)), l.Lanes())
    ensures TakenOnly(mem[..], old(mem[..]), old(Listed(cluster[..], 0)), l.Lanes(), keys)
    ensures advanced == WalkOf(old(mem[..]), old(Listed(cluster[..], 0)), l.Lanes()).advanced
    ensures Finished(mem[..], WalkOf(old(mem[..]), old(Listed(cluster[..], 0)), l.Lanes()), old(mem[..]), keys)
  {
    hide TakenOnly, Dropped, Terminated, NoneEmpty, Listed, WalkAll, WalkOk, InMemory, Finished, OnlyGroup, SameBag, Sized, Falling, Distinct, JobOf, KeyOf;
    ghost var orig, all := mem[..], Listed(cluster[..], 0);
    var g := new Job[l.Lanes()];
    var grouped, odd, canAdvance;
    grouped, odd, canAdvance, advanced := Collect(mem, cluster, g, l.Lanes());
    ghost var w := WalkOf(orig, all, l.Lanes());
    StartOk(orig);
    WalkKeeps(Walk(orig, [], false, true, 0), orig, all, l.Lanes());
    Compact(cluster, mem.Length);
    JobsSized(w, orig);
    assert g[0..grouped] == w.jobs;
    if grouped == 0 {
      NothingGrouped(w, orig, keys);
      FinishedIsTaken(mem[..], orig, all, l.Lanes(), keys);
      return;
    }
    var t23 := SortGroup(g, grouped);
    var alive := CountAlive(g, grouped, t23);
    ghost var sorted := g[0..grouped];
    GroupDescribed(w, orig, sorted);
    ghost var packets := PacketsOf(mem[..], sorted);
    var gk := if odd then gks.odd else gks.even;
    var tab := new Group[64];
    RunGroup(l, gk, mem, g[0..grouped], alive, tab, packets, KeyOfGroup(keys, odd));
    GroupFinishes(mem[..], w, orig, sorted, keys);
    FinishedIsTaken(mem[..], orig, all, l.Lanes(), keys);
  }

  lemma NothingGrouped(w: Walk, orig: seq<Packet>, keys: Keys)
    requires WalkOk(w, orig) && w.jobs == []
    ensures Finished(w.mem, w, orig, keys)
  {
    hide Offset, BlockCount, Descrambled, HeaderCleared, Odd, Scrambled;
    forall s | 0 <= s < |orig| ensures SlotFinished(w.mem[s], w.mem[s], orig[s], keys) {
      assert SlotOk(w, orig, s);
      ShortPacket(keys, orig[s]);
    }
  }
}
