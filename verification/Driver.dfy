/** Calling decrypt_packets until every packet is decrypted. */
module Driver {
  import opened Csa
  import opened TsPacket
  import opened Cluster
  import opened Walk
  import opened WalkFacts
  import opened Decrypt

  /** The first done of the packets are decrypted, the other ones may be, and
      nothing else is changed. */
  ghost predicate Partly(now: seq<Packet>, orig: seq<Packet>, all: seq<int>, done: nat, keys: Keys) {
    && |now| == |orig| && InMemory(all, |orig|) && done <= |all|
    && (forall s :: 0 <= s < |orig| ==> now[s] == orig[s] || (s in all && now[s] == DecryptOne(keys, orig[s])))
    && forall j :: 0 <= j < done ==> now[all[j]] == DecryptOne(keys, orig[all[j]])
  }

  /** Every listed packet is decrypted under the key of its own parity, and no
      other packet is touched. */
  ghost predicate AllDecrypted(now: seq<Packet>, orig: seq<Packet>, all: seq<int>, keys: Keys) {
    |now| == |orig| && forall s :: 0 <= s < |orig| ==> now[s] == if s in all then DecryptOne(keys, orig[s]) else orig[s]
  }

  /** One call drops at least one packet, and every packet it drops is decrypted. */
  lemma CallDrops(now: seq<Packet>, orig: seq<Packet>, all: seq<int>, n: nat, keys: Keys)
    requires InMemory(all, |orig|) && n > 0 && Finished(now, WalkOf(orig, all, n), orig, keys)
    ensures WalkOf(orig, all, n).advanced <= |all|
    ensures Partly(now, orig, all, WalkOf(orig, all, n).advanced, keys)
    ensures all != [] ==> WalkOf(orig, all, n).advanced >= 1
  {
    hide Examine, WalkAll, DecryptOne, Scrambled;
    var start := Walk(orig, [], false, true, 0);
    var w := WalkOf(orig, all, n);
    DroppedAreClear(start, all, n);
    if all != [] {
      SomethingDrops(start, all, n);
    }
    StartOk(orig);
    forall s | 0 <= s < |orig| ensures now[s] == orig[s] || (s in all && now[s] == DecryptOne(keys, orig[s])) {
      assert SlotFinished(now[s], w.mem[s], orig[s], keys);
      if s !in all {
        OthersStay(start, all, n, s);
      }
    }
    forall j | 0 <= j < w.advanced ensures now[all[j]] == DecryptOne(keys, orig[all[j]]) {
      assert SlotFinished(now[all[j]], w.mem[all[j]], orig[all[j]], keys);
      ClearStays(keys, orig[all[j]]);
    }
  }

  lemma ClearStays(keys: Keys, p: Packet)
    ensures !Scrambled(p) ==> DecryptOne(keys, p) == p
  {
  }

  /** A call whose group is not full leaves no packet of the group's parity. */
  lemma GroupTakesAll(orig: seq<Packet>, all: seq<int>, n: nat)
    requires InMemory(all, |orig|) && |WalkOf(orig, all, n).jobs| < n
    ensures var w := WalkOf(orig, all, n);
            forall j :: 0 <= j < |all| && w.mem[all[j]] == orig[all[j]] && Scrambled(orig[all[j]]) ==>
              w.jobs != [] && Odd(orig[all[j]]) != w.odd
  {
    hide Examine, WalkAll, Scrambled, Odd;
    AllTaken(Walk(orig, [], false, true, 0), all, n);
    var w := WalkOf(orig, all, n);
    forall j | 0 <= j < |all| && w.mem[all[j]] == orig[all[j]] && Scrambled(orig[all[j]])
      ensures w.jobs != [] && Odd(orig[all[j]]) != w.odd
    {
      assert Settled(w, all[j]);
    }
  }

  /** Calls add up. */
  lemma CallsAddUp(now: seq<Packet>, mid: seq<Packet>, orig: seq<Packet>, all: seq<int>, done: nat, more: nat, keys: Keys)
    requires Partly(mid, orig, all, done, keys) && Partly(now, mid, all[done..], more, keys)
    ensures done + more <= |all| && Partly(now, orig, all, done + more, keys)
  {
    hide DecryptOne;
    forall s | 0 <= s < |orig| ensures now[s] == orig[s] || (s in all && now[s] == DecryptOne(keys, orig[s])) {
      OnceIsEnough(keys, orig[s]);
    }
    forall j | 0 <= j < done + more ensures now[all[j]] == DecryptOne(keys, orig[all[j]]) {
      OnceIsEnough(keys, orig[all[j]]);
      if j >= done {
        assert all[j] == all[done..][j - done];
      }
    }
  }

  lemma OnceIsEnough(keys: Keys, p: Packet)
    ensures DecryptOne(keys, DecryptOne(keys, p)) == DecryptOne(keys, p)
  {
    DecryptOnce(keys, p);
  }

  lemma AllOfThem(now: seq<Packet>, orig: seq<Packet>, all: seq<int>, keys: Keys)
    requires Partly(now, orig, all, |all|, keys)
    ensures AllDecrypted(now, orig, all, keys)
  {
    hide DecryptOne;
    forall s | 0 <= s < |orig| ensures now[s] == if s in all then DecryptOne(keys, orig[s]) else orig[s] {
      if s in all {
        var j :| 0 <= j < |all| && all[j] == s;
      }
    }
  }

  /** A run of calls with the memories between them, and how many packets were
      dropped before each. */
  ghost predicate CallRun(mems: seq<seq<Packet>>, done: seq<nat>, all: seq<int>, n: nat, keys: Keys) {
    && |mems| == |done| > 0 && done[0] == 0 && InMemory(all, |mems[0]|)
    && (forall i :: 0 <= i < |mems| ==> |mems[i]| == |mems[0]| && done[i] <= |all|)
    && forall i :: 1 <= i < |mems| ==> OneCall(mems[i], mems[i - 1], done[i], done[i - 1], all, n, keys)
  }

  ghost predicate OneCall(now: seq<Packet>, was: seq<Packet>, doneNow: nat, doneBefore: nat, all: seq<int>, n: nat, keys: Keys) {
    && doneBefore <= |all| && InMemory(all[doneBefore..], |was|)
    && Finished(now, WalkOf(was, all[doneBefore..], n), was, keys)
    && doneNow == doneBefore + WalkOf(was, all[doneBefore..], n).advanced
  }

  /** In every run of calls the dropped packets are decrypted, nothing but listed
      packets is touched, and the list is empty after at most as many calls as
      there are packets; then all of them are decrypted. */
  lemma {:induction false} EveryRunDecrypts(mems: seq<seq<Packet>>, done: seq<nat>, all: seq<int>, n: nat, keys: Keys)
    requires CallRun(mems, done, all, n, keys) && n > 0
    ensures var k := |mems| - 1;
            && Partly(mems[k], mems[0], all, done[k], keys)
            && (done[k] < |all| ==> done[k] >= k)
            && (done[k] == |all| ==> AllDecrypted(mems[k], mems[0], all, keys))
    decreases |mems|
  {
    hide Finished, WalkOf, DecryptOne, Partly, AllDecrypted;
    var k := |mems| - 1;
    if k == 0 {
      NothingDropped(mems[0], all, keys);
    } else {
      EveryRunDecrypts(mems[..k], done[..k], all, n, keys);
      var was, left := mems[k - 1], all[done[k - 1]..];
      assert OneCall(mems[k], was, done[k], done[k - 1], all, n, keys);
      CallDrops(mems[k], was, left, n, keys);
      CallsAddUp(mems[k], was, mems[0], all, done[k - 1], done[k] - done[k - 1], keys);
    }
    if done[k] == |all| {
      AllOfThem(mems[k], mems[0], all, keys);
    }
  }

  lemma NothingDropped(orig: seq<Packet>, all: seq<int>, keys: Keys)
    requires InMemory(all, |orig|)
    ensures Partly(orig, orig, all, 0, keys)
  {
  }

  /** A list without empty ranges is at its end exactly when no packet is left. */
  lemma EndOfList(c: seq<int>, slots: nat)
    requires Terminated(c, 0, slots)
    ensures |c| > 0 && (c[0] == NULL ==> Listed(c, 0) == [])
    ensures NoneEmpty(c, 0) && c[0] != NULL ==> Listed(c, 0) != []
  {
    if c[0] != NULL && c[0] < c[1] {
      assert |Span(c[0], c[1])| > 0;
    }
  }

  /** One more call, when done packets have been dropped. */
  method CallAgain(l: Transpose.Layout, gks: GroupKeys, mem: array<Packet>, cluster: array<int>, ghost keys: Keys,
                   ghost orig: seq<Packet>, ghost all: seq<int>, ghost done: nat)
    returns (advanced: nat)
    requires l.Valid() && KeysOf(gks, keys, l.Lanes()) && Terminated(cluster[..], 0, mem.Length)
    requires Partly(mem[..], orig, all, done, keys) && done <= |all| && Listed(cluster[..], 0) == all[done..]
    modifies mem, cluster
    ensures Terminated(cluster[..], 0, mem.Length) && NoneEmpty(cluster[..], 0)
    ensures done + advanced <= |all| && (done < |all| ==> advanced >= 1)
    ensures Partly(mem[..], orig, all, done + advanced, keys) && Listed(cluster[..], 0) == all[done + advanced..]
  {
    hide Terminated, NoneEmpty, Listed, WalkOf, Finished, KeysOf, DecryptOne;
    ghost var mid, left := mem[..], Listed(cluster[..], 0);
    advanced := DecryptPackets(l, gks, mem, cluster, keys);
    CallDrops(mem[..], mid, left, l.Lanes(), keys);
    hide Partly;
    CallsAddUp(mem[..], mid, orig, all, done, advanced, keys);
    assert left[advanced..] == all[done + advanced..];
  }

  /** Calls decrypt_packets until the list of ranges is empty. */
  method DecryptUntilEmpty(l: Transpose.Layout, gks: GroupKeys, mem: array<Packet>, cluster: array<int>, ghost keys: Keys)
    requires l.Valid() && KeysOf(gks, keys, l.Lanes()) && Terminated(cluster[..], 0, mem.Length)
    modifies mem, cluster
    ensures AllDecrypted(mem[..], old(mem[..]), old(Listed(cluster[..], 0)), keys)
    ensures Listed(cluster[..], 0) == []
  {
    ghost var orig, all, done := mem[..], Listed(cluster[..], 0), 0;
    ListedInMemory(cluster[..], 0, mem.Length);
    EndOfList(cluster[..], mem.Length);
    assert all[0..] == all && Partly(mem[..], orig, all, 0, keys);
    hide Terminated, NoneEmpty, Listed, WalkOf, Finished, KeysOf, AllDecrypted, DecryptOne, Partly;
    while cluster[0] != NULL
      invariant cluster.Length > 0 && Terminated(cluster[..], 0, mem.Length)
      invariant cluster[0] == NULL ==> Listed(cluster[..], 0) == []
      invariant NoneEmpty(cluster[..], 0) && cluster[0] != NULL ==> Listed(cluster[..], 0) != []
      invariant done <= |all| && Listed(cluster[..], 0) == all[done..] && Partly(mem[..], orig, all, done, keys)
      decreases |all| - done, if NoneEmpty(cluster[..], 0) then 0 else 1
    {
      var advanced := CallAgain(l, gks, mem, cluster, keys, orig, all, done);
      EndOfList(cluster[..], mem.Length);
      done := done + advanced;
    }
    assert done == |all| by { assert |all[done..]| == |all| - done; }
    AllOfThem(mem[..], orig, all, keys);
  }

  /** Calls decrypt_packets on what is left of a buffer, until nothing is. */
  method DecryptBuffer(l: Transpose.Layout, gks: GroupKeys, mem: array<Packet>, cluster: array<int>, total: nat, ghost keys: Keys)
    requires l.Valid() && KeysOf(gks, keys, l.Lanes()) && total <= mem.Length && cluster.Length >= 3
    modifies mem, cluster
    ensures forall s :: 0 <= s < mem.Length ==>
              mem[s] == if s < total then DecryptOne(keys, old(mem[s])) else old(mem[s])
  {
    ghost var orig, all := mem[..], Span(0, total);
    hide WalkOf, Finished, KeysOf, DecryptOne;
    SpanMembers(0, total);
    SpanInMemory(0, total, mem.Length);
    var done := 0;
    while done < total
      invariant done <= total && Partly(mem[..], orig, all, done, keys)
    {
      cluster[0], cluster[1], cluster[2] := done, total, NULL;
      OneRange(cluster[..], done, total, mem.Length);
      SpanDrop(0, done, total);
      var result := CallAgain(l, gks, mem, cluster, keys, orig, all, done);
      done := done + result;
    }
    AllOfThem(mem[..], orig, all, keys);
    forall s | 0 <= s < mem.Length ensures mem[s] == if s < total then DecryptOne(keys, orig[s]) else orig[s] {
      assert s in all <==> s < total;
    }
  }

  lemma OneRange(c: seq<int>, lo: nat, hi: nat, slots: nat)
    requires |c| >= 3 && c[0] == lo && c[1] == hi && c[2] == NULL && hi <= slots
    ensures Terminated(c, 0, slots) && Listed(c, 0) == Span(lo, hi)
  {
    assert Listed(c, 2) == [];
  }

  lemma {:induction false} SpanDrop(lo: int, mid: int, hi: int)
    requires lo <= mid <= hi
    ensures Span(lo, hi)[mid - lo..] == Span(mid, hi)
    decreases mid - lo
  {
    if lo < mid {
      SpanDrop(lo + 1, mid, hi);
    }
  }

  lemma {:induction false} SpanMembers(lo: int, hi: int)
    ensures forall s :: s in Span(lo, hi) <==> lo <= s < hi
    decreases hi - lo
  {
    if lo < hi {
      SpanMembers(lo + 1, hi);
    }
  }
}
