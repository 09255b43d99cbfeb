/** What a walk does, in terms of the memory before it only: where the ranges stop
    shrinking, where the walk ends, and which packets lose their scrambling bits. */
module WalkExact {
  import opened Numbers
  import opened Csa
  import opened TsPacket
  import opened Walk

  /** Packet j of the list is scrambled and holds a whole block. */
  predicate Whole(orig: seq<Packet>, all: seq<int>, j: nat)
    requires InMemory(all, |orig|) && j < |all|
  {
    Scrambled(orig[all[j]]) && BlockCount(orig[all[j]]) > 0
  }

  /** The first packet from k on that can start a group, or the end of the list. */
  function FirstWhole(orig: seq<Packet>, all: seq<int>, k: nat): (i: nat)
    requires InMemory(all, |orig|) && k <= |all|
    ensures k <= i <= |all| && (i < |all| ==> Whole(orig, all, i))
    ensures forall j :: k <= j < i ==> !Whole(orig, all, j)
    decreases |all| - k
  {
    if k == |all| || Whole(orig, all, k) then k else FirstWhole(orig, all, k + 1)
  }

  /** The first packet that can start a group gives it its parity. */
  function Leader(orig: seq<Packet>, all: seq<int>): (i: nat)
    requires InMemory(all, |orig|)
    ensures i <= |all|
  {
    FirstWhole(orig, all, 0)
  }

  predicate OfGroup(orig: seq<Packet>, all: seq<int>, j: nat)
    requires InMemory(all, |orig|) && j < |all| && Leader(orig, all) < |all|
  {
    Odd(orig[all[j]]) == Odd(orig[all[Leader(orig, all)]])
  }

  /** Packet j stops the ranges from shrinking: it comes after the first packet of
      the group, is scrambled, has the other parity, and was not met before that. */
  predicate Stops(orig: seq<Packet>, all: seq<int>, j: nat)
    requires InMemory(all, |orig|) && j < |all|
  {
    var i := Leader(orig, all);
    i < j && Scrambled(orig[all[j]]) && !OfGroup(orig, all, j) && all[j] !in all[..i]
  }

  /** The first packet from k on that stops the ranges, or the end of the list. */
  function StopFrom(orig: seq<Packet>, all: seq<int>, k: nat): (i: nat)
    requires InMemory(all, |orig|) && k <= |all|
    ensures k <= i <= |all| && (i < |all| ==> Stops(orig, all, i))
    ensures forall j :: k <= j < i ==> !Stops(orig, all, j)
    decreases |all| - k
  {
    if k == |all| || Stops(orig, all, k) then k else StopFrom(orig, all, k + 1)
  }

  function Stop(orig: seq<Packet>, all: seq<int>): (i: nat)
    requires InMemory(all, |orig|)
    ensures i <= |all| && (i < |all| ==> Stops(orig, all, i))
    ensures forall j :: 0 <= j < |all| && Stops(orig, all, j) ==> i <= j
  {
    StopFrom(orig, all, 0)
  }

  /** Packet j joins the group: of its parity, with a whole block, listed first here. */
  predicate Joins(orig: seq<Packet>, all: seq<int>, j: nat)
    requires InMemory(all, |orig|) && j < |all|
  {
    Whole(orig, all, j) && Leader(orig, all) <= j && OfGroup(orig, all, j) && all[j] !in all[..j]
  }

  /** How many of the first k packets join the group. */
  function Joined(orig: seq<Packet>, all: seq<int>, k: nat): nat
    requires InMemory(all, |orig|) && k <= |all|
  {
    if k == 0 then 0 else Joined(orig, all, k - 1) + if Joins(orig, all, k - 1) then 1 else 0
  }

  /** Where the walk ends: the group is full, or the list is at its end. */
  function EndFrom(orig: seq<Packet>, all: seq<int>, n: nat, k: nat): (e: nat)
    requires InMemory(all, |orig|) && k <= |all|
    ensures k <= e <= |all| && (e == |all| || Joined(orig, all, e) == n)
    ensures forall j :: k <= j < e ==> Joined(orig, all, j) != n
    decreases |all| - k
  {
    if k == |all| || Joined(orig, all, k) == n then k else EndFrom(orig, all, n, k + 1)
  }

  function End(orig: seq<Packet>, all: seq<int>, n: nat): (e: nat)
    requires InMemory(all, |orig|)
    ensures e <= |all|
  {
    EndFrom(orig, all, n, 0)
  }

  /** How many packets one call drops. */
  function Dropped(orig: seq<Packet>, all: seq<int>, n: nat): (d: nat)
    requires InMemory(all, |orig|)
    ensures d <= |all|
  {
    Min(Stop(orig, all), End(orig, all, n))
  }

  /** Packet j loses its scrambling bits if the walk gets to it. */
  predicate TakenAt(orig: seq<Packet>, all: seq<int>, j: nat)
    requires InMemory(all, |orig|) && j < |all|
  {
    Scrambled(orig[all[j]]) && (j < Leader(orig, all) || OfGroup(orig, all, j))
  }

  ghost predicate Taken(orig: seq<Packet>, all: seq<int>, k: nat, s: int)
    requires InMemory(all, |orig|) && k <= |all|
  {
    exists j: nat :: j < k && all[j] == s && TakenAt(orig, all, j)
  }

  /** The state of the walk after k packets. */
  ghost predicate After(w: Walk, orig: seq<Packet>, all: seq<int>, k: nat)
    requires InMemory(all, |orig|) && k <= |all|
  {
    var i := Leader(orig, all);
    && |w.mem| == |orig| && |w.jobs| == Joined(orig, all, k)
    && (w.jobs == [] <==> k <= i) && (k > i ==> w.odd == Odd(orig[all[i]]))
    && (w.canAdvance <==> k <= Stop(orig, all)) && w.advanced == Min(k, Stop(orig, all))
    && forall s :: 0 <= s < |orig| ==> w.mem[s] == if Taken(orig, all, k, s) then HeaderCleared(orig[s]) else orig[s]
  }

  lemma TakenNext(orig: seq<Packet>, all: seq<int>, k: nat, s: int)
    requires InMemory(all, |orig|) && k < |all|
    ensures Taken(orig, all, k + 1, s) <==> Taken(orig, all, k, s) || (all[k] == s && TakenAt(orig, all, k))
  {
    hide TakenAt, InMemory;
    if Taken(orig, all, k + 1, s) {
      var j: nat :| j < k + 1 && all[j] == s && TakenAt(orig, all, j);
    }
    if all[k] == s && TakenAt(orig, all, k) {
      assert k < k + 1;
    }
  }

  /** A packet that was taken before is passed over. */
  lemma TakenBefore(orig: seq<Packet>, all: seq<int>, k: nat)
    requires InMemory(all, |orig|) && k < |all| && Taken(orig, all, k, all[k])
    ensures Scrambled(orig[all[k]]) && k != Leader(orig, all) && !Joins(orig, all, k) && !Stops(orig, all, k)
  {
    hide Scrambled, Odd, BlockCount, InMemory;
    var j: nat :| j < k && all[j] == all[k] && TakenAt(orig, all, j);
    assert all[..k][j] == all[k];
    if j < Leader(orig, all) {
      assert all[..Leader(orig, all)][j] == all[k];
      assert !Whole(orig, all, j);
    }
  }

  /** A scrambled packet that was not taken before: what becomes of it. */
  lemma FreshPacket(orig: seq<Packet>, all: seq<int>, k: nat)
    requires InMemory(all, |orig|) && k < |all| && !Taken(orig, all, k, all[k]) && Scrambled(orig[all[k]])
    ensures var i := Leader(orig, all);
            && (k < i ==> TakenAt(orig, all, k) && BlockCount(orig[all[k]]) == 0)
            && (k >= i && OfGroup(orig, all, k) ==> TakenAt(orig, all, k))
            && (k == i ==> OfGroup(orig, all, k))
            && (k >= i && !OfGroup(orig, all, k) ==> Stops(orig, all, k) && !TakenAt(orig, all, k))
            && (TakenAt(orig, all, k) ==> !Stops(orig, all, k))
            && (Joins(orig, all, k) <==> TakenAt(orig, all, k) && BlockCount(orig[all[k]]) > 0)
  {
    hide Scrambled, Odd, BlockCount, InMemory;
    var i := Leader(orig, all);
    assert k < i ==> !Whole(orig, all, k);
    forall j: nat | j < k && all[j] == all[k] ensures !TakenAt(orig, all, j) {
    }
    forall j | 0 <= j < i && i <= k ensures all[j] != all[k] {
    }
    forall j | 0 <= j < k && TakenAt(orig, all, k) && i <= k ensures all[j] != all[k] {
    }
  }

  lemma ClearedDiffers(p: Packet)
    ensures !Scrambled(HeaderCleared(p)) && Odd(HeaderCleared(p)) == false && BlockCount(HeaderCleared(p)) == BlockCount(p)
    ensures Scrambled(p) ==> HeaderCleared(p) != p
  {
    ClearedHeader(p);
  }

  lemma AfterPlain(w: Walk, orig: seq<Packet>, all: seq<int>, k: nat)
    requires InMemory(all, |orig|) && k < |all| && After(w, orig, all, k) && !Scrambled(w.mem[all[k]])
    requires k != Leader(orig, all) && !Joins(orig, all, k) && !Stops(orig, all, k)
    requires TakenAt(orig, all, k) ==> Taken(orig, all, k, all[k])
    ensures After(Examine(w, all[k]), orig, all, k + 1)
  {
    hide Scrambled, Odd, BlockCount, TakenAt, Taken, Stops, Joins, Leader, Stop;
    assert Stop(orig, all) != k;
    forall s | 0 <= s < |orig| ensures Taken(orig, all, k + 1, s) == Taken(orig, all, k, s) {
      TakenNext(orig, all, k, s);
    }
  }

  lemma AfterStop(w: Walk, orig: seq<Packet>, all: seq<int>, k: nat)
    requires InMemory(all, |orig|) && k < |all| && After(w, orig, all, k) && w.mem[all[k]] == orig[all[k]]
    requires Stops(orig, all, k) && !Joins(orig, all, k) && !TakenAt(orig, all, k)
    ensures After(Examine(w, all[k]), orig, all, k + 1)
  {
    hide Scrambled, Odd, BlockCount, TakenAt, Taken, Joins, Leader, Stop;
    assert Stop(orig, all) <= k;
    forall s | 0 <= s < |orig| ensures Taken(orig, all, k + 1, s) == Taken(orig, all, k, s) {
      TakenNext(orig, all, k, s);
    }
  }

  lemma AfterTaken(w: Walk, orig: seq<Packet>, all: seq<int>, k: nat)
    requires InMemory(all, |orig|) && k < |all| && After(w, orig, all, k) && w.mem[all[k]] == orig[all[k]]
    requires Scrambled(orig[all[k]]) && TakenAt(orig, all, k) && !Stops(orig, all, k)
    requires k >= Leader(orig, all) ==> OfGroup(orig, all, k)
    requires Joins(orig, all, k) <==> BlockCount(orig[all[k]]) > 0
    requires k < Leader(orig, all) ==> BlockCount(orig[all[k]]) == 0
    ensures After(Examine(w, all[k]), orig, all, k + 1)
  {
    hide Scrambled, Odd, BlockCount, TakenAt, Taken, Joins, Leader, Stop, Stops, HeaderCleared, JobFor;
    assert Stop(orig, all) != k;
    ClearedDiffers(orig[all[k]]);
    if k == Leader(orig, all) {
      LeaderIsWhole(orig, all);
    }
    forall s | 0 <= s < |orig| ensures Taken(orig, all, k + 1, s) == (Taken(orig, all, k, s) || all[k] == s) {
      TakenNext(orig, all, k, s);
    }
  }

  lemma LeaderIsWhole(orig: seq<Packet>, all: seq<int>)
    requires InMemory(all, |orig|) && Leader(orig, all) < |all|
    ensures Whole(orig, all, Leader(orig, all))
  {
  }

  /** One packet more. */
  lemma AfterNext(w: Walk, orig: seq<Packet>, all: seq<int>, k: nat)
    requires InMemory(all, |orig|) && k < |all| && After(w, orig, all, k)
    ensures After(Examine(w, all[k]), orig, all, k + 1)
  {
    hide Scrambled, Odd, BlockCount, Joins, Leader, Stop, Stops, HeaderCleared, Examine, Taken, OfGroup;
    var p := orig[all[k]];
    if Taken(orig, all, k, all[k]) {
      TakenBefore(orig, all, k);
      ClearedDiffers(p);
      AfterPlain(w, orig, all, k);
    } else if !Scrambled(p) {
      PlainPacket(orig, all, k);
      AfterPlain(w, orig, all, k);
    } else {
      FreshPacket(orig, all, k);
      hide TakenAt;
      if TakenAt(orig, all, k) {
        AfterTaken(w, orig, all, k);
      } else {
        AfterStop(w, orig, all, k);
      }
    }
  }

  lemma PlainPacket(orig: seq<Packet>, all: seq<int>, k: nat)
    requires InMemory(all, |orig|) && k < |all| && !Scrambled(orig[all[k]])
    ensures k != Leader(orig, all) && !Joins(orig, all, k) && !Stops(orig, all, k) && !TakenAt(orig, all, k)
  {
    hide Scrambled, BlockCount;
  }

  lemma {:induction false} AfterRest(w: Walk, orig: seq<Packet>, all: seq<int>, k: nat, n: nat)
    requires InMemory(all, |orig|) && k <= |all| && After(w, orig, all, k) && InMemory(all[k..], |orig|)
    ensures After(WalkAll(w, all[k..], n), orig, all, EndFrom(orig, all, n, k))
    decreases |all| - k
  {
    hide After, Examine, Joined;
    AfterSizes(w, orig, all, k);
    if k < |all| && |w.jobs| != n {
      assert all[k..][0] == all[k] && all[k..][1..] == all[k + 1..];
      AfterNext(w, orig, all, k);
      AfterRest(Examine(w, all[k]), orig, all, k + 1, n);
    }
  }

  lemma AfterSizes(w: Walk, orig: seq<Packet>, all: seq<int>, k: nat)
    requires InMemory(all, |orig|) && k <= |all| && After(w, orig, all, k)
    ensures |w.mem| == |orig| && |w.jobs| == Joined(orig, all, k)
  {
  }

  lemma AfterNone(orig: seq<Packet>, all: seq<int>)
    requires InMemory(all, |orig|)
    ensures After(Walk(orig, [], false, true, 0), orig, all, 0)
  {
    hide Leader, Stop, HeaderCleared;
  }

  /** The whole walk, told from the memory before it: it drops as many packets as
      there are before the first one that stops the ranges or the end of the walk,
      whichever comes first, and clears exactly the packets of the group's parity
      that it gets to, and those before the group that hold no block. */
  lemma WalkExactly(orig: seq<Packet>, all: seq<int>, n: nat)
    requires InMemory(all, |orig|)
    ensures var w, e := WalkAll(Walk(orig, [], false, true, 0), all, n), End(orig, all, n);
            && w.advanced == Dropped(orig, all, n) && |w.jobs| == Joined(orig, all, e)
            && (Leader(orig, all) < e ==> w.odd == Odd(orig[all[Leader(orig, all)]]))
            && forall s :: 0 <= s < |orig| ==> (w.mem[s] != orig[s] <==> Taken(orig, all, e, s))
  {
    hide Leader, Stop, HeaderCleared, Scrambled, EndFrom, Joined, WalkAll;
    var start := Walk(orig, [], false, true, 0);
    AfterNone(orig, all);
    assert all[0..] == all;
    AfterRest(start, orig, all, 0, n);
    var w, e := WalkAll(start, all, n), End(orig, all, n);
    forall s | 0 <= s < |orig| ensures w.mem[s] != orig[s] <==> Taken(orig, all, e, s) {
      ClearedDiffers(orig[s]);
    }
  }

  /** After the packet that stopped the ranges, the walk gets to none of the group's parity. */
  ghost predicate NoneAfterStop(orig: seq<Packet>, all: seq<int>, n: nat)
    requires InMemory(all, |orig|)
  {
    forall j :: Stop(orig, all) < j < End(orig, all, n) ==> !(Scrambled(orig[all[j]]) && OfGroup(orig, all, j))
  }

  /** No packet is taken among the dropped ones and listed again further on; where no
      packet is listed twice this is nothing to ask. */
  ghost predicate NoneAgain(orig: seq<Packet>, all: seq<int>, n: nat)
    requires InMemory(all, |orig|)
  {
    forall i, j :: 0 <= i < Dropped(orig, all, n) <= j < |all| && all[i] == all[j] ==> !TakenAt(orig, all, i)
  }

  /** Packets that stay on the list have not been decrypted if and only if, after the
      packet that stopped the ranges, the walk gets to none of the group's parity,
      and none that is dropped comes again. */
  lemma LeftUntouched(orig: seq<Packet>, all: seq<int>, n: nat)
    requires InMemory(all, |orig|)
    ensures var w := WalkAll(Walk(orig, [], false, true, 0), all, n);
            (forall j :: Dropped(orig, all, n) <= j < |all| ==> w.mem[all[j]] == orig[all[j]])
            <==> NoneAfterStop(orig, all, n) && NoneAgain(orig, all, n)
  {
    hide Scrambled, WalkAll, EndFrom, Stop, Leader, OfGroup, TakenAt, NoneAfterStop, NoneAgain, Taken;
    var w, e, d := WalkAll(Walk(orig, [], false, true, 0), all, n), End(orig, all, n), Dropped(orig, all, n);
    WalkExactly(orig, all, n);
    LeftIfNone(orig, all, n);
    NoneIfLeft(orig, all, n);
    assert forall j :: d <= j < |all| ==> (w.mem[all[j]] != orig[all[j]] <==> Taken(orig, all, e, all[j]));
  }

  lemma LeftIfNone(orig: seq<Packet>, all: seq<int>, n: nat)
    requires InMemory(all, |orig|)
    ensures NoneAfterStop(orig, all, n) && NoneAgain(orig, all, n) ==>
              forall j :: Dropped(orig, all, n) <= j < |all| ==> !Taken(orig, all, End(orig, all, n), all[j])
  {
    hide Scrambled, EndFrom, Stop, Leader, OfGroup, TakenAt;
    var e := End(orig, all, n);
    forall j | Dropped(orig, all, n) <= j < |all| && NoneAfterStop(orig, all, n) && NoneAgain(orig, all, n)
      ensures !Taken(orig, all, e, all[j])
    {
      if Taken(orig, all, e, all[j]) {
        var i: nat :| i < e && all[i] == all[j] && TakenAt(orig, all, i);
        LateTaken(orig, all, e, i);
      }
    }
  }

  lemma NoneIfLeft(orig: seq<Packet>, all: seq<int>, n: nat)
    requires InMemory(all, |orig|)
    ensures (forall j :: Dropped(orig, all, n) <= j < |all| ==> !Taken(orig, all, End(orig, all, n), all[j])) ==>
              NoneAfterStop(orig, all, n) && NoneAgain(orig, all, n)
  {
    hide Scrambled, EndFrom, Stop, Leader, OfGroup, TakenAt;
    var e, d := End(orig, all, n), Dropped(orig, all, n);
    if forall j :: d <= j < |all| ==> !Taken(orig, all, e, all[j]) {
      forall j | Stop(orig, all) < j < e ensures !(Scrambled(orig[all[j]]) && OfGroup(orig, all, j)) {
        LateTaken(orig, all, e, j);
        assert !Taken(orig, all, e, all[j]);
      }
      forall i, j | 0 <= i < d <= j < |all| && all[i] == all[j] ensures !TakenAt(orig, all, i) {
        assert !Taken(orig, all, e, all[j]);
      }
    }
  }

  /** From the stop on, the packets taken are those of the group's parity after it. */
  lemma LateTaken(orig: seq<Packet>, all: seq<int>, e: nat, i: nat)
    requires InMemory(all, |orig|) && i < e <= |all|
    ensures Stop(orig, all) <= i ==> Leader(orig, all) < |all|
    ensures Stop(orig, all) <= i ==>
              (TakenAt(orig, all, i) <==> Stop(orig, all) < i && Scrambled(orig[all[i]]) && OfGroup(orig, all, i))
  {
    hide Scrambled, Leader, OfGroup;
  }

  // One-packet ranges: even, odd, even.

  /** Three packets with whole blocks, even, odd and even: a call with room for them
      drops the first one only, though it clears the third one too. */
  lemma ThirdStays(orig: seq<Packet>, n: nat)
    requires |orig| == 3 && n >= 3
    requires forall s :: 0 <= s < 3 ==> Scrambled(orig[s]) && BlockCount(orig[s]) > 0
    requires Odd(orig[1]) && !Odd(orig[0]) && !Odd(orig[2])
    ensures InMemory([0, 1, 2], 3)
    ensures var w := WalkAll(Walk(orig, [], false, true, 0), [0, 1, 2], n);
            w.advanced == 1 && w.mem[2] == HeaderCleared(orig[2]) != orig[2] && !Scrambled(w.mem[2])
  {
    hide Scrambled, Odd, BlockCount, HeaderCleared, JobFor;
    var w0 := Walk(orig, [], false, true, 0);
    forall s | 0 <= s < 3 ensures BlockCount(HeaderCleared(orig[s])) > 0 && HeaderCleared(orig[s]) != orig[s] {
      ClearedDiffers(orig[s]);
    }
    ClearedDiffers(orig[2]);
    var w1 := Examine(w0, 0);
    var w2 := Examine(w1, 1);
    var w3 := Examine(w2, 2);
    assert [0, 1, 2][1..] == [1, 2] && [1, 2][1..] == [2] && [2][1..] == [];
    assert WalkAll(w3, [], n) == w3;
    assert WalkAll(w2, [2], n) == w3;
    assert WalkAll(w1, [1, 2], n) == w3;
  }

  const EVEN_PACKET: Packet := [TS_SYNC_BYTE, 0, 100, 0x90] + seq(184, _ => 0)
  const ODD_PACKET: Packet := [TS_SYNC_BYTE, 0, 100, 0xd0] + seq(184, _ => 0)

  /** For full packets in one-packet ranges: the third packet is decrypted, and it
      is still on the list. */
  lemma EvenOddEven(n: nat)
    requires n >= 3
    ensures var orig, c := [EVEN_PACKET, ODD_PACKET, EVEN_PACKET], [0, 1, 1, 2, 2, 3, Cluster.NULL];
            && Cluster.Listed(c, 0) == [0, 1, 2] && InMemory([0, 1, 2], 3)
            && var w := WalkAll(Walk(orig, [], false, true, 0), [0, 1, 2], n);
               [0, 1, 2][w.advanced..] == [1, 2] && w.mem[2] != orig[2] && !Scrambled(w.mem[2])
  {
    var c := [0, 1, 1, 2, 2, 3, Cluster.NULL];
    assert Cluster.Listed(c, 6) == [];
    assert Cluster.Listed(c, 4) == [2];
    assert Cluster.Listed(c, 2) == [1, 2];
    var orig := [EVEN_PACKET, ODD_PACKET, EVEN_PACKET];
    FullPackets();
    ThirdStays(orig, n);
  }

  lemma FullPackets()
    ensures Scrambled(EVEN_PACKET) && Scrambled(ODD_PACKET) && Odd(ODD_PACKET) && !Odd(EVEN_PACKET)
    ensures BlockCount(EVEN_PACKET) == 23 && BlockCount(ODD_PACKET) == 23
  {
  }
}
