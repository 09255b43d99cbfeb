/** What the walk over the ranges has done to the memory and to the group. */
module WalkFacts {
  import opened Csa
  import opened TsPacket
  import opened Jobs
  import opened Walk

  ghost predicate HasJob(jobs: seq<Job>, s: int) { exists g :: 0 <= g < |jobs| && jobs[g].pkt == s }

  /** Packet s is as it was, or lost its scrambling bits because it joined the
      group or holds no whole block. */
  ghost predicate SlotOk(w: Walk, orig: seq<Packet>, s: int)
    requires |w.mem| == |orig| && 0 <= s < |orig|
  {
    if HasJob(w.jobs, s) then Scrambled(orig[s]) && Odd(orig[s]) == w.odd && w.mem[s] == HeaderCleared(orig[s])
    else w.mem[s] == orig[s] || (Scrambled(orig[s]) && BlockCount(orig[s]) == 0 && w.mem[s] == HeaderCleared(orig[s]))
  }

  /** The entry of the group describes its packet, which counts as clear by now. */
  ghost predicate JobOk(w: Walk, g: nat)
    requires g < |w.jobs|
  {
    var s := w.jobs[g].pkt;
    0 <= s < |w.mem| && w.jobs[g] == JobFor(s, w.mem[s]) && BlockCount(w.mem[s]) > 0 && !Scrambled(w.mem[s])
  }

  ghost predicate WalkOk(w: Walk, orig: seq<Packet>) {
    && |w.mem| == |orig| && Distinct(w.jobs)
    && (forall s :: 0 <= s < |orig| ==> SlotOk(w, orig, s))
    && (forall g :: 0 <= g < |w.jobs| ==> JobOk(w, g))
  }

  lemma ExamineOk(w: Walk, orig: seq<Packet>, s: int)
    requires WalkOk(w, orig) && 0 <= s < |orig|
    ensures WalkOk(Examine(w, s), orig)
  {
    hide BlockCount, Offset, HeaderCleared, Odd, Scrambled, JobFor;
    if Scrambled(w.mem[s]) && !(w.jobs != [] && w.odd != Odd(w.mem[s])) {
      TakenOk(w, orig, s);
    } else {
      var v := Examine(w, s);
      forall t | 0 <= t < |orig| ensures SlotOk(v, orig, t) {
        assert SlotOk(w, orig, t);
      }
      forall g | 0 <= g < |v.jobs| ensures JobOk(v, g) {
        assert JobOk(w, g);
      }
    }
  }

  lemma TakenOk(w: Walk, orig: seq<Packet>, s: int)
    requires WalkOk(w, orig) && 0 <= s < |orig| && Scrambled(w.mem[s]) && (w.jobs == [] || w.odd == Odd(w.mem[s]))
    ensures WalkOk(Examine(w, s), orig)
  {
    hide BlockCount, Offset, HeaderCleared, Odd, Scrambled, JobFor;
    var v := Examine(w, s);
    ClearedHeader(w.mem[s]);
    ClearedHeader(orig[s]);
    NoJobYet(w, s);
    JobNames(s, v.mem[s]);
    assert SlotOk(w, orig, s);
    assert w.mem[s] == orig[s];
    forall t | 0 <= t < |orig| ensures SlotOk(v, orig, t) {
      assert SlotOk(w, orig, t);
      JobsGrow(w, v, t);
      if HasJob(w.jobs, t) {
        assert w.jobs != [];
      }
    }
    forall g | 0 <= g < |v.jobs| ensures JobOk(v, g) {
      if g < |w.jobs| {
        assert JobOk(w, g) && w.jobs[g].pkt != s;
      }
    }
  }

  lemma JobNames(s: int, p: Packet)
    ensures JobFor(s, p).pkt == s
  {
  }

  lemma NoJobYet(w: Walk, s: int)
    requires 0 <= s < |w.mem| && Scrambled(w.mem[s]) && forall g :: 0 <= g < |w.jobs| ==> JobOk(w, g)
    ensures !HasJob(w.jobs, s) && forall g :: 0 <= g < |w.jobs| ==> w.jobs[g].pkt != s
  {
    hide BlockCount, JobFor, Scrambled;
    forall g | 0 <= g < |w.jobs| ensures w.jobs[g].pkt != s {
      assert JobOk(w, g);
    }
  }

  lemma JobsGrow(w: Walk, v: Walk, t: int)
    requires v.jobs == w.jobs || (|v.jobs| == |w.jobs| + 1 && v.jobs[..|w.jobs|] == w.jobs)
    ensures HasJob(v.jobs, t) <==> HasJob(w.jobs, t) || (|v.jobs| > |w.jobs| && v.jobs[|w.jobs|].pkt == t)
  {
    if HasJob(w.jobs, t) {
      var g :| 0 <= g < |w.jobs| && w.jobs[g].pkt == t;
      assert v.jobs[g] == w.jobs[g];
    }
    if HasJob(v.jobs, t) {
      var g :| 0 <= g < |v.jobs| && v.jobs[g].pkt == t;
      assert g < |w.jobs| ==> v.jobs[g] == w.jobs[g];
    }
  }

  /** The invariant over the whole walk. */
  lemma {:induction false} WalkKeeps(w: Walk, orig: seq<Packet>, slots: seq<int>, n: nat)
    requires WalkOk(w, orig) && InMemory(slots, |orig|)
    ensures WalkOk(WalkAll(w, slots, n), orig)
    decreases |slots|
  {
    hide SlotOk, JobOk, Examine;
    if slots != [] && |w.jobs| != n {
      ExamineOk(w, orig, slots[0]);
      WalkKeeps(Examine(w, slots[0]), orig, slots[1..], n);
    }
  }

  /** A packet that the walk will not look at again in vain: clear, or of the
      other parity than the group. */
  ghost predicate Settled(w: Walk, s: int)
    requires 0 <= s < |w.mem|
  {
    !Scrambled(w.mem[s]) || (w.jobs != [] && w.odd != Odd(w.mem[s]))
  }

  lemma ExamineSettles(w: Walk, s: int, t: int)
    requires 0 <= s < |w.mem| && 0 <= t < |w.mem| && (t == s || Settled(w, t))
    ensures Settled(Examine(w, s), t)
    ensures !Scrambled(w.mem[t]) ==> !Scrambled(Examine(w, s).mem[t])
  {
    hide BlockCount, Offset, HeaderCleared, Odd, Scrambled, JobFor;
    ClearedHeader(w.mem[s]);
  }

  lemma {:induction false} StaysSettled(w: Walk, t: int, slots: seq<int>, n: nat)
    requires InMemory(slots, |w.mem|) && 0 <= t < |w.mem| && Settled(w, t)
    ensures Settled(WalkAll(w, slots, n), t)
    ensures !Scrambled(w.mem[t]) ==> !Scrambled(WalkAll(w, slots, n).mem[t])
    decreases |slots|
  {
    hide Examine, Settled, Scrambled;
    if slots != [] && |w.jobs| != n {
      ExamineSettles(w, slots[0], t);
      StaysSettled(Examine(w, slots[0]), t, slots[1..], n);
    }
  }

  /** A group that is not full has all packets of its parity: what is still
      scrambled has the other parity. */
  lemma {:induction false} AllTaken(w: Walk, slots: seq<int>, n: nat)
    requires InMemory(slots, |w.mem|) && |WalkAll(w, slots, n).jobs| < n
    ensures forall j :: 0 <= j < |slots| ==> Settled(WalkAll(w, slots, n), slots[j])
    decreases |slots|
  {
    hide Examine, Settled;
    if slots != [] && |w.jobs| != n {
      var v := Examine(w, slots[0]);
      ExamineSettles(w, slots[0], slots[0]);
      StaysSettled(v, slots[0], slots[1..], n);
      AllTaken(v, slots[1..], n);
      forall j | 0 <= j < |slots| ensures Settled(WalkAll(w, slots, n), slots[j]) {
        assert j > 0 ==> slots[j] == slots[1..][j - 1];
      }
    }
  }

  /** Only listed packets change. */
  lemma {:induction false} OthersStay(w: Walk, slots: seq<int>, n: nat, s: int)
    requires InMemory(slots, |w.mem|) && 0 <= s < |w.mem| && s !in slots
    ensures WalkAll(w, slots, n).mem[s] == w.mem[s]
    decreases |slots|
  {
    hide Examine;
    if slots != [] && |w.jobs| != n {
      OthersStay(Examine(w, slots[0]), slots[1..], n, s);
    }
  }

  lemma GroupSize(w: Walk, slots: seq<int>, n: nat)
    requires InMemory(slots, |w.mem|) && |w.jobs| <= n
    ensures |WalkAll(w, slots, n).jobs| <= n
    decreases |slots|
  {
    if slots != [] && |w.jobs| != n {
      GroupSize(Examine(w, slots[0]), slots[1..], n);
    }
  }

  /** The ranges shrink by packets that are clear now; once they stop, they stop. */
  lemma {:induction false} DroppedAreClear(w: Walk, slots: seq<int>, n: nat)
    requires InMemory(slots, |w.mem|)
    ensures var v := WalkAll(w, slots, n);
            if w.canAdvance then
              && w.advanced <= v.advanced <= w.advanced + |slots|
              && forall j :: 0 <= j < v.advanced - w.advanced ==> !Scrambled(v.mem[slots[j]])
            else v.advanced == w.advanced
    decreases |slots|
  {
    hide Scrambled;
    if slots != [] && |w.jobs| != n {
      var v := Examine(w, slots[0]);
      ExamineDrops(w, slots[0]);
      DroppedAreClear(v, slots[1..], n);
      hide Examine;
      if w.canAdvance && v.canAdvance {
        StaysSettled(v, slots[0], slots[1..], n);
        var u := WalkAll(w, slots, n);
        forall j | 0 <= j < u.advanced - w.advanced ensures !Scrambled(u.mem[slots[j]]) {
          assert j > 0 ==> slots[j] == slots[1..][j - 1];
        }
      }
    }
  }

  lemma ExamineDrops(w: Walk, s: int)
    requires 0 <= s < |w.mem|
    ensures var v := Examine(w, s);
            if v.canAdvance then w.canAdvance && v.advanced == w.advanced + 1 && !Scrambled(v.mem[s])
            else v.advanced == w.advanced
  {
    hide BlockCount, Offset, HeaderCleared, Odd, Scrambled, JobFor;
    ClearedHeader(w.mem[s]);
  }

  /** The first packet is always dropped. */
  lemma SomethingDrops(w: Walk, slots: seq<int>, n: nat)
    requires InMemory(slots, |w.mem|) && slots != [] && w.canAdvance && w.jobs == [] && n > 0
    ensures WalkAll(w, slots, n).advanced > w.advanced
  {
    hide BlockCount, Offset, HeaderCleared, Odd, Scrambled, JobFor;
    DroppedAreClear(Examine(w, slots[0]), slots[1..], n);
  }
}
