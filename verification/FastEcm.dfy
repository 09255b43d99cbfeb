/** Which of the two control words a PID may be descrambled with, and when a
    request has to wait for a new one. */
module FastEcm {
  const EVEN := 1
  const ODD := 2

  function OtherParity(parity: int): int { if parity == EVEN then ODD else EVEN }

  /** The times at which the two control words were set (0: not set), the parity
      that was set last (0: none), and the parity granted to each PID. */
  datatype Ecm = Ecm(evenTime: nat, oddTime: nat, next: int, active: map<int, int>)

  const RESET := Ecm(0, 0, 0, map[])

  function TimeOf(s: Ecm, parity: int): nat { if parity == EVEN then s.evenTime else s.oddTime }

  function ActiveOf(s: Ecm, pid: int): int { if pid > 0 && pid in s.active then s.active[pid] else 0 }

  predicate BothSet(s: Ecm) { s.evenTime > 0 && s.oddTime > 0 }

  /** The times of the words lie less than half a second apart. */
  predicate Close(s: Ecm) { s.evenTime < s.oddTime + 500 && s.oddTime < s.evenTime + 500 }

  /** The parity that is asked for must be waited for: another one is granted, and
      the wanted word is neither the last one set nor almost as new as that. */
  predicate MustWait(s: Ecm, pid: int, parity: int) {
    BothSet(s) && ActiveOf(s, pid) != 0 && ActiveOf(s, pid) != parity && s.next != parity && !(s.next > 0 && Close(s))
  }

  /** The parity of the newer word. */
  function Newer(s: Ecm): int { if s.evenTime >= s.oddTime then EVEN else ODD }

  /** Setting a word at a time of the clock. */
  function SetWord(s: Ecm, parity: int, now: nat): Ecm {
    if parity == EVEN then s.(next := EVEN, evenTime := now) else s.(next := ODD, oddTime := now)
  }

  /** A request is granted unless it must wait; nothing is recorded before both
      words are set. */
  function Requested(s: Ecm, pid: int, parity: int, force: bool): Ecm {
    if pid <= 0 || !BothSet(s) || (!force && MustWait(s, pid, parity)) then s
    else s.(active := s.active[pid := parity],
            next := if !force && ActiveOf(s, pid) == 0 && s.next == parity then Newer(s) else s.next)
  }

  function Answer(s: Ecm, pid: int, parity: int, force: bool): int { if !force && MustWait(s, pid, parity) then 0 else 1 }

  /** No word is set exactly when no parity is next; the parity that is next is
      that of a word at least as new as the other; parities are granted only when
      both words are set. */
  ghost predicate Inv(s: Ecm, now: nat) {
    && s.evenTime <= now && s.oddTime <= now
    && s.next in {0, EVEN, ODD}
    && (s.next == 0 <==> s.evenTime == 0 && s.oddTime == 0)
    && (s.next == EVEN ==> s.evenTime > 0 && s.evenTime >= s.oddTime)
    && (s.next == ODD ==> s.oddTime > 0 && s.oddTime >= s.evenTime)
    && (forall pid :: pid in s.active ==> pid > 0 && s.active[pid] in {EVEN, ODD})
    && (s.active != map[] ==> BothSet(s))
  }

  /** What can happen to the state of a key. */
  datatype Event = WordSet(parity: int, now: nat) | Request(pid: int, parity: int, force: bool) | Reset

  function Step(s: Ecm, e: Event): Ecm {
    match e
    case WordSet(parity, now) => SetWord(s, parity, now)
    case Request(pid, parity, force) => Requested(s, pid, parity, force)
    case Reset => RESET
  }

  predicate Parity(parity: int) { parity == EVEN || parity == ODD }

  /** The clock never goes back and starts after 0. */
  ghost predicate Proper(e: Event, clock: nat) {
    match e
    case WordSet(parity, now) => Parity(parity) && now > 0 && now >= clock
    case Request(_, parity, _) => Parity(parity)
    case Reset => true
  }

  function Clock(e: Event, clock: nat): nat { if e.WordSet? then e.now else clock }

  /** Every event keeps the invariant. */
  lemma StepKeeps(s: Ecm, e: Event, clock: nat)
    requires Inv(s, clock) && Proper(e, clock)
    ensures Inv(Step(s, e), Clock(e, clock))
  {
  }

  ghost predicate ProperRun(events: seq<Event>, clock: nat)
    decreases |events|
  {
    events != [] ==> Proper(events[0], clock) && ProperRun(events[1..], Clock(events[0], clock))
  }

  function Run(s: Ecm, events: seq<Event>): Ecm
    decreases |events|
  {
    if events == [] then s else Run(Step(s, events[0]), events[1..])
  }

  function ClockAfter(events: seq<Event>, clock: nat): nat {
    if events == [] then clock else ClockAfter(events[1..], Clock(events[0], clock))
  }

  /** In every reachable state the invariant holds. */
  lemma {:induction false} RunKeeps(s: Ecm, events: seq<Event>, clock: nat)
    requires Inv(s, clock) && ProperRun(events, clock)
    ensures Inv(Run(s, events), ClockAfter(events, clock))
    decreases |events|
  {
    if events != [] {
      StepKeeps(s, events[0], clock);
      RunKeeps(Step(s, events[0]), events[1..], Clock(events[0], clock));
    }
  }

  /** A PID only switches to a word that is less than half a second older than the
      one it leaves, unless it is forced. */
  lemma SwitchIsFresh(s: Ecm, pid: int, parity: int, clock: nat)
    requires Inv(s, clock) && Parity(parity)
    ensures var p, q := ActiveOf(s, pid), ActiveOf(Requested(s, pid, parity, false), pid);
            p != 0 && q != p ==> q == parity == OtherParity(p) && TimeOf(s, q) + 500 > TimeOf(s, p)
  {
  }

  /** When a request waits, its PID has been granted the other parity, whose word
      is the last one set, at least half a second after the wanted one; and the
      waiting changes nothing. */
  lemma WaitingIsStable(s: Ecm, pid: int, parity: int, clock: nat)
    requires Inv(s, clock) && Parity(parity) && MustWait(s, pid, parity)
    ensures BothSet(s) && ActiveOf(s, pid) == s.next == OtherParity(parity)
    ensures TimeOf(s, parity) + 500 <= TimeOf(s, OtherParity(parity))
    ensures Requested(s, pid, parity, false) == s
  {
  }

  predicate Unforced(e: Event) { e.Request? && !e.force }

  /** Requests of any PIDs, unless forced, do not end the waiting; only a control
      word, a forced grant or a reset does. */
  lemma {:induction false} WaitingGoesOn(s: Ecm, pid: int, parity: int, events: seq<Event>, clock: nat)
    requires Inv(s, clock) && ProperRun(events, clock) && Parity(parity) && MustWait(s, pid, parity)
    requires forall i :: 0 <= i < |events| ==> Unforced(events[i])
    ensures MustWait(Run(s, events), pid, parity) && Answer(Run(s, events), pid, parity, false) == 0
    decreases |events|
  {
    if events != [] {
      var e := events[0];
      assert Unforced(e);
      StepKeeps(s, e, clock);
      NoOtherNews(s, pid, parity, e, clock);
      WaitingGoesOn(Step(s, e), pid, parity, events[1..], Clock(e, clock));
    }
  }

  lemma NoOtherNews(s: Ecm, pid: int, parity: int, e: Event, clock: nat)
    requires Inv(s, clock) && Proper(e, clock) && Unforced(e) && Parity(parity) && MustWait(s, pid, parity)
    ensures MustWait(Step(s, e), pid, parity)
  {
  }

  /** Once the wanted word is set, it is granted, whatever other PIDs ask for meanwhile. */
  lemma {:induction false} WordEndsWaiting(s: Ecm, pid: int, parity: int, now: nat, events: seq<Event>, clock: nat)
    requires Inv(s, clock) && Parity(parity) && now > 0 && now >= clock && ProperRun(events, now)
    requires forall i :: 0 <= i < |events| ==> Unforced(events[i])
    ensures Answer(Run(SetWord(s, parity, now), events), pid, parity, false) == 1
  {
    StepKeeps(s, WordSet(parity, now), clock);
    StaysNewest(SetWord(s, parity, now), parity, events, now);
  }

  /** The word of this parity is as new as the other one. */
  ghost predicate Newest(s: Ecm, parity: int) { TimeOf(s, parity) > 0 && TimeOf(s, parity) >= TimeOf(s, OtherParity(parity)) }

  lemma {:induction false} StaysNewest(s: Ecm, parity: int, events: seq<Event>, clock: nat)
    requires Inv(s, clock) && ProperRun(events, clock) && Parity(parity) && Newest(s, parity)
    requires forall i :: 0 <= i < |events| ==> Unforced(events[i])
    ensures Newest(Run(s, events), parity) && Inv(Run(s, events), ClockAfter(events, clock))
    decreases |events|
  {
    if events != [] {
      assert Unforced(events[0]);
      StepKeeps(s, events[0], clock);
      StaysNewest(Step(s, events[0]), parity, events[1..], Clock(events[0], clock));
    }
  }

  /** What has happened since the last reset: which words were set, and the parity
      that each PID was last granted when both were. */
  datatype History = History(evenSet: bool, oddSet: bool, granted: map<int, int>)

  function Recorded(h: History, s: Ecm, e: Event): History {
    match e
    case WordSet(parity, _) => if parity == EVEN then h.(evenSet := true) else h.(oddSet := true)
    case Request(pid, parity, force) =>
      if pid > 0 && h.evenSet && h.oddSet && Answer(s, pid, parity, force) == 1 then h.(granted := h.granted[pid := parity]) else h
    case Reset => History(false, false, map[])
  }

  function RunHistory(h: History, s: Ecm, events: seq<Event>): History
    decreases |events|
  {
    if events == [] then h else RunHistory(Recorded(h, s, events[0]), Step(s, events[0]), events[1..])
  }

  ghost predicate Reflects(h: History, s: Ecm) {
    (h.evenSet <==> s.evenTime > 0) && (h.oddSet <==> s.oddTime > 0) && h.granted == s.active
  }

  lemma {:induction false} HistoryReflects(h: History, s: Ecm, events: seq<Event>, clock: nat)
    requires Inv(s, clock) && ProperRun(events, clock) && Reflects(h, s)
    ensures Reflects(RunHistory(h, s, events), Run(s, events))
    decreases |events|
  {
    if events != [] {
      StepKeeps(s, events[0], clock);
      HistoryReflects(Recorded(h, s, events[0]), Step(s, events[0]), events[1..], Clock(events[0], clock));
    }
  }

  /** A request waits only if both words have been set since the last reset, and
      its PID was granted the other parity after that. */
  lemma WaitingNeedsHistory(events: seq<Event>, clock: nat, pid: int, parity: int)
    requires ProperRun(events, clock) && Parity(parity)
    requires Answer(Run(RESET, events), pid, parity, false) == 0
    ensures var h := RunHistory(History(false, false, map[]), RESET, events);
            h.evenSet && h.oddSet && pid in h.granted && h.granted[pid] == OtherParity(parity)
  {
    RunKeeps(RESET, events, clock);
    HistoryReflects(History(false, false, map[]), RESET, events, clock);
    WaitingIsStable(Run(RESET, events), pid, parity, ClockAfter(events, clock));
  }

  // The answers, told from the events alone: no parity is next here.

  /** When the word of this parity was last set since the last reset, or 0. */
  function SetAt(events: seq<Event>, parity: int): nat
    decreases |events|
  {
    if events == [] then 0
    else
      var n := |events| - 1;
      var e := events[n];
      if e.Reset? then 0 else if e.WordSet? && e.parity == parity then e.now else SetAt(events[..n], parity)
  }

  /** The parity that the PID was last granted since the last reset, or 0: nothing
      is granted before both words are set. */
  function GrantedAt(events: seq<Event>, pid: int): int
    decreases |events|, 0
  {
    if events == [] then 0
    else
      var n := |events| - 1;
      var e, before := events[n], events[..n];
      if e.Reset? then 0 else if Grants(before, e, pid) then e.parity else GrantedAt(before, pid)
  }

  /** A request of the PID that is answered at once, both words being set, or is forced. */
  predicate Grants(before: seq<Event>, e: Event, pid: int)
    decreases |before|, 2
  {
    && e.Request? && e.pid == pid && pid > 0 && SetAt(before, EVEN) > 0 && SetAt(before, ODD) > 0
    && (e.force || !Waits(before, pid, e.parity))
  }

  /** The PID holds the other parity, whose word was set at least half a second later. */
  predicate Waits(events: seq<Event>, pid: int, parity: int)
    decreases |events|, 1
  {
    && SetAt(events, parity) > 0 && SetAt(events, OtherParity(parity)) >= SetAt(events, parity) + 500
    && GrantedAt(events, pid) == OtherParity(parity)
  }

  /** Waiting, without the parity that is next. */
  lemma WaitingIs(s: Ecm, pid: int, parity: int, clock: nat)
    requires Inv(s, clock) && Parity(parity)
    ensures MustWait(s, pid, parity) <==>
              TimeOf(s, parity) > 0 && TimeOf(s, OtherParity(parity)) >= TimeOf(s, parity) + 500
              && ActiveOf(s, pid) == OtherParity(parity)
  {
  }

  lemma {:induction false} RunMore(s: Ecm, events: seq<Event>, e: Event)
    ensures Run(s, events + [e]) == Step(Run(s, events), e)
    decreases |events|
  {
    hide Step;
    if events == [] {
      assert events + [e] == [e] && [e][1..] == [];
    } else {
      assert (events + [e])[0] == events[0] && (events + [e])[1..] == events[1..] + [e];
      RunMore(Step(s, events[0]), events[1..], e);
    }
  }

  lemma {:induction false} ProperMore(events: seq<Event>, e: Event, clock: nat)
    requires ProperRun(events + [e], clock)
    ensures ProperRun(events, clock) && Proper(e, ClockAfter(events, clock))
    decreases |events|
  {
    hide Proper;
    if events == [] {
      assert events + [e] == [e];
    } else {
      assert (events + [e])[0] == events[0] && (events + [e])[1..] == events[1..] + [e];
      ProperMore(events[1..], e, Clock(events[0], clock));
    }
  }

  /** The state says when each word was last set, and what was last granted. */
  ghost predicate Tells(s: Ecm, events: seq<Event>, pid: int) {
    s.evenTime == SetAt(events, EVEN) && s.oddTime == SetAt(events, ODD) && ActiveOf(s, pid) == GrantedAt(events, pid)
  }

  lemma TellsNext(s: Ecm, before: seq<Event>, e: Event, pid: int, clock: nat)
    requires Inv(s, clock) && Proper(e, clock) && Tells(s, before, pid)
    ensures Tells(Step(s, e), before + [e], pid)
  {
    if e.Request? {
      WaitingIs(s, pid, e.parity, clock);
    }
    hide SetAt, GrantedAt, MustWait, Inv;
    SetUnfolded(before, e, EVEN);
    SetUnfolded(before, e, ODD);
    GrantUnfolded(before, e, pid);
  }

  lemma SetUnfolded(before: seq<Event>, e: Event, parity: int)
    ensures SetAt(before + [e], parity) ==
              if e.Reset? then 0 else if e.WordSet? && e.parity == parity then e.now else SetAt(before, parity)
  {
    var events := before + [e];
    assert events[..|events| - 1] == before && events[|events| - 1] == e;
  }

  lemma GrantUnfolded(before: seq<Event>, e: Event, pid: int)
    ensures GrantedAt(before + [e], pid) ==
              if e.Reset? then 0 else if Grants(before, e, pid) then e.parity else GrantedAt(before, pid)
  {
    hide Waits, Grants;
    var events := before + [e];
    assert events[..|events| - 1] == before && events[|events| - 1] == e;
  }

  lemma {:induction false} RunTells(events: seq<Event>, pid: int, clock: nat)
    requires ProperRun(events, clock)
    ensures Tells(Run(RESET, events), events, pid) && Inv(Run(RESET, events), ClockAfter(events, clock))
    decreases |events|
  {
    hide SetAt, GrantedAt, Waits, Grants, Step, Proper;
    RunKeeps(RESET, events, clock);
    if events == [] {
      NothingTold(pid);
    } else {
      var n := |events| - 1;
      assert events == events[..n] + [events[n]];
      ProperMore(events[..n], events[n], clock);
      RunTells(events[..n], pid, clock);
      RunMore(RESET, events[..n], events[n]);
      TellsNext(Run(RESET, events[..n]), events[..n], events[n], pid, ClockAfter(events[..n], clock));
    }
  }

  lemma NothingTold(pid: int)
    ensures Tells(RESET, [], pid)
  {
  }

  /** In every run from a reset, a request waits exactly if its PID holds the other
      parity and the word of that one was set at least half a second after the
      wanted one, both since the last reset. */
  lemma AnswersExactly(events: seq<Event>, pid: int, parity: int, clock: nat)
    requires ProperRun(events, clock) && Parity(parity)
    ensures Answer(Run(RESET, events), pid, parity, false) == if Waits(events, pid, parity) then 0 else 1
    ensures Answer(Run(RESET, events), pid, parity, true) == 1
    ensures ActiveOf(Run(RESET, events), pid) == GrantedAt(events, pid)
  {
    RunTells(events, pid, clock);
    WaitingIs(Run(RESET, events), pid, parity, ClockAfter(events, clock));
    hide SetAt, GrantedAt, MustWait, Inv, Run;
  }

  /** What an unforced request does to the parity held, in times of events. */
  lemma SwitchesOnTime(events: seq<Event>, pid: int, parity: int, clock: nat)
    requires ProperRun(events, clock) && Parity(parity) && pid > 0
    ensures var p, q := GrantedAt(events, pid), GrantedAt(events + [Request(pid, parity, false)], pid);
            p in {0, EVEN, ODD}
            && (SetAt(events, EVEN) == 0 || SetAt(events, ODD) == 0 ==> p == q == 0)
            && (SetAt(events, EVEN) > 0 && SetAt(events, ODD) > 0 ==>
                  q == if p == OtherParity(parity) && SetAt(events, p) >= SetAt(events, parity) + 500 then p else parity)
  {
    RunTells(events, pid, clock);
    GrantUnfolded(events, Request(pid, parity, false), pid);
    hide SetAt, GrantedAt, Run;
  }

  /** The words half a second or more apart, the newer one held: the older one is refused. */
  lemma OlderWaits(first: nat, second: nat, pid: int, parity: int)
    requires Parity(parity) && pid > 0 && 0 < first && first + 500 <= second
    ensures var events := [WordSet(parity, first), WordSet(OtherParity(parity), second), Request(pid, OtherParity(parity), false)];
            ProperRun(events, 0) && Answer(Run(RESET, events), pid, parity, false) == 0
  {
    var a, b, c := WordSet(parity, first), WordSet(OtherParity(parity), second), Request(pid, OtherParity(parity), false);
    assert [a, b, c][1..] == [b, c] && [b, c][1..] == [c] && [c][1..] == [];
    assert ProperRun([c], second) && ProperRun([b, c], first);
    var s := Step(RESET, a);
    assert Run(Step(s, b), [c]) == Step(Step(s, b), c);
    assert Run(s, [b, c]) == Step(Step(s, b), c);
  }

  /** The state as it is kept with the keys. */
  class FastEcmKey {
    var evenparityTime: nat
    var oddparityTime: nat
    var nextparity: int
    var activparity: map<int, int>
    var activparity2: map<int, int>
    var csaPid: int
    var csaSid: int
    var csaCaid: int

    ghost function State(): Ecm
      reads this
    {
      Ecm(evenparityTime, oddparityTime, nextparity, activparity)
    }

    constructor ()
      ensures State() == RESET && activparity2 == map[] && csaPid == csaSid == csaCaid == 0
    {
      evenparityTime, oddparityTime, nextparity := 0, 0, 0;
      activparity, activparity2 := map[], map[];
      csaPid, csaSid, csaCaid := 0, 0, 0;
    }

    method InitFastEcm(binitcsa: bool)
      modifies this
      ensures State() == RESET && activparity2 == map[]
      ensures if binitcsa then csaPid == csaSid == csaCaid == 0
              else csaPid == old(csaPid) && csaSid == old(csaSid) && csaCaid == old(csaCaid)
    {
      oddparityTime, evenparityTime, nextparity := 0, 0, 0;
      activparity, activparity2 := map[], map[];
      if binitcsa {
        csaPid, csaSid, csaCaid := 0, 0, 0;
      }
    }

    method InitFastEcmOnCaid(caid: int)
      modifies this
      ensures State() == if caid == csaCaid then RESET else old(State())
      ensures activparity2 == if caid == csaCaid then map[] else old(activparity2)
      ensures csaPid == old(csaPid) && csaSid == old(csaSid) && csaCaid == old(csaCaid)
    {
      if caid == csaCaid {
        oddparityTime, evenparityTime, nextparity := 0, 0, 0;
        activparity, activparity2 := map[], map[];
      }
    }

    /** set_even_control_word and set_odd_control_word. */
    method SetControlWord(parity: int, tick: nat)
      requires Parity(parity)
      modifies this`nextparity, this`evenparityTime, this`oddparityTime
      ensures State() == SetWord(old(State()), parity, tick)
    {
      nextparity := parity;
      if parity == EVEN {
        evenparityTime := tick;
      } else {
        oddparityTime := tick;
      }
    }

    method GetActiveParity(pid: int) returns (aparity: int, aparity2: int)
      ensures aparity == ActiveOf(State(), pid)
      ensures aparity2 == if pid > 0 && pid in activparity2 then activparity2[pid] else 0
    {
      aparity, aparity2 := 0, 0;
      if pid <= 0 {
        return;
      }
      if pid in activparity {
        aparity := activparity[pid];
      }
      if pid in activparity2 {
        aparity2 := activparity2[pid];
      }
    }

    /** Asks for a parity for a PID: 1 if it may be used, 0 if it must be waited for.
        The other results are for the log: the parity asked for before, whether this
        is the first grant, whether it settled which parity is next, and whether the
        grant relies on the words being almost equally new. */
    method SetCwParity(pid: int, parity: int, force: bool, ghost clock: nat)
      returns (r: int, oldparity: int, firsttimecheck: bool, nextparityset: bool, activparitypatched: bool)
      requires Parity(parity) && Inv(State(), clock)
      modifies this`nextparity, this`activparity, this`activparity2
      ensures r == Answer(old(State()), pid, parity, force) && State() == Requested(old(State()), pid, parity, force)
      ensures activparity2 == if pid <= 0 then old(activparity2) else old(activparity2)[pid := parity]
      ensures oldparity == if pid <= 0 then parity else if pid in old(activparity2) then old(activparity2)[pid] else 0
      ensures firsttimecheck <==> pid > 0 && BothSet(old(State())) && !force && old(ActiveOf(State(), pid)) == 0
      ensures nextparityset <==> firsttimecheck && old(nextparity) == parity
      ensures activparitypatched <==> pid > 0 && BothSet(old(State())) && !force && r == 1 && old(ActiveOf(State(), pid)) == OtherParity(parity)
                                      && old(nextparity) != parity
    {
      firsttimecheck, nextparityset, activparitypatched := false, false, false;
      oldparity := parity;
      r := 1;
      if pid <= 0 {
        return;
      }
      oldparity := if pid in activparity2 then activparity2[pid] else 0;
      activparity2 := activparity2[pid := parity];
      if oddparityTime == 0 || evenparityTime == 0 {
        return;
      }
      if force {
        activparity := activparity[pid := parity];
        return;
      }
      var aparity, aparity2 := GetActiveParity(pid);
      if aparity == 0 {
        firsttimecheck := true;
        aparity := parity;
        activparity := activparity[pid := parity];
        if nextparity == parity {
          if evenparityTime > 0 && evenparityTime >= oddparityTime {
            nextparity := EVEN;
          } else if oddparityTime > 0 && oddparityTime >= evenparityTime {
            nextparity := ODD;
          }
          nextparityset := true;
        }
      }
      if aparity != parity {
        if nextparity == parity {
          activparity := activparity[pid := parity];
          return;
        } else {
          if nextparity > 0 {
            var delta := if evenparityTime > oddparityTime then evenparityTime - oddparityTime else oddparityTime - evenparityTime;
            if delta < 500 {
              activparitypatched := true;
              activparity := activparity[pid := parity];
              return;
            }
          }
          r := 0;
          return;
        }
      }
      assert activparity == activparity[pid := parity];
    }

    /** Records the parity of a PID for the log only. */
    method SetActiveParity2(pid: int, parity: int)
      modifies this`activparity2
      ensures activparity2 == old(activparity2)[pid := parity]
    {
      activparity2 := activparity2[pid := parity];
    }

    /** What other threads do to the key. */
    method Others(events: seq<Event>, ghost clock: nat)
      requires Inv(State(), clock) && ProperRun(events, clock)
      modifies this
      ensures State() == Run(old(State()), events) && Inv(State(), ClockAfter(events, clock))
    {
      ghost var now := clock;
      for i := 0 to |events|
        invariant Inv(State(), now) && ProperRun(events[i..], now)
        invariant Run(State(), events[i..]) == Run(old(State()), events)
        invariant ClockAfter(events[i..], now) == ClockAfter(events, clock)
      {
        StepKeeps(State(), events[i], now);
        ghost var rest := events[i..];
        assert rest[1..] == events[i + 1..];
        match events[i] {
          case WordSet(parity, tick) => SetControlWord(parity, tick);
          case Request(pid, parity, force) =>
            var r, oldparity, firsttimecheck, nextparityset, activparitypatched := SetCwParity(pid, parity, force, now);
          case Reset => InitFastEcm(true);
        }
        now := Clock(events[i], now);
      }
    }

    /** One sleep of the wait: others says what other threads do meanwhile; the last
        one ends the wait whatever the answer is. */
    method SleepOnce(pid: int, parity: int, others: seq<Event>, abort: bool, last: bool, ghost clock: nat) returns (iok: int)
      requires Parity(parity) && Inv(State(), clock) && ProperRun(others, clock)
      modifies this
      ensures Inv(State(), ClockAfter(others, clock))
      ensures var s := Run(old(State()), others);
              && iok == (if !abort && (last || Answer(s, pid, parity, false) == 1) then 1 else 0)
              && State() == if iok == 0 then s else if Answer(s, pid, parity, false) == 1 then Requested(s, pid, parity, false) else RESET
    {
      hide MustWait;
      Others(others, clock);
      ghost var s, now := State(), ClockAfter(others, clock);
      iok := 0;
      if abort {
        return;
      }
      var oldparity, firsttimecheck, nextparityset, activparitypatched;
      iok, oldparity, firsttimecheck, nextparityset, activparitypatched := SetCwParity(pid, parity, false, now);
      StepKeeps(s, Request(pid, parity, false), now);
      if iok != 1 {
        WaitingIsStable(s, pid, parity, now);
        if last {
          iok, oldparity, firsttimecheck, nextparityset, activparitypatched := SetCwParity(pid, parity, true, now);
          InitFastEcm(false);
          iok := 1;
        }
      }
    }

    /** Waits for a parity, at most imaxSleep sleeps and one more; outside says what
        other threads do during each sleep. */
    method WaitForParity(pid: int, parity: int, outside: seq<seq<Event>>, aborted: seq<bool>, timedOut: seq<bool>, ghost clock: nat)
      returns (ok: bool, sleeps: nat)
      requires Parity(parity) && Inv(State(), clock) && |outside| == |aborted| == |timedOut| == 51
      requires ProperAll(outside, clock)
      modifies this
      ensures ok <==> !WaitFails(old(State()), pid, parity, outside, aborted, timedOut)
      ensures sleeps <= 51 && (!ok ==> 1 <= sleeps && aborted[sleeps - 1])
      ensures sleeps == 0 <==> old(Answer(State(), pid, parity, false)) == 1
      ensures ok && State() != RESET ==> Held(State(), pid, parity)
    {
      hide Held, MustWait, Requested;
      var imaxSleep := 2500 / 50;
      ghost var before := State();
      var iok, oldparity, firsttimecheck, nextparityset, activparitypatched := SetCwParity(pid, parity, false, clock);
      StepKeeps(before, Request(pid, parity, false), clock);
      HeldThen(before, pid, parity, clock);
      sleeps := 0;
      ghost var now := clock;
      assert outside[0..] == outside && aborted[0..] == aborted && timedOut[0..] == timedOut;
      while iok == 0
        invariant (iok == 0 || iok == 1) && sleeps <= 51 && (iok == 0 ==> sleeps <= 50)
        invariant Inv(State(), now) && ProperAll(outside[sleeps..], now)
        invariant sleeps == 0 ==> iok == Answer(before, pid, parity, false)
        invariant sleeps > 0 ==> Answer(before, pid, parity, false) == 0
        invariant iok == 0 ==> Answer(State(), pid, parity, false) == 0
        invariant WaitFails(before, pid, parity, outside, aborted, timedOut) <==>
                    iok == 0 && WaitFails(State(), pid, parity, outside[sleeps..], aborted[sleeps..], timedOut[sleeps..])
        invariant iok == 1 && State() != RESET ==> Held(State(), pid, parity)
        decreases 51 - sleeps, 1 - iok
      {
        ghost var s := Run(State(), outside[sleeps]);
        FailsNext(State(), pid, parity, outside, aborted, timedOut, sleeps);
        ProperNext(outside, sleeps, now);
        RunKeeps(State(), outside[sleeps], now);
        HeldThen(s, pid, parity, ClockAfter(outside[sleeps], now));
        hide WaitFails, ProperAll;
        iok := SleepOnce(pid, parity, outside[sleeps], aborted[sleeps], timedOut[sleeps] || sleeps + 1 > imaxSleep, now);
        now := ClockAfter(outside[sleeps], now);
        sleeps := sleeps + 1;
        if aborted[sleeps - 1] {
          return false, sleeps;
        }
      }
      ok := true;
    }
  }

  /** The PID holds the parity, or there is nothing to wait for. */
  ghost predicate Held(s: Ecm, pid: int, parity: int) { pid <= 0 || !BothSet(s) || ActiveOf(s, pid) == parity }

  lemma HeldThen(s: Ecm, pid: int, parity: int, clock: nat)
    requires Inv(s, clock) && Parity(parity)
    ensures if Answer(s, pid, parity, false) == 1 then Held(Requested(s, pid, parity, false), pid, parity)
            else Requested(s, pid, parity, false) == s
  {
  }

  /** The wait is cancelled: the request has to wait, and during a sleep it is aborted
      before its time is over and before what others do makes an end of the waiting. */
  ghost predicate WaitFails(s: Ecm, pid: int, parity: int, outside: seq<seq<Event>>, aborted: seq<bool>, timedOut: seq<bool>)
    requires |outside| == |aborted| == |timedOut|
    decreases |outside|
  {
    && outside != [] && Answer(s, pid, parity, false) == 0
    && (aborted[0] || (!timedOut[0] && WaitFails(Run(s, outside[0]), pid, parity, outside[1..], aborted[1..], timedOut[1..])))
  }

  lemma FailsNext(s: Ecm, pid: int, parity: int, outside: seq<seq<Event>>, aborted: seq<bool>, timedOut: seq<bool>, k: nat)
    requires |outside| == |aborted| == |timedOut| && k < |outside| && Answer(s, pid, parity, false) == 0
    ensures WaitFails(s, pid, parity, outside[k..], aborted[k..], timedOut[k..]) <==>
              aborted[k] || (!timedOut[k] && WaitFails(Run(s, outside[k]), pid, parity, outside[k + 1..], aborted[k + 1..], timedOut[k + 1..]))
    ensures WaitFails(Run(s, outside[k]), pid, parity, outside[k + 1..], aborted[k + 1..], timedOut[k + 1..]) ==>
              k + 1 < |outside| && Answer(Run(s, outside[k]), pid, parity, false) == 0
  {
    hide Answer, Run;
    assert outside[k..][0] == outside[k] && outside[k..][1..] == outside[k + 1..];
    assert aborted[k..][0] == aborted[k] && aborted[k..][1..] == aborted[k + 1..];
    assert timedOut[k..][0] == timedOut[k] && timedOut[k..][1..] == timedOut[k + 1..];
  }

  lemma ProperNext(outside: seq<seq<Event>>, k: nat, clock: nat)
    requires k < |outside| && ProperAll(outside[k..], clock)
    ensures ProperRun(outside[k], clock) && ProperAll(outside[k + 1..], ClockAfter(outside[k], clock))
  {
    assert outside[k..][0] == outside[k] && outside[k..][1..] == outside[k + 1..];
  }

  ghost predicate ProperAll(outside: seq<seq<Event>>, clock: nat)
    decreases |outside|
  {
    outside != [] ==> ProperRun(outside[0], clock) && ProperAll(outside[1..], ClockAfter(outside[0], clock))
  }
}
