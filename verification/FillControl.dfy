/** Holding packets back until enough of them have arrived for a batch. */
module FillControl {
  import opened Numbers

  const TS_SIZE := 188
  const SLEEP_INTERVAL := 20
  const MIN_WATER_MARK := 2 * TS_SIZE

  datatype Mode = Ready | Sleep | Wrap

  datatype Config = Config(maxWaterMark: int, timeout: int, dataInterval: int)

  /** The state between calls; positions in the buffer are addresses. */
  datatype Fill = Fill(mode: Mode, lowWaterMark: int, lastData: int, lastCount: int, timeSlept: int, tap1: int, tap2: int)

  function Median(input: int, tap1: int, tap2: int): int { Min(Max(Min(input, tap1), tap2), Max(input, tap1)) }

  /** One of the three, with another one on either side. */
  ghost predicate IsMedian(m: int, a: int, b: int, c: int) {
    || (m == a && (b <= a <= c || c <= a <= b))
    || (m == b && (a <= b <= c || c <= b <= a))
    || (m == c && (a <= c <= b || b <= c <= a))
  }

  lemma TrueMedian(input: int, tap1: int, tap2: int)
    ensures IsMedian(Median(input, tap1, tap2), input, tap1, tap2)
    ensures forall m :: IsMedian(m, input, tap1, tap2) ==> m == Median(input, tap1, tap2)
  {
  }

  function Clamped(c: Config, input: int): int { Max(Min(input, c.maxWaterMark), MIN_WATER_MARK) }

  function Filtered(s: Fill, input: int): Fill {
    s.(lowWaterMark := if s.tap1 >= 0 && s.tap2 >= 0 then Median(input, s.tap1, s.tap2) else input, tap1 := input, tap2 := s.tap1)
  }

  datatype Outcome = Outcome(state: Fill, pass: bool)

  /** One call with count bytes at data. */
  function Step(c: Config, s: Fill, data: int, count: int): Outcome {
    match s.mode
    case Ready =>
      if count < s.lowWaterMark then Outcome(s.(mode := Sleep, lastData := data, lastCount := count, timeSlept := 0), false)
      else Outcome(s, true)
    case Sleep =>
      var t := s.(timeSlept := s.timeSlept + SLEEP_INTERVAL);
      if t.timeSlept >= c.dataInterval && count == t.lastCount && data == t.lastData then Outcome(t.(mode := Wrap), true)
      else if t.timeSlept >= c.timeout || count - t.lastCount > c.maxWaterMark then
        Outcome(Filtered(t, Clamped(c, count - t.lastCount)).(mode := Ready), false)
      else Outcome(t, false)
    case Wrap =>
      if data + count != s.lastData + s.lastCount then Outcome(s.(mode := Ready), false)
      else Outcome(s.(lastData := data, lastCount := count), true)
  }

  function AfterReset(c: Config, s: Fill): Fill { s.(mode := Ready, lowWaterMark := c.maxWaterMark, tap1 := -1, tap2 := -1) }

  ghost predicate InRange(c: Config, mark: int) { MIN_WATER_MARK <= mark <= c.maxWaterMark }

  /** The low water mark, and every tap that is set, keep within the limits. */
  ghost predicate Limited(c: Config, s: Fill) {
    InRange(c, s.lowWaterMark) && (s.tap1 == -1 || InRange(c, s.tap1)) && (s.tap2 == -1 || InRange(c, s.tap2))
  }

  lemma StepKeepsLimits(c: Config, s: Fill, data: int, count: int)
    requires Limited(c, s)
    ensures Limited(c, Step(c, s, data, count).state)
  {
    if s.tap1 >= 0 && s.tap2 >= 0 {
      TrueMedian(Clamped(c, count - s.lastCount), s.tap1, s.tap2);
    }
  }

  /** A reset brings the limits about exactly when there are any marks between them. */
  lemma ResetLimits(c: Config, s: Fill)
    ensures Limited(c, AfterReset(c, s)) <==> MIN_WATER_MARK <= c.maxWaterMark
  {
  }

  /** What can happen: a call, or a reset. */
  datatype Event = Call(data: int, count: int) | Reset

  function Run(c: Config, s: Fill, events: seq<Event>): Fill
    decreases |events|
  {
    if events == [] then s
    else Run(c, match events[0] case Call(data, count) => Step(c, s, data, count).state case Reset => AfterReset(c, s), events[1..])
  }

  /** In every reachable state the marks keep within the limits. */
  lemma {:induction false} RunKeepsLimits(c: Config, s: Fill, events: seq<Event>)
    requires MIN_WATER_MARK <= c.maxWaterMark && Limited(c, s)
    ensures Limited(c, Run(c, s, events))
    decreases |events|
  {
    if events != [] {
      var e := events[0];
      var t := match e case Call(data, count) => Step(c, s, data, count).state case Reset => AfterReset(c, s);
      if e.Call? {
        StepKeepsLimits(c, s, e.data, e.count);
      } else {
        ResetLimits(c, s);
      }
      RunKeepsLimits(c, t, events[1..]);
    }
  }

  /** The first call after a reset passes if the buffer is filled up to the upper mark;
      marks found before are forgotten. */
  lemma FirstCall(c: Config, s: Fill, data: int, count: int)
    ensures AfterReset(c, s).mode == Ready && AfterReset(c, s).tap1 < 0 && AfterReset(c, s).tap2 < 0
    ensures Step(c, AfterReset(c, s), data, count).pass <==> count >= c.maxWaterMark
  {
  }

  /** The low water mark that the growth of the buffer during a wait leads to: the
      growth, brought between the marks, or the median of the last three ones. */
  ghost predicate NewMark(c: Config, s: Fill, growth: int, t: Fill) {
    && (376 <= growth <= c.maxWaterMark ==> t.tap1 == growth)
    && (growth < 376 || c.maxWaterMark < 376 ==> t.tap1 == 376)
    && (growth > c.maxWaterMark >= 376 ==> t.tap1 == c.maxWaterMark)
    && t.tap2 == s.tap1
    && if s.tap1 >= 0 && s.tap2 >= 0 then IsMedian(t.lowWaterMark, t.tap1, s.tap1, s.tap2) else t.lowWaterMark == t.tap1
  }

  /** While more data arrive, a call is refused; after the timeout, or once more than
      the upper mark has arrived, packets pass again from the new mark on. */
  lemma GrowingBuffer(c: Config, s: Fill, data: int, count: int)
    requires s.mode == Sleep && (count != s.lastCount || data != s.lastData)
    ensures var o, growth := Step(c, s, data, count), count - s.lastCount;
            && !o.pass && (o.state.mode == Ready || o.state.mode == Sleep)
            && (o.state.mode == Ready <==> s.timeSlept + 20 >= c.timeout || growth > c.maxWaterMark)
            && (if o.state.mode == Ready then NewMark(c, s, growth, o.state) else o.state == s.(timeSlept := s.timeSlept + 20))
            && forall d, n :: o.state.mode == Ready ==> (Step(c, o.state, d, n).pass <==> n >= o.state.lowWaterMark)
  {
    TrueMedian(Clamped(c, count - s.lastCount), s.tap1, s.tap2);
  }

  /** Calls go on passing as long as the end of the data stays where it is. */
  lemma WrapEnds(c: Config, s: Fill, data: int, count: int)
    requires s.mode == Wrap
    ensures var o := Step(c, s, data, count);
            && (o.pass <==> data + count == s.lastData + s.lastCount)
            && o.state.mode == (if o.pass then Wrap else Ready) && o.state.lowWaterMark == s.lowWaterMark
            && (o.pass ==> o.state.lastData + o.state.lastCount == s.lastData + s.lastCount)
  {
  }

  function Again(call: Event, k: nat): seq<Event> { if k == 0 then [] else Again(call, k - 1) + [call] }

  lemma {:induction false} RunMore(c: Config, s: Fill, events: seq<Event>, data: int, count: int)
    ensures Run(c, s, events + [Call(data, count)]) == Step(c, Run(c, s, events), data, count).state
    decreases |events|
  {
    hide Step, AfterReset;
    var e := Call(data, count);
    if events == [] {
      assert events + [e] == [e] && [e][1..] == [];
    } else {
      assert (events + [e])[0] == events[0] && (events + [e])[1..] == events[1..] + [e];
      var f := events[0];
      RunMore(c, match f case Call(d, n) => Step(c, s, d, n).state case Reset => AfterReset(c, s), events[1..], data, count);
    }
  }

  /** The state after k calls that find the same bytes, fewer than the mark. */
  lemma {:induction false} StuckFor(c: Config, s: Fill, data: int, count: int, k: nat)
    requires c.dataInterval <= c.timeout && Settled(c, s) && s.mode == Ready && 0 <= count < s.lowWaterMark
    ensures var t := Run(c, s, Again(Call(data, count), k));
            if k == 0 then t == s
            else if k == 1 || 20 * (k - 1) < c.dataInterval then
              t == s.(mode := Sleep, lastData := data, lastCount := count, timeSlept := 20 * (k - 1))
            else t.mode == Wrap && t.lastData == data && t.lastCount == count
  {
    if k > 0 {
      StuckFor(c, s, data, count, k - 1);
      RunMore(c, s, Again(Call(data, count), k - 1), data, count);
    }
  }

  /** A buffer below its mark that does not grow: calls are refused at first and as
      long as the data interval lasts, and pass from then on. */
  lemma StuckExactly(c: Config, s: Fill, data: int, count: int, k: nat)
    requires c.dataInterval <= c.timeout && Settled(c, s) && s.mode == Ready && 0 <= count < s.lowWaterMark
    ensures Step(c, Run(c, s, Again(Call(data, count), k)), data, count).pass <==> k >= 1 && 20 * k >= c.dataInterval
  {
    StuckFor(c, s, data, count, k);
  }

  // The producer has stopped: the end of the data stays where it is.

  /** What every reachable state has: a sleep is counted from 0, and with a negative
      upper mark, which is then the low water mark for good, no call ever waits. */
  ghost predicate Settled(c: Config, s: Fill) {
    && (s.mode == Sleep ==> s.timeSlept >= 0)
    && (c.maxWaterMark < 0 ==> s.mode == Ready && s.lowWaterMark == c.maxWaterMark)
  }

  lemma StepSettled(c: Config, s: Fill, data: int, count: int)
    requires Settled(c, s) && count >= 0
    ensures Settled(c, Step(c, s, data, count).state)
  {
  }

  /** A buffer never holds fewer than no bytes. */
  ghost predicate RealCounts(events: seq<Event>) {
    forall i :: 0 <= i < |events| && events[i].Call? ==> events[i].count >= 0
  }

  lemma {:induction false} RunSettled(c: Config, s: Fill, events: seq<Event>)
    requires Settled(c, s) && RealCounts(events)
    ensures Settled(c, Run(c, s, events))
    decreases |events|
  {
    if events != [] {
      var e := events[0];
      var t := match e case Call(data, count) => Step(c, s, data, count).state case Reset => AfterReset(c, s);
      if e.Call? {
        StepSettled(c, s, e.data, e.count);
      }
      assert forall i :: 0 <= i < |events[1..]| ==> events[1..][i] == events[i + 1];
      RunSettled(c, t, events[1..]);
    }
  }

  /** Further sleeps until the given time has passed. */
  function Sleeps(time: int, slept: int): nat {
    if slept >= time then 0 else (time - slept + SLEEP_INTERVAL - 1) / SLEEP_INTERVAL
  }

  /** A bound on the refusals to come, when no more data arrive. */
  function Rank(c: Config, s: Fill, data: int, count: int): nat {
    var ready := 1 + Sleeps(c.dataInterval, 0);
    match s.mode
    case Wrap => if data + count == s.lastData + s.lastCount then 0 else 1 + ready
    case Ready => if c.maxWaterMark < 0 then 0 else ready
    case Sleep =>
      if count == s.lastCount && data == s.lastData then Sleeps(c.dataInterval, s.timeSlept)
      else 1 + Sleeps(c.timeout, s.timeSlept) + ready
  }

  lemma OneSleep(time: int, slept: int)
    ensures slept + SLEEP_INTERVAL < time ==> Sleeps(time, slept + SLEEP_INTERVAL) + 1 == Sleeps(time, slept)
    ensures slept < time ==> Sleeps(time, slept) >= 1
  {
  }

  /** A refusal uses up one of the bound; a packet that passes uses up none. */
  lemma RankFalls(c: Config, s: Fill, data: int, count: int)
    requires c.dataInterval <= c.timeout && Settled(c, s) && count >= 0
    ensures var o := Step(c, s, data, count);
            if o.pass then Rank(c, o.state, data + TS_SIZE, count - TS_SIZE) <= Rank(c, s, data, count)
            else Rank(c, o.state, data, count) < Rank(c, s, data, count)
  {
    hide Sleeps;
    OneSleep(c.dataInterval, s.timeSlept);
    OneSleep(c.timeout, s.timeSlept);
  }

  /** How often the rest of the buffer is refused until all of it has passed:
      a refused packet is offered again, a packet that passes is taken. */
  ghost function Refusals(c: Config, s: Fill, data: int, count: int): (n: nat)
    requires c.dataInterval <= c.timeout && Settled(c, s)
    decreases count, Rank(c, s, data, count)
  {
    if count < TS_SIZE then 0
    else
      RankFalls(c, s, data, count);
      StepSettled(c, s, data, count);
      var o := Step(c, s, data, count);
      if o.pass then Refusals(c, o.state, data + TS_SIZE, count - TS_SIZE) else 1 + Refusals(c, o.state, data, count)
  }

  lemma {:induction false} RefusalsByRank(c: Config, s: Fill, data: int, count: int)
    requires c.dataInterval <= c.timeout && Settled(c, s)
    ensures Refusals(c, s, data, count) <= Rank(c, s, data, count)
    decreases count, Rank(c, s, data, count)
  {
    hide Step, Rank, Settled;
    if count >= TS_SIZE {
      RankFalls(c, s, data, count);
      StepSettled(c, s, data, count);
      var o := Step(c, s, data, count);
      if o.pass {
        RefusalsByRank(c, o.state, data + TS_SIZE, count - TS_SIZE);
      } else {
        RefusalsByRank(c, o.state, data, count);
      }
    }
  }

  /** From a reset on, by any calls and resets: with the producer stopped, every
      packet that is left passes, after a number of refusals bounded by the two
      times, however many packets are left and whatever the upper mark is. */
  lemma RefusalsBounded(c: Config, s: Fill, events: seq<Event>, data: int, count: int)
    requires c.dataInterval <= c.timeout && RealCounts(events)
    ensures var t := Run(c, AfterReset(c, s), events);
            Settled(c, t) && Refusals(c, t, data, count) <= 2 + Sleeps(c.timeout, 0) + Sleeps(c.dataInterval, 0)
  {
    var t := Run(c, AfterReset(c, s), events);
    RunSettled(c, AfterReset(c, s), events);
    RefusalsByRank(c, t, data, count);
    RankBounded(c, t, data, count);
  }

  /** The bound in terms of the two times. */
  lemma RankBounded(c: Config, s: Fill, data: int, count: int)
    requires c.dataInterval <= c.timeout && Settled(c, s)
    ensures Rank(c, s, data, count) <= 2 + Sleeps(c.timeout, 0) + Sleeps(c.dataInterval, 0)
  {
  }

  /** With a negative upper mark no call is ever refused. */
  lemma NegativeMarkPasses(c: Config, s: Fill, events: seq<Event>, data: int, count: int)
    requires c.maxWaterMark < 0 && RealCounts(events) && count >= 0
    ensures Step(c, Run(c, AfterReset(c, s), events), data, count).pass
  {
    RunSettled(c, AfterReset(c, s), events);
  }

  class DeCSAFillControl {
    const maxWaterMark: int
    const timeout: int
    const dataInterval: int
    var lowWaterMark: int
    var lastCount: int
    var timeSlept: int
    var lastData: int
    var mode: Mode
    var fltTap1: int
    var fltTap2: int

    ghost function Settings(): Config { Config(maxWaterMark, timeout, dataInterval) }

    ghost function State(): Fill
      reads this
    {
      Fill(mode, lowWaterMark, lastData, lastCount, timeSlept, fltTap1, fltTap2)
    }

    constructor (max: int, limit: int, interval: int)
      ensures maxWaterMark == max && timeout == limit && dataInterval == Min(interval, limit)
      ensures State() == AfterReset(Settings(), State())
    {
      maxWaterMark, timeout := max, limit;
      dataInterval := if interval > limit then limit else interval;
      new;
      Reset();
    }

    method Reset()
      modifies this
      ensures State() == AfterReset(Settings(), old(State()))
    {
      mode := Ready;
      lowWaterMark := maxWaterMark;
      fltTap1, fltTap2 := -1, -1;
    }

    /** Median of the last three marks, once there are three. */
    method Filter(input: int) returns (ret: int)
      modifies this`fltTap1, this`fltTap2
      ensures ret == Filtered(old(State()), input).lowWaterMark
      ensures State() == Filtered(old(State()), input).(lowWaterMark := old(lowWaterMark))
      ensures old(fltTap1) >= 0 && old(fltTap2) >= 0 ==> IsMedian(ret, input, old(fltTap1), old(fltTap2))
    {
      var tap1, tap2 := fltTap1, fltTap2;
      if tap1 >= 0 && tap2 >= 0 {
        TrueMedian(input, tap1, tap2);
        ret := Min(Max(Min(input, tap1), tap2), Max(input, tap1));
      } else {
        ret := input;
      }
      fltTap2 := tap1;
      fltTap1 := input;
    }

    /** Sets the low water mark to what has arrived during the wait. */
    method WakeUp(count: int)
      modifies this
      ensures State() == Filtered(old(State()), Clamped(Settings(), count - old(lastCount))).(mode := Ready)
    {
      lowWaterMark := count - lastCount;
      if lowWaterMark > maxWaterMark {
        lowWaterMark := maxWaterMark;
      }
      if lowWaterMark < MIN_WATER_MARK {
        lowWaterMark := MIN_WATER_MARK;
      }
      lowWaterMark := Filter(lowWaterMark);
      mode := Ready;
    }

    /** Whether the packet at data may be processed now. */
    method CanProcess(data: int, count: int) returns (pass: bool)
      modifies this
      ensures pass == Step(Settings(), old(State()), data, count).pass
      ensures State() == Step(Settings(), old(State()), data, count).state
    {
      match mode {
        case Ready =>
          if count < lowWaterMark {
            lastCount := count;
            lastData := data;
            mode := Sleep;
            timeSlept := 0;
            return false;
          }
          return true;
        case Sleep =>
          timeSlept := timeSlept + SLEEP_INTERVAL;
          if timeSlept >= dataInterval && count == lastCount && data == lastData {
            mode := Wrap;
            return true;
          }
          if timeSlept >= timeout || count - lastCount > maxWaterMark {
            WakeUp(count);
          }
          return false;
        case Wrap =>
          if data + count != lastData + lastCount {
            mode := Ready;
            return false;
          }
          lastData := data;
          lastCount := count;
          return true;
      }
    }
  }
}
