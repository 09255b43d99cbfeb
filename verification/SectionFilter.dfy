/** The section filters of an adapter: sections are assembled from transport
    packets once per PID and then matched against every filter. */
module SectionFilter {
  import opened Bits
  import opened Sequences
  import opened TsPacket
  import opened Sections

  const DMX_FILTER_SIZE := 16

  type Pattern = p: seq<bv8> | |p| == DMX_FILTER_SIZE witness seq(DMX_FILTER_SIZE, _ => 0)

  /** A filter and the bits that count; the bits that do not are 0 in both. */
  datatype DmxFilter = DmxFilter(demux: int, num: int, filter: Pattern, mask: Pattern)

  datatype PidFilters = PidFilters(filters: seq<DmxFilter>, section: Bytes, sectionLen: nat, lastcc: int)

  datatype Message = Message(demux: int, num: int, data: Bytes)

  /** What the caller of SetFilter gives for start == 1. */
  datatype Request = NoPattern | Request(filter: Pattern, mask: Pattern)

  /** Between packets: fewer than 3 bytes and no length, or a length that the
      header states and that has not been reached. */
  ghost predicate Safe(pf: PidFilters) {
    if pf.sectionLen == 0 then |pf.section| < 3
    else 3 <= |pf.section| < pf.sectionLen == SectionLength(pf.section)
  }

  lemma SafeIsIncomplete(pf: PidFilters)
    requires Safe(pf)
    ensures Incomplete(pf.section)
  {
  }

  /** Byte i of a pattern is held against byte i + 2 of the section, but for the
      table id; bytes beyond the end count as 0. */
  function ByteFor(data: Bytes, i: nat): bv8 {
    var pos := if i > 0 then i + 2 else 0;
    if pos < |data| then data[pos] else 0
  }

  predicate ByteMatches(f: DmxFilter, data: Bytes, i: nat)
    requires i < DMX_FILTER_SIZE
  {
    ByteFor(data, i) & f.mask[i] == f.filter[i]
  }

  predicate Matches(f: DmxFilter, data: Bytes) { forall i :: 0 <= i < DMX_FILTER_SIZE ==> ByteMatches(f, data, i) }

  /** One message for every filter that matches, in the order of the filters. */
  function Sent(filters: seq<DmxFilter>, data: Bytes): seq<Message> {
    if filters == [] then []
    else Sent(filters[..|filters| - 1], data)
         + (var f := filters[|filters| - 1]; if Matches(f, data) then [Message(f.demux, f.num, data)] else [])
  }

  /** The messages are those of the matching filters, each one's once, in their order. */
  ghost predicate InOrder(at: seq<nat>, filters: seq<DmxFilter>, data: Bytes, messages: seq<Message>) {
    && |at| == |messages| && (forall i, j :: 0 <= i < j < |at| ==> at[i] < at[j])
    && (forall i :: 0 <= i < |at| ==> at[i] < |filters| && Matches(filters[at[i]], data))
    && (forall i :: 0 <= i < |at| && at[i] < |filters| ==> messages[i] == Message(filters[at[i]].demux, filters[at[i]].num, data))
    && forall k :: 0 <= k < |filters| && Matches(filters[k], data) ==> k in at
  }

  lemma InOrderMatch(at: seq<nat>, filters: seq<DmxFilter>, data: Bytes, messages: seq<Message>, f: DmxFilter)
    requires InOrder(at, filters, data, messages) && Matches(f, data)
    ensures InOrder(at + [|filters|], filters + [f], data, messages + [Message(f.demux, f.num, data)])
  {
    hide Matches;
    var now, all := at + [|filters|], filters + [f];
    forall k | 0 <= k < |all| && Matches(all[k], data) ensures k in now {
      if k < |filters| {
        assert k in at;
      } else {
        assert now[|at|] == k;
      }
    }
  }

  lemma InOrderSkip(at: seq<nat>, filters: seq<DmxFilter>, data: Bytes, messages: seq<Message>, f: DmxFilter)
    requires InOrder(at, filters, data, messages) && !Matches(f, data)
    ensures InOrder(at, filters + [f], data, messages)
  {
    hide Matches;
  }

  lemma {:induction false} SentInOrder(filters: seq<DmxFilter>, data: Bytes) returns (at: seq<nat>)
    ensures InOrder(at, filters, data, Sent(filters, data))
    decreases |filters|
  {
    at := [];
    if filters != [] {
      hide Matches;
      var n := |filters| - 1;
      at := SentInOrder(filters[..n], data);
      assert filters == filters[..n] + [filters[n]];
      hide InOrder;
      if Matches(filters[n], data) {
        InOrderMatch(at, filters[..n], data, Sent(filters[..n], data), filters[n]);
        at := at + [n];
      } else {
        InOrderSkip(at, filters[..n], data, Sent(filters[..n], data), filters[n]);
        assert Sent(filters[..n], data) + [] == Sent(filters[..n], data);
      }
    }
  }

  /** A pattern laid over the beginning of a section: the length bytes do not count. */
  function LaidOver(p: Pattern): (s: seq<bv8>)
    ensures |s| == 18
  {
    [p[0], 0, 0] + p[1..]
  }

  /** The bytes agree in the bits that count. */
  ghost predicate Agree(x: bv8, filter: bv8, mask: bv8) {
    forall b :: 0 <= b < 8 && BitAt(mask, b) ==> BitAt(x, b) == BitAt(filter, b)
  }

  predicate SameMasked(x: bv8, filter: bv8, mask: bv8) { And(x, mask) == And(filter, mask) }

  lemma AgreeIs(x: bv8, filter: bv8, mask: bv8)
    ensures Agree(x, filter, mask) <==> SameMasked(x, filter, mask)
  {
    hide BitAt, And;
    var a, c := And(x, mask), And(filter, mask);
    if Agree(x, filter, mask) {
      forall b | 0 <= b < 8 ensures BitAt(a, b) == BitAt(c, b) {
        BitOfBoth(x, mask, b);
        BitOfBoth(filter, mask, b);
        assert BitAt(mask, b) ==> BitAt(x, b) == BitAt(filter, b);
      }
      SameBits(a, c);
    }
    if a == c {
      forall b | 0 <= b < 8 && BitAt(mask, b) ensures BitAt(x, b) == BitAt(filter, b) {
        BitOfBoth(x, mask, b);
        BitOfBoth(filter, mask, b);
      }
    }
  }

  function ByteOrZero(data: Bytes, k: nat): bv8 { if k < |data| then data[k] else 0 }

  /** A filter matches if the section agrees with its pattern in every bit that its
      mask names, wherever the section ends. */
  lemma MatchesBits(demux: int, num: int, filter: Pattern, mask: Pattern, data: Bytes)
    ensures Matches(DmxFilter(demux, num, MaskedBy(filter, mask), mask), data) <==>
              forall k :: 0 <= k < 18 ==> Agree(ByteOrZero(data, k), LaidOver(filter)[k], LaidOver(mask)[k])
  {
    hide Matches, ByteMatches, Agree, ByteOrZero, MaskedBy;
    var f := DmxFilter(demux, num, MaskedBy(filter, mask), mask);
    forall i | 0 <= i < DMX_FILTER_SIZE
      ensures var k := if i > 0 then i + 2 else 0;
              ByteMatches(f, data, i) <==> Agree(ByteOrZero(data, k), LaidOver(filter)[k], LaidOver(mask)[k])
    {
      OneByte(f, data, filter, mask, i, if i > 0 then i + 2 else 0);
    }
    NoMask(ByteOrZero(data, 1), LaidOver(filter)[1]);
    NoMask(ByteOrZero(data, 2), LaidOver(filter)[2]);
    OverAll(f, data, filter, mask);
  }

  lemma OneByte(f: DmxFilter, data: Bytes, filter: Pattern, mask: Pattern, i: nat, k: nat)
    requires i < DMX_FILTER_SIZE && f.filter == MaskedBy(filter, mask) && f.mask == mask && k == if i > 0 then i + 2 else 0
    ensures ByteMatches(f, data, i) <==> Agree(ByteOrZero(data, k), LaidOver(filter)[k], LaidOver(mask)[k])
  {
    hide *;
    LaidAt(filter, i, k);
    LaidAt(mask, i, k);
    ByteMatchesIs(f, data, filter, mask, i, k);
    AgreeIs(ByteOrZero(data, k), filter[i], mask[i]);
  }

  lemma ByteMatchesIs(f: DmxFilter, data: Bytes, filter: Pattern, mask: Pattern, i: nat, k: nat)
    requires i < DMX_FILTER_SIZE && f.filter == MaskedBy(filter, mask) && f.mask == mask && k == if i > 0 then i + 2 else 0
    ensures ByteMatches(f, data, i) <==> SameMasked(ByteOrZero(data, k), filter[i], mask[i])
  {
  }

  lemma LaidAt(p: Pattern, i: nat, k: nat)
    requires i < DMX_FILTER_SIZE && k == if i > 0 then i + 2 else 0
    ensures LaidOver(p)[k] == p[i]
  {
  }

  lemma NoMask(x: bv8, filter: bv8)
    ensures Agree(x, filter, 0)
  {
    AgreeIs(x, filter, 0);
  }

  lemma OverAll(f: DmxFilter, data: Bytes, filter: Pattern, mask: Pattern)
    requires forall i :: 0 <= i < DMX_FILTER_SIZE ==>
               var k := if i > 0 then i + 2 else 0;
               ByteMatches(f, data, i) <==> Agree(ByteOrZero(data, k), LaidOver(filter)[k], LaidOver(mask)[k])
    requires Agree(ByteOrZero(data, 1), LaidOver(filter)[1], LaidOver(mask)[1])
    requires Agree(ByteOrZero(data, 2), LaidOver(filter)[2], LaidOver(mask)[2])
    ensures Matches(f, data) <==> forall k :: 0 <= k < 18 ==> Agree(ByteOrZero(data, k), LaidOver(filter)[k], LaidOver(mask)[k])
  {
    hide ByteMatches, Agree, LaidOver, ByteOrZero;
    if Matches(f, data) {
      forall k | 0 <= k < 18 ensures Agree(ByteOrZero(data, k), LaidOver(filter)[k], LaidOver(mask)[k]) {
        if k == 0 || k >= 3 {
          assert ByteMatches(f, data, if k == 0 then 0 else k - 2);
        }
      }
    }
    if forall k :: 0 <= k < 18 ==> Agree(ByteOrZero(data, k), LaidOver(filter)[k], LaidOver(mask)[k]) {
      forall i | 0 <= i < DMX_FILTER_SIZE ensures ByteMatches(f, data, i) {
        var k := if i > 0 then i + 2 else 0;
        assert Agree(ByteOrZero(data, k), LaidOver(filter)[k], LaidOver(mask)[k]);
      }
    }
  }

  /** So the two length bytes do not matter. */
  lemma LengthIgnored(f: DmxFilter, a: Bytes, b: Bytes)
    requires |a| == |b| && forall k :: 0 <= k < |a| && k != 1 && k != 2 ==> a[k] == b[k]
    ensures Matches(f, a) <==> Matches(f, b)
  {
    hide ByteMatches;
    forall i | 0 <= i < DMX_FILTER_SIZE ensures ByteMatches(f, a, i) <==> ByteMatches(f, b, i) {
      SameByte(f, a, b, i);
    }
  }

  lemma SameByte(f: DmxFilter, a: Bytes, b: Bytes, i: nat)
    requires |a| == |b| && i < DMX_FILTER_SIZE && forall k :: 0 <= k < |a| && k != 1 && k != 2 ==> a[k] == b[k]
    ensures ByteMatches(f, a, i) <==> ByteMatches(f, b, i)
  {
  }

  function SentAll(filters: seq<DmxFilter>, sections: seq<Bytes>): seq<Message> {
    if sections == [] then [] else Sent(filters, sections[0]) + SentAll(filters, sections[1..])
  }

  lemma {:induction false} SentInTurn(filters: seq<DmxFilter>, a: seq<Bytes>, b: seq<Bytes>)
    ensures SentAll(filters, a + b) == SentAll(filters, a) + SentAll(filters, b)
  {
    if a == [] {
      assert a + b == b;
    } else {
      assert (a + b)[1..] == a[1..] + b;
      SentInTurn(filters, a[1..], b);
    }
  }

  /** The messages for the given sections have been sent, and no others. */
  ghost predicate Delivered(now: seq<Message>, was: seq<Message>, filters: seq<DmxFilter>, sections: seq<Bytes>) {
    now == was + SentAll(filters, sections)
  }

  lemma NoneDelivered(sent: seq<Message>, filters: seq<DmxFilter>)
    ensures Delivered(sent, sent, filters, [])
  {
    assert SentAll(filters, []) == [];
    assert sent + [] == sent;
  }

  lemma OneDelivered(now: seq<Message>, was: seq<Message>, filters: seq<DmxFilter>, data: Bytes)
    requires now == was + Sent(filters, data)
    ensures Delivered(now, was, filters, [data])
  {
    assert SentAll(filters, [data][1..]) == [];
    assert Sent(filters, data) + [] == Sent(filters, data);
  }

  lemma BothDelivered(c: seq<Message>, b: seq<Message>, a: seq<Message>, filters: seq<DmxFilter>, first: seq<Bytes>, more: seq<Bytes>)
    requires Delivered(b, a, filters, first) && Delivered(c, b, filters, more)
    ensures Delivered(c, a, filters, first + more)
  {
    hide SentAll;
    SentInTurn(filters, first, more);
    InOneGo(a, SentAll(filters, first), SentAll(filters, more));
  }

  lemma IsDelivered(now: seq<Message>, was: seq<Message>, filters: seq<DmxFilter>, sections: seq<Bytes>)
    requires Delivered(now, was, filters, sections)
    ensures now == was + SentAll(filters, sections)
  {
  }

  /** After i of the packets, with the given sections out, the rest of the packets
      leads where all of them lead. */
  ghost predicate Rest(section0: Bytes, lastcc0: int, ps: seq<Packet>, given: seq<Bytes>, section: Bytes, lastcc: int, i: nat) {
    && Incomplete(section0) && Incomplete(section) && i <= |ps|
    && var all, rest := FeedAll(section0, lastcc0, ps), FeedAll(section, lastcc, ps[i..]);
       all.done == given + rest.done && all.section == rest.section
  }

  lemma RestNext(section0: Bytes, lastcc0: int, ps: seq<Packet>, given: seq<Bytes>, section: Bytes, lastcc: int, i: nat)
    requires Rest(section0, lastcc0, ps, given, section, lastcc, i) && i < |ps|
    ensures var f := Feed(section, lastcc, ps[i]); Rest(section0, lastcc0, ps, given + f.done, f.section, f.lastcc, i + 1)
  {
    hide Feed, Incomplete;
    var f := Feed(section, lastcc, ps[i]);
    assert ps[i..][0] == ps[i] && ps[i..][1..] == ps[i + 1..];
    var rest := FeedAll(f.section, f.lastcc, ps[i + 1..]);
    assert given + (f.done + rest.done) == (given + f.done) + rest.done;
  }

  lemma RestEnds(section0: Bytes, lastcc0: int, ps: seq<Packet>, given: seq<Bytes>, section: Bytes, lastcc: int)
    requires Rest(section0, lastcc0, ps, given, section, lastcc, |ps|)
    ensures var all := FeedAll(section0, lastcc0, ps); all.done == given && all.section == section
  {
    hide Incomplete;
    assert ps[|ps|..] == [];
  }

  /** No two filters have the same demux and number. */
  ghost predicate NoTwins(filters: seq<DmxFilter>) {
    forall i, j :: 0 <= i < j < |filters| ==> filters[i].demux != filters[j].demux || filters[i].num != filters[j].num
  }

  class DvbapiFilter {
    var pidmap: map<(int, int), PidFilters>
    /** What has been sent to the socket. */
    var sent: seq<Message>

    ghost predicate Valid()
      reads this
    {
      forall key :: key in pidmap ==> Safe(pidmap[key]) && pidmap[key].filters != [] && NoTwins(pidmap[key].filters)
    }

    constructor ()
      ensures Valid() && pidmap == map[] && sent == []
    {
      pidmap, sent := map[], [];
    }

    method StopAllFilters()
      modifies this
      ensures Valid() && pidmap == map[] && sent == old(sent)
    {
      pidmap := map[];
    }

    /** Where the filter with the given demux and number is, or how many there are. */
    static method Find(flt: seq<DmxFilter>, demux: int, num: int) returns (i: nat)
      ensures i <= |flt| && forall k :: 0 <= k < i ==> flt[k].demux != demux || flt[k].num != num
      ensures i < |flt| ==> flt[i].demux == demux && flt[i].num == num
    {
      i := 0;
      while i < |flt| && !(flt[i].demux == demux && flt[i].num == num)
        invariant i <= |flt| && forall k :: 0 <= k < i ==> flt[k].demux != demux || flt[k].num != num
      {
        i := i + 1;
      }
    }

    /** Adds or replaces a filter (start 1), or removes it (start 0); the section
        being assembled and the other filters stay. The descrambler, if there is one,
        is told the PID of filter 1, which is that of the ECMs. */
    method SetFilter(adapter: int, pid: int, start: int, demux: int, num: int, request: Request, decsa: bool)
      returns (told: seq<(int, int, int)>)
      requires Valid()
      modifies this`pidmap
      ensures told == if 0 <= pid < MAX_CSA_PID && decsa && num == 1 then [(adapter, demux, pid)] else []
      ensures Valid() && sent == old(sent)
      ensures pidmap - {(adapter, pid)} == old(pidmap) - {(adapter, pid)}
      ensures !(0 <= pid < MAX_CSA_PID) || (start != 0 && !(start == 1 && request.Request?)) ==> pidmap == old(pidmap)
      ensures var key, was, now := (adapter, pid), old(pidmap), pidmap;
              0 <= pid < MAX_CSA_PID && start == 1 && request.Request? ==>
                && key in now && now[key].filters == WithFilter(if key in was then was[key].filters else [], demux, num, request)
                && (key in was ==> now[key] == was[key].(filters := now[key].filters))
                && (key !in was ==> now[key].section == [] && now[key].sectionLen == 0 && now[key].lastcc == -1)
      ensures var key, was, now := (adapter, pid), old(pidmap), pidmap;
              0 <= pid < MAX_CSA_PID && start == 0 && key in was ==>
                && var left := WithoutFilter(was[key].filters, demux, num);
                   if left == [] then key !in now else key in now && now[key] == was[key].(filters := left)
      ensures start == 0 && (adapter, pid) !in old(pidmap) ==> pidmap == old(pidmap)
    {
      hide NoTwins, WithFilter, WithoutFilter, Safe;
      told := [];
      if 0 <= pid < MAX_CSA_PID {
        if decsa && num == 1 {
          told := [(adapter, demux, pid)];
        }
        var key := (adapter, pid);
        if start == 1 && request.Request? {
          NewIsSafe();
          var pf := if key in pidmap then pidmap[key] else PidFilters([], [], 0, -1);
          var flt := Add(pf.filters, demux, num, request);
          pidmap := pidmap[key := pf.(filters := flt)];
          SameAssembly(pf, flt);
        } else if start == 0 {
          if key in pidmap {
            var pf := pidmap[key];
            var flt := Remove(pf.filters, demux, num);
            SameAssembly(pf, flt);
            if flt == [] {
              pidmap := pidmap - {key};
            } else {
              pidmap := pidmap[key := pf.(filters := flt)];
            }
          }
        }
      }
    }

    /** Replaces the filter with the given demux and number, or adds one. */
    static method Add(flt: seq<DmxFilter>, demux: int, num: int, request: Request) returns (now: seq<DmxFilter>)
      requires request.Request? && NoTwins(flt)
      ensures now == WithFilter(flt, demux, num, request) && now != [] && NoTwins(now)
    {
      var i := Find(flt, demux, num);
      var filter := Masked(request.filter, request.mask);
      WithFilterAt(flt, demux, num, request, i);
      if i == |flt| {
        now := flt + [DmxFilter(demux, num, filter, request.mask)];
      } else {
        now := flt[i := DmxFilter(demux, num, filter, request.mask)];
      }
    }

    static method Remove(flt: seq<DmxFilter>, demux: int, num: int) returns (now: seq<DmxFilter>)
      requires NoTwins(flt)
      ensures now == WithoutFilter(flt, demux, num) && NoTwins(now)
    {
      var i := Find(flt, demux, num);
      WithoutFilterAt(flt, demux, num, i);
      if i < |flt| {
        StillNoTwins(flt, i);
      }
      now := if i < |flt| then flt[..i] + flt[i + 1..] else flt;
    }

    /** Sends the section to every filter that matches. */
    method Deliver(pf: PidFilters, data: Bytes)
      modifies this`sent
      ensures sent == old(sent) + Sent(pf.filters, data)
    {
      hide Matches;
      for it := 0 to |pf.filters|
        invariant sent == old(sent) + Sent(pf.filters[..it], data)
      {
        var f := pf.filters[it];
        var i := Compare(f, data);
        assert pf.filters[..it + 1][..it] == pf.filters[..it];
        if i == DMX_FILTER_SIZE {
          sent := sent + [Message(f.demux, f.num, data)];
        }
      }
      assert pf.filters[..|pf.filters|] == pf.filters;
    }

    /** Compares one byte of the section. */
    static method CompareByte(f: DmxFilter, data: Bytes, i: nat) returns (same: bool)
      requires i < DMX_FILTER_SIZE
      ensures same <==> ByteMatches(f, data, i)
    {
      var pos := if i > 0 then i + 2 else 0;
      var b := if pos < |data| then data[pos] else 0;
      same := b & f.mask[i] == f.filter[i];
    }

    /** The first byte that does not match. */
    static method Compare(f: DmxFilter, data: Bytes) returns (i: nat)
      ensures i <= DMX_FILTER_SIZE && (i == DMX_FILTER_SIZE <==> Matches(f, data))
    {
      hide ByteMatches;
      i := 0;
      while i < DMX_FILTER_SIZE
        invariant i <= DMX_FILTER_SIZE && forall k :: 0 <= k < i ==> ByteMatches(f, data, k)
      {
        var same := CompareByte(f, data, i);
        if !same {
          break;
        }
        i := i + 1;
      }
    }

    /** Adds bytes to the section being assembled, and delivers it when it is complete. */
    method Collect(pf: PidFilters, data: Bytes) returns (now: PidFilters)
      requires Safe(pf)
      modifies this`sent
      ensures Safe(now) && now.filters == pf.filters && now.lastcc == pf.lastcc
      ensures now.section == Join(pf.section, data).section
      ensures Delivered(sent, old(sent), pf.filters, Join(pf.section, data).done)
    {
      hide Matches, SectionLength, Sent, Delivered;
      now := pf;
      var len := |data|;
      if now.sectionLen != 0 {
        len := if len < now.sectionLen - |now.section| then len else now.sectionLen - |now.section|;
      }
      now := now.(section := now.section + data[..len]);
      ghost var all := pf.section + data;
      assert data[..|data|] == data && all[..|all|] == all;
      JoinLimited(pf, data);
      SafeIsIncomplete(pf);
      hide Join;
      if now.sectionLen == 0 && |now.section| >= 3 {
        now := now.(sectionLen := SectionLength(now.section));
        if |now.section| > now.sectionLen {
          now := now.(section := now.section[..now.sectionLen]);
        }
      }
      NoneDelivered(sent, pf.filters);
      if now.sectionLen != 0 && |now.section| == now.sectionLen {
        Deliver(now, now.section);
        OneDelivered(sent, old(sent), pf.filters, now.section);
        now := now.(section := [], sectionLen := 0);
      }
    }

    /** Takes one packet of the adapter. */
    method Analyze(adapter: int, data: Packet)
      requires Valid()
      modifies this
      ensures Valid()
      ensures var key, was := (adapter, Pid(data)), old(pidmap);
              if Pid(data) >= MAX_CSA_PID || Pid(data) == 0 || key !in was then pidmap == was && sent == old(sent)
              else
                var f := Feed(was[key].section, was[key].lastcc, data);
                && key in pidmap && pidmap - {key} == was - {key} && pidmap[key].filters == was[key].filters
                && pidmap[key].section == f.section && pidmap[key].lastcc == f.lastcc
                && Delivered(sent, old(sent), was[key].filters, f.done)
    {
      hide Join, Cut, Delivered;
      var pid := Pid(data);
      if pid >= MAX_CSA_PID || pid == 0 {
        return;
      }
      var key := (adapter, pid);
      if key !in pidmap {
        return;
      }
      var pf := pidmap[key];
      SafeIsIncomplete(pf);
      NoneDelivered(sent, pf.filters);
      var afc := Afc(data);
      if afc % 2 == 0 {
        return;
      }
      var offset := 4;
      if afc / 2 == 1 {
        offset := offset + 1 + data[4] as int;
      }
      if offset >= 188 {
        return;
      }
      pf := Assemble(pf, data, data[offset..]);
      pidmap := pidmap[key := pf];
    }

    /** What the receiving thread does with the packets of one PID, one call each. */
    method AnalyzeAll(adapter: int, pid: int, ps: seq<Packet>, ghost sections: seq<Bytes>)
      requires Valid() && 0 < pid < MAX_CSA_PID && (adapter, pid) in pidmap
      requires forall i :: 0 <= i < |ps| ==> Pid(ps[i]) == pid
      modifies this
      ensures Valid() && (adapter, pid) in pidmap
      ensures pidmap - {(adapter, pid)} == old(pidmap - {(adapter, pid)})
      ensures pidmap[(adapter, pid)].filters == old(pidmap[(adapter, pid)].filters)
      ensures var was := old(pidmap[(adapter, pid)]);
              && Incomplete(was.section)
              && Delivered(sent, old(sent), was.filters, FeedAll(was.section, was.lastcc, ps).done)
      ensures var was := old(pidmap[(adapter, pid)]);
              was.section == [] && AllWhole(sections) && Legal(ps, [], was.lastcc, sections) ==>
                sent == old(sent) + SentAll(was.filters, sections) && pidmap[(adapter, pid)].section == []
    {
      var key := (adapter, pid);
      ghost var was := pidmap[key];
      SafeIsIncomplete(was);
      ghost var given: seq<Bytes> := [];
      NoneDelivered(sent, was.filters);
      assert ps[0..] == ps;
      hide Feed, Delivered, Safe, Incomplete, Legal, NoTwins;
      for i := 0 to |ps|
        invariant Valid() && key in pidmap && Incomplete(pidmap[key].section) && pidmap[key].filters == was.filters
        invariant pidmap - {key} == old(pidmap) - {key}
        invariant Delivered(sent, old(sent), was.filters, given)
        invariant Rest(was.section, was.lastcc, ps, given, pidmap[key].section, pidmap[key].lastcc, i)
      {
        ghost var pf, middle := pidmap[key], sent;
        Analyze(adapter, ps[i]);
        SafeIsIncomplete(pidmap[key]);
        ghost var f := Feed(pf.section, pf.lastcc, ps[i]);
        BothDelivered(sent, middle, old(sent), was.filters, given, f.done);
        RestNext(was.section, was.lastcc, ps, given, pf.section, pf.lastcc, i);
        given := given + f.done;
      }
      RestEnds(was.section, was.lastcc, ps, given, pidmap[key].section, pidmap[key].lastcc);
      if was.section == [] && AllWhole(sections) && Legal(ps, [], was.lastcc, sections) {
        DeliversAll(ps, [], was.lastcc, sections);
        IsDelivered(sent, old(sent), was.filters, sections);
      }
    }

    /** Takes the payload of a packet. */
    method Assemble(before: PidFilters, data: Packet, payload: Bytes) returns (pf: PidFilters)
      requires Safe(before) && HasPayload(data) && payload == Payload(data) && Incomplete(before.section)
      modifies this`sent
      ensures Safe(pf) && pf.filters == before.filters
      ensures var f := Feed(before.section, before.lastcc, data);
              pf.section == f.section && pf.lastcc == f.lastcc && Delivered(sent, old(sent), before.filters, f.done)
    {
      hide Join, Cut, HasPayload, Pusi, Cc, Delivered;
      pf := before;
      var cc := Cc(data);
      var continuous := pf.lastcc >= 0 && cc == (pf.lastcc + 1) % 16;
      pf := pf.(lastcc := cc);
      NoneDelivered(sent, pf.filters);
      if !Pusi(data) {
        if continuous && pf.section != [] {
          pf := Collect(pf, payload);
        } else {
          pf := pf.(section := [], sectionLen := 0);
        }
        return;
      }
      pf := StartSections(pf, data, payload, continuous);
    }

    /** The pointer field, the end of the started section, and the sections that start. */
    method StartSections(before: PidFilters, ghost data: Packet, payload: Bytes, continuous: bool) returns (pf: PidFilters)
      requires Safe(before) && HasPayload(data) && payload == Payload(data) && Pusi(data) && Incomplete(before.section)
      modifies this`sent
      ensures Safe(pf) && pf.filters == before.filters && pf.lastcc == before.lastcc
      ensures var f := Restart(before.section, continuous && before.section != [], data);
              pf.section == f.section && Delivered(sent, old(sent), before.filters, f.done)
    {
      hide *;
      pf := before;
      NoneDelivered(sent, pf.filters);
      RestartIs(pf.section, continuous && pf.section != [], data);
      var pointer, p, n := PointerField(payload), 1, |payload| - 1;
      if pointer > n {
        pf := pf.(section := [], sectionLen := 0);
        NothingHeld(pf);
        return;
      }
      ghost var first: seq<Bytes> := [];
      if continuous && pf.section != [] {
        first := Join(pf.section, payload[1..1 + pointer]).done;
        pf := Collect(pf, payload[p..p + pointer]);
      }
      pf := pf.(section := [], sectionLen := 0);
      p, n := p + pointer, n - pointer;
      ghost var middle := sent;
      pf := CutSections(pf, payload[p..]);
      BothDelivered(sent, middle, old(sent), pf.filters, first, Cut(payload[p..]).done);
    }

    /** The sections that start in the packet. */
    method CutSections(before: PidFilters, body: Bytes) returns (pf: PidFilters)
      requires before.section == [] && before.sectionLen == 0
      modifies this`sent
      ensures Safe(pf) && pf.filters == before.filters && pf.lastcc == before.lastcc
      ensures pf.section == Cut(body).section && Delivered(sent, old(sent), before.filters, Cut(body).done)
    {
      hide Cut, Join, Delivered, SectionLength, Incomplete, Sent, Safe, SentAll, Matches;
      pf := before;
      NothingHeld(pf);
      var p, n := 0, |body|;
      ghost var given: seq<Bytes> := [];
      NoneDelivered(sent, pf.filters);
      assert body[0..] == body && [] + Cut(body).done == Cut(body).done;
      while n > 0 && body[p] != STUFFING
        invariant 0 <= p <= |body| && n == |body| - p && pf == before
        invariant Delivered(sent, old(sent), before.filters, given)
        invariant Cut(body).done == given + Cut(body[p..]).done && Cut(body).section == Cut(body[p..]).section
        decreases n
      {
        ghost var middle := sent;
        if n < 3 {
          CutIncomplete(body[p..]);
          pf := Collect(pf, body[p..]);
          BothDelivered(sent, middle, old(sent), pf.filters, given, Cut(body[p..]).done);
          return;
        }
        var seclen := SectionLength(body[p..]);
        if seclen > n {
          CutIncomplete(body[p..]);
          pf := Collect(pf, body[p..]);
          BothDelivered(sent, middle, old(sent), pf.filters, given, Cut(body[p..]).done);
          return;
        }
        CutFirst(body, p);
        Deliver(pf, body[p..p + seclen]);
        OneDelivered(sent, middle, pf.filters, body[p..p + seclen]);
        BothDelivered(sent, middle, old(sent), pf.filters, given, [body[p..p + seclen]]);
        given := given + [body[p..p + seclen]];
        p, n := p + seclen, n - seclen;
      }
      CutStops(body[p..]);
      assert given + [] == given;
    }
  }

  /** Adaptation field control: bit 0 for a payload, bit 1 for an adaptation field. */
  function Afc(p: Packet): (afc: int)
    ensures 0 <= afc < 4
    ensures afc % 2 == 1 <==> p[3] & 0x10 != 0
    ensures afc / 2 == 1 <==> p[3] & 0x20 != 0
  {
    ((p[3] >> 4) & 0x03) as int
  }

  lemma RestartIs(section: Bytes, goesOn: bool, p: Packet)
    requires HasPayload(p) && Pusi(p) && Incomplete(section)
    ensures var d := Payload(p);
            var n := PointerField(d);
            Restart(section, goesOn, p)
            == if n > |d| - 1 then Fed([], 0, [])
               else
                 var rest := Cut(d[1 + n..]);
                 Fed(rest.section, 0, (if goesOn then Join(section, d[1..1 + n]).done else []) + rest.done)
  {
    hide Join, Cut;
    var d := Payload(p);
    var n := PointerField(d);
    if n <= |d| - 1 {
      assert d[1..][..n] == d[1..1 + n] && d[1..][n..] == d[1 + n..];
    }
  }

  lemma CutStops(body: Bytes)
    requires body == [] || body[0] == STUFFING
    ensures Cut(body) == Fed([], 0, [])
  {
  }

  lemma CutIncomplete(body: Bytes)
    requires body != [] && body[0] != STUFFING && (|body| < 3 || |body| < SectionLength(body))
    ensures Cut(body).section == Join([], body).section && Cut(body).done == Join([], body).done
  {
    assert [] + body == body;
  }

  lemma CutFirst(body: Bytes, p: nat)
    requires p + 3 <= |body| && body[p] != STUFFING && p + SectionLength(body[p..]) <= |body|
    ensures var n := SectionLength(body[p..]);
            && Cut(body[p..]).done == [body[p..p + n]] + Cut(body[p + n..]).done
            && Cut(body[p..]).section == Cut(body[p + n..]).section
  {
    hide SectionLength;
    var n := SectionLength(body[p..]);
    assert body[p..][n..] == body[p + n..] && body[p..][..n] == body[p..p + n];
  }

  /** The bytes of a filter whose mask bits are 0 are cleared. */
  method Masked(filter: Pattern, mask: Pattern) returns (r: Pattern)
    ensures forall i :: 0 <= i < DMX_FILTER_SIZE ==> r[i] == filter[i] & mask[i]
    ensures r == MaskedBy(filter, mask)
  {
    r := filter;
    for i := 0 to DMX_FILTER_SIZE
      invariant forall k :: 0 <= k < DMX_FILTER_SIZE ==> r[k] == if k < i then filter[k] & mask[k] else filter[k]
    {
      r := r[i := r[i] & mask[i]];
    }
  }

  function MaskedBy(filter: Pattern, mask: Pattern): Pattern {
    seq(DMX_FILTER_SIZE, i requires 0 <= i < DMX_FILTER_SIZE => filter[i] & mask[i])
  }

  /** The filter takes the place of the one it replaces, or the last one. */
  function WithFilter(flt: seq<DmxFilter>, demux: int, num: int, request: Request): seq<DmxFilter>
    requires request.Request?
  {
    var f := DmxFilter(demux, num, MaskedBy(request.filter, request.mask), request.mask);
    if flt == [] then [f]
    else if flt[0].demux == demux && flt[0].num == num then [f] + flt[1..]
    else [flt[0]] + WithFilter(flt[1..], demux, num, request)
  }

  function WithoutFilter(flt: seq<DmxFilter>, demux: int, num: int): seq<DmxFilter> {
    if flt == [] then []
    else if flt[0].demux == demux && flt[0].num == num then WithoutFilter(flt[1..], demux, num)
    else [flt[0]] + WithoutFilter(flt[1..], demux, num)
  }

  lemma {:induction false} WithFilterAt(flt: seq<DmxFilter>, demux: int, num: int, request: Request, i: nat)
    requires request.Request? && NoTwins(flt) && i <= |flt|
    requires forall k :: 0 <= k < i ==> flt[k].demux != demux || flt[k].num != num
    requires i < |flt| ==> flt[i].demux == demux && flt[i].num == num
    ensures var f := DmxFilter(demux, num, MaskedBy(request.filter, request.mask), request.mask);
            WithFilter(flt, demux, num, request) == if i == |flt| then flt + [f] else flt[i := f]
    ensures WithFilter(flt, demux, num, request) != [] && NoTwins(WithFilter(flt, demux, num, request))
  {
    hide MaskedBy, WithFilter, NoTwins;
    FilterGoes(flt, demux, num, request, i);
    var f := DmxFilter(demux, num, MaskedBy(request.filter, request.mask), request.mask);
    if i < |flt| {
      ChangedNoTwins(flt, i, f);
    } else {
      AddedNoTwins(flt, f);
    }
  }

  lemma {:induction false} FilterGoes(flt: seq<DmxFilter>, demux: int, num: int, request: Request, i: nat)
    requires request.Request? && i <= |flt|
    requires forall k :: 0 <= k < i ==> flt[k].demux != demux || flt[k].num != num
    requires i < |flt| ==> flt[i].demux == demux && flt[i].num == num
    ensures var f := DmxFilter(demux, num, MaskedBy(request.filter, request.mask), request.mask);
            WithFilter(flt, demux, num, request) == if i == |flt| then flt + [f] else flt[i := f]
    decreases i
  {
    hide MaskedBy;
    if i > 0 {
      FilterGoes(flt[1..], demux, num, request, i - 1);
      assert flt == [flt[0]] + flt[1..];
    }
  }

  lemma ChangedNoTwins(flt: seq<DmxFilter>, i: nat, f: DmxFilter)
    requires NoTwins(flt) && i < |flt| && flt[i].demux == f.demux && flt[i].num == f.num
    ensures NoTwins(flt[i := f])
  {
  }

  lemma AddedNoTwins(flt: seq<DmxFilter>, f: DmxFilter)
    requires NoTwins(flt) && forall k :: 0 <= k < |flt| ==> flt[k].demux != f.demux || flt[k].num != f.num
    ensures NoTwins(flt + [f])
  {
  }

  lemma {:induction false} NothingToRemove(flt: seq<DmxFilter>, demux: int, num: int)
    requires forall k :: 0 <= k < |flt| ==> flt[k].demux != demux || flt[k].num != num
    ensures WithoutFilter(flt, demux, num) == flt
  {
    if flt != [] {
      NothingToRemove(flt[1..], demux, num);
    }
  }

  lemma {:induction false} WithoutFilterAt(flt: seq<DmxFilter>, demux: int, num: int, i: nat)
    requires NoTwins(flt) && i <= |flt|
    requires forall k :: 0 <= k < i ==> flt[k].demux != demux || flt[k].num != num
    requires i < |flt| ==> flt[i].demux == demux && flt[i].num == num
    ensures WithoutFilter(flt, demux, num) == if i == |flt| then flt else flt[..i] + flt[i + 1..]
    decreases |flt|
  {
    if i == |flt| {
      NothingToRemove(flt, demux, num);
    } else if i == 0 {
      forall k | 0 <= k < |flt| - 1 ensures flt[1..][k].demux != demux || flt[1..][k].num != num {
        assert flt[1..][k] == flt[k + 1];
      }
      NothingToRemove(flt[1..], demux, num);
    } else {
      WithoutFilterAt(flt[1..], demux, num, i - 1);
      assert flt[..i] + flt[i + 1..] == [flt[0]] + (flt[1..][..i - 1] + flt[1..][i..]);
    }
  }

  lemma StillNoTwins(flt: seq<DmxFilter>, i: nat)
    requires NoTwins(flt) && i < |flt|
    ensures NoTwins(flt[..i] + flt[i + 1..])
  {
    var r := flt[..i] + flt[i + 1..];
    forall a, b | 0 <= a < b < |r| ensures r[a].demux != r[b].demux || r[a].num != r[b].num {
      assert r[a] == flt[if a < i then a else a + 1] && r[b] == flt[if b < i then b else b + 1];
    }
  }

  lemma NothingHeld(pf: PidFilters)
    ensures pf.section == [] && pf.sectionLen == 0 ==> Safe(pf)
  {
  }

  lemma NewIsSafe()
    ensures Safe(PidFilters([], [], 0, -1)) && NoTwins([])
  {
  }

  lemma SameAssembly(pf: PidFilters, flt: seq<DmxFilter>)
    requires Safe(pf)
    ensures Safe(pf.(filters := flt))
  {
  }

  /** What the code's limit on the bytes taken means for the section. */
  lemma JoinLimited(pf: PidFilters, data: Bytes)
    requires Safe(pf)
    ensures var all := pf.section + data;
            if pf.sectionLen == 0 then
              if |all| < 3 || |all| < SectionLength(all) then Join(pf.section, data) == Fed(all, 0, [])
              else Join(pf.section, data) == Fed([], 0, [all[..SectionLength(all)]])
            else if |all| < pf.sectionLen then
              Join(pf.section, data) == Fed(all, 0, []) && SectionLength(all) == pf.sectionLen
            else
              Join(pf.section, data) == Fed([], 0, [pf.section + data[..pf.sectionLen - |pf.section|]])
  {
    var all := pf.section + data;
    if pf.sectionLen != 0 {
      SamePrefix(pf.section, all);
      if |all| >= pf.sectionLen {
        assert all[..pf.sectionLen] == pf.section + data[..pf.sectionLen - |pf.section|];
      }
    }
  }
}
