/** A packetization for every list of sections: each section starts a packet of
    its own, and stuffing follows its end. */
module Packetizer {
  import opened TsPacket
  import opened Sections

  /** The fourth byte of a packet with a payload and no adaptation field. */
  function CounterByte(cc: nat): (b: bv8)
    requires cc < 16
    ensures b & 0x10 != 0 && b & 0x20 == 0 && b as int % 16 == cc
  {
    match cc
    case 0 => 0x10 case 1 => 0x11 case 2 => 0x12 case 3 => 0x13
    case 4 => 0x14 case 5 => 0x15 case 6 => 0x16 case 7 => 0x17
    case 8 => 0x18 case 9 => 0x19 case 10 => 0x1a case 11 => 0x1b
    case 12 => 0x1c case 13 => 0x1d case 14 => 0x1e case _ => 0x1f
  }

  /** A packet with a full payload; hi and lo are the PID. */
  function Wrap(hi: bv8, lo: bv8, pusi: bool, cc: nat, d: Bytes): (p: Packet)
    requires cc < 16 && |d| == 184 && hi & 0xe0 == 0
    ensures HasPayload(p) && Payload(p) == d && Pusi(p) == pusi && Cc(p) == cc
  {
    assert hi & 0x40 == 0 && (hi | 0x40) & 0x40 != 0;
    var p := [TS_SYNC_BYTE, if pusi then hi | 0x40 else hi, lo, CounterByte(cc)] + d;
    assert p[4..] == d;
    p
  }

  function Stuffed(d: Bytes): (r: Bytes)
    requires |d| <= 184
    ensures |r| == 184 && d <= r && AllStuffing(r[|d|..])
  {
    d + seq(184 - |d|, _ => STUFFING)
  }

  function Next(cc: nat): (n: nat)
    requires cc < 16
    ensures n < 16 && Follows(n, cc)
  {
    if cc == 15 then 0 else cc + 1
  }

  /** Packets, and the continuity counter of the last one. */
  datatype Coded = Coded(ps: seq<Packet>, last: nat)

  /** The packets after the one with counter last, while the bytes of the section
      from i on are left. */
  function Continue(hi: bv8, lo: bv8, last: nat, s: Bytes, i: nat): (c: Coded)
    requires last < 16 && hi & 0xe0 == 0 && i <= |s|
    ensures c.last < 16
    decreases |s| - i
  {
    var cc := Next(last);
    if i == |s| then Coded([], last)
    else if |s| - i <= 184 then Coded([Wrap(hi, lo, false, cc, Stuffed(s[i..]))], cc)
    else
      var rest := Continue(hi, lo, cc, s, i + 184);
      Coded([Wrap(hi, lo, false, cc, s[i..i + 184])] + rest.ps, rest.last)
  }

  function PacketsOf(hi: bv8, lo: bv8, last: nat, s: Bytes): (c: Coded)
    requires last < 16 && hi & 0xe0 == 0
    ensures c.last < 16
  {
    var cc := Next(last);
    if |s| <= 183 then Coded([Wrap(hi, lo, true, cc, Stuffed([0] + s))], cc)
    else
      var rest := Continue(hi, lo, cc, s, 183);
      Coded([Wrap(hi, lo, true, cc, [0] + s[..183])] + rest.ps, rest.last)
  }

  function Packetize(hi: bv8, lo: bv8, last: nat, sections: seq<Bytes>): seq<Packet>
    requires last < 16 && hi & 0xe0 == 0
    decreases |sections|
  {
    if sections == [] then []
    else
      var c := PacketsOf(hi, lo, last, sections[0]);
      c.ps + Packetize(hi, lo, c.last, sections[1..])
  }

  lemma LegalStep(p: Packet, ps: seq<Packet>, section: Bytes, last: int, sections: seq<Bytes>, f: Filled)
    requires HasPayload(p) && f.legal
    requires f == LegalPacket(Payload(p), Pusi(p), Follows(Cc(p), last), section, sections)
    requires Legal(ps, f.section, Cc(p), f.left)
    ensures Legal([p] + ps, section, last, sections)
  {
    hide LegalPacket, HasPayload, Payload, Pusi, Follows, Cc;
    assert ([p] + ps)[1..] == ps;
  }

  /** The last packet of a section, or one in its middle. */
  lemma MiddlePacket(d: Bytes, s: Bytes, i: nat, sections: seq<Bytes>)
    requires |d| == 184 && 0 < i < |s| && sections != [] && sections[0] == s
    ensures |s| - i <= 184 && d == Stuffed(s[i..]) ==>
              LegalPacket(d, false, true, s[..i], sections) == Filled(true, [], sections[1..])
    ensures |s| - i > 184 && d == s[i..i + 184] ==>
              LegalPacket(d, false, true, s[..i], sections) == Filled(true, s[..i + 184], sections)
  {
    assert s[..i] < s && s[|s[..i]|..] == s[i..];
    if |s| - i > 184 && d == s[i..i + 184] {
      assert s[..i] + d == s[..i + 184] && d <= s[i..];
    }
  }

  lemma {:induction false} ContinueLegal(hi: bv8, lo: bv8, last: nat, s: Bytes, i: nat, sections: seq<Bytes>, more: seq<Packet>)
    requires last < 16 && hi & 0xe0 == 0 && 0 < i < |s| && sections != [] && sections[0] == s
    requires Legal(more, [], Continue(hi, lo, last, s, i).last, sections[1..])
    ensures Legal(Continue(hi, lo, last, s, i).ps + more, s[..i], last, sections)
    decreases |s| - i
  {
    hide Wrap, HasPayload, Payload, Pusi, Cc, Follows, LegalPacket, Legal, Stuffed;
    var cc, c := Next(last), Continue(hi, lo, last, s, i);
    var rest: seq<Packet> := c.ps[1..];
    assert c.ps + more == [c.ps[0]] + (rest + more);
    if |s| - i > 184 {
      ContinueLegal(hi, lo, cc, s, i + 184, sections, more);
      assert rest == Continue(hi, lo, cc, s, i + 184).ps;
      MiddlePacket(s[i..i + 184], s, i, sections);
      LegalStep(c.ps[0], rest + more, s[..i], last, sections, Filled(true, s[..i + 184], sections));
    } else {
      MiddlePacket(Stuffed(s[i..]), s, i, sections);
      assert rest + more == more;
      LegalStep(c.ps[0], more, s[..i], last, sections, Filled(true, [], sections[1..]));
    }
  }

  lemma OnlyStuffing(body: Bytes, sections: seq<Bytes>)
    requires AllStuffing(body)
    ensures Fill(body, sections) == Filled(true, [], sections)
  {
  }

  /** The first packet of a section. */
  lemma FirstPacket(d: Bytes, s: Bytes, sections: seq<Bytes>, follows: bool)
    requires |d| == 184 && WholeSection(s) && sections != [] && sections[0] == s
    ensures |s| <= 183 && d == Stuffed([0] + s) ==> LegalPacket(d, true, follows, [], sections) == Filled(true, [], sections[1..])
    ensures |s| > 183 && d == [0] + s[..183] ==> LegalPacket(d, true, follows, [], sections) == Filled(true, s[..183], sections)
  {
    if |s| <= 183 && d == Stuffed([0] + s) {
      var body := d[1..];
      assert body == s + d[1 + |s|..] && body[|s|..] == d[|[0] + s|..];
      assert PointerField(d) == 0;
      OnlyStuffing(body[|s|..], sections[1..]);
    } else if |s| > 183 && d == [0] + s[..183] {
      assert d[1..] == s[..183];
    }
  }

  /** All the packets of a section, before legal ones. */
  lemma PacketsLegal(hi: bv8, lo: bv8, last: nat, sections: seq<Bytes>, more: seq<Packet>)
    requires last < 16 && hi & 0xe0 == 0 && sections != [] && WholeSection(sections[0])
    requires Legal(more, [], PacketsOf(hi, lo, last, sections[0]).last, sections[1..])
    ensures Legal(PacketsOf(hi, lo, last, sections[0]).ps + more, [], last, sections)
  {
    hide Wrap, HasPayload, Payload, Pusi, Cc, Follows, Legal, LegalPacket, Stuffed, Continue, WholeSection;
    var s, cc := sections[0], Next(last);
    if |s| <= 183 {
      var d := Stuffed([0] + s);
      FirstPacket(d, s, sections, Follows(cc, last));
      LegalStep(Wrap(hi, lo, true, cc, d), more, [], last, sections, Filled(true, [], sections[1..]));
    } else {
      var d := [0] + s[..183];
      FirstPacket(d, s, sections, Follows(cc, last));
      var first, rest: seq<Packet> := Wrap(hi, lo, true, cc, d), Continue(hi, lo, cc, s, 183).ps;
      ContinueLegal(hi, lo, cc, s, 183, sections, more);
      LegalStep(first, rest + more, [], last, sections, Filled(true, s[..183], sections));
      assert [first] + rest + more == [first] + (rest + more);
    }
  }

  /** The packets are a legal packetization. */
  lemma {:induction false} PacketizeIsLegal(hi: bv8, lo: bv8, last: nat, sections: seq<Bytes>)
    requires last < 16 && hi & 0xe0 == 0 && AllWhole(sections)
    ensures Legal(Packetize(hi, lo, last, sections), [], last, sections)
    decreases |sections|
  {
    hide PacketsOf, LegalPacket, WholeSection, HasPayload, Payload, Pusi, Cc, Follows;
    if sections != [] {
      var c := PacketsOf(hi, lo, last, sections[0]);
      PacketizeIsLegal(hi, lo, c.last, sections[1..]);
      PacketsLegal(hi, lo, last, sections, Packetize(hi, lo, c.last, sections[1..]));
    }
  }

  /** A table: its id, its flag bits and its body. */
  datatype Table = Table(id: bv8, flags: nat, body: Bytes)

  ghost predicate Writable(tables: seq<Table>) {
    forall k :: 0 <= k < |tables| ==> tables[k].id != 0xff && tables[k].flags < 16 && |tables[k].body| < 4096
  }

  function Written(tables: seq<Table>): (sections: seq<Bytes>)
    requires Writable(tables)
    ensures |sections| == |tables|
    ensures forall k :: 0 <= k < |tables| ==> sections[k] == SectionOf(tables[k].id, tables[k].flags, tables[k].body)
  {
    seq(|tables|, k requires 0 <= k < |tables| => SectionOf(tables[k].id, tables[k].flags, tables[k].body))
  }

  /** Tables of any ids, flags and lengths arrive byte by byte as they were written. */
  lemma TablesArrive(hi: bv8, lo: bv8, last: nat, tables: seq<Table>)
    requires last < 16 && hi & 0xe0 == 0 && Writable(tables)
    ensures FeedAll([], last, Packetize(hi, lo, last, Written(tables))).done == Written(tables)
  {
    hide Packetize, FeedAll, Legal, AllWhole, Writable, Written;
    TablesLegal(hi, lo, last, tables);
    RoundTrip(hi, lo, last, Written(tables));
  }

  /** Their packetization is legal, and all its packets have the PID asked for. */
  lemma TablesLegal(hi: bv8, lo: bv8, last: nat, tables: seq<Table>)
    requires last < 16 && hi & 0xe0 == 0 && Writable(tables)
    ensures var ps := Packetize(hi, lo, last, Written(tables));
            && AllWhole(Written(tables)) && Legal(ps, [], last, Written(tables))
            && forall i :: 0 <= i < |ps| ==> Pid(ps[i]) == hi as int * 256 + lo as int
  {
    hide Packetize, SectionOf, WholeSection, Legal, Pid;
    var sections := Written(tables);
    forall k | 0 <= k < |sections| ensures WholeSection(sections[k]) {
      CodedIsWhole(tables[k].id, tables[k].flags, tables[k].body, []);
    }
    PacketizeIsLegal(hi, lo, last, sections);
    PacketsOfPid(hi, lo, last, sections);
  }

  ghost predicate OfPid(ps: seq<Packet>, pid: int) { forall i :: 0 <= i < |ps| ==> Pid(ps[i]) == pid }

  lemma {:induction false} PacketsOfPid(hi: bv8, lo: bv8, last: nat, sections: seq<Bytes>)
    requires last < 16 && hi & 0xe0 == 0
    ensures OfPid(Packetize(hi, lo, last, sections), hi as int * 256 + lo as int)
    decreases |sections|
  {
    hide PacketsOf, OfPid;
    if sections != [] {
      var c := PacketsOf(hi, lo, last, sections[0]);
      SectionOfPid(hi, lo, last, sections[0]);
      PacketsOfPid(hi, lo, c.last, sections[1..]);
      BothOfPid(c.ps, Packetize(hi, lo, c.last, sections[1..]), hi as int * 256 + lo as int);
    } else {
      NoneOfPid(hi as int * 256 + lo as int);
    }
  }

  lemma NoneOfPid(pid: int)
    ensures OfPid([], pid)
  {
  }

  lemma BothOfPid(a: seq<Packet>, b: seq<Packet>, pid: int)
    requires OfPid(a, pid) && OfPid(b, pid)
    ensures OfPid(a + b, pid)
  {
    hide Pid;
  }

  lemma SectionOfPid(hi: bv8, lo: bv8, last: nat, s: Bytes)
    requires last < 16 && hi & 0xe0 == 0
    ensures OfPid(PacketsOf(hi, lo, last, s).ps, hi as int * 256 + lo as int)
  {
    hide Pid, Wrap, Continue, Stuffed;
    var cc := Next(last);
    if |s| <= 183 {
      WrapPid(hi, lo, true, cc, Stuffed([0] + s));
    } else {
      WrapPid(hi, lo, true, cc, [0] + s[..183]);
      ContinuePid(hi, lo, cc, s, 183);
    }
  }

  lemma {:induction false} ContinuePid(hi: bv8, lo: bv8, last: nat, s: Bytes, i: nat)
    requires last < 16 && hi & 0xe0 == 0 && i <= |s|
    ensures OfPid(Continue(hi, lo, last, s, i).ps, hi as int * 256 + lo as int)
    decreases |s| - i
  {
    hide Pid, Wrap, Stuffed;
    var cc := Next(last);
    if i < |s| && |s| - i <= 184 {
      WrapPid(hi, lo, false, cc, Stuffed(s[i..]));
    } else if i < |s| {
      WrapPid(hi, lo, false, cc, s[i..i + 184]);
      ContinuePid(hi, lo, cc, s, i + 184);
    }
  }

  lemma WrapPid(hi: bv8, lo: bv8, pusi: bool, cc: nat, d: Bytes)
    requires cc < 16 && |d| == 184 && hi & 0xe0 == 0
    ensures Pid(Wrap(hi, lo, pusi, cc, d)) == hi as int * 256 + lo as int
  {
    hide *;
    var p := Wrap(hi, lo, pusi, cc, d);
    WrapBytes(hi, lo, pusi, cc, d);
    UpperPid(hi);
    LowerPid(p[1] as int, hi as int, lo as int);
    PidIs(p);
  }

  lemma WrapBytes(hi: bv8, lo: bv8, pusi: bool, cc: nat, d: Bytes)
    requires cc < 16 && |d| == 184 && hi & 0xe0 == 0
    ensures var p := Wrap(hi, lo, pusi, cc, d); p[1] == (if pusi then hi | 0x40 else hi) && p[2] == lo
  {
    hide CounterByte, HasPayload, Pusi, Cc, Payload;
  }

  lemma PidIs(p: Packet)
    ensures Pid(p) == (p[1] as int * 256 + p[2] as int) % 0x2000
  {
  }

  lemma LowerPid(a: int, hi: int, lo: int)
    requires 0 <= hi < 32 && 0 <= lo < 256 && (a == hi || a == hi + 64)
    ensures (a * 256 + lo) % 0x2000 == hi * 256 + lo
  {
  }

  lemma UpperPid(hi: bv8)
    requires hi & 0xe0 == 0
    ensures hi as int < 32 && (hi | 0x40) as int == hi as int + 64
  {
  }

  /** Taking sections apart into packets and assembling them again gives the sections. */
  lemma RoundTrip(hi: bv8, lo: bv8, last: nat, sections: seq<Bytes>)
    requires last < 16 && hi & 0xe0 == 0 && AllWhole(sections)
    ensures FeedAll([], last, Packetize(hi, lo, last, sections)).done == sections
  {
    PacketizeIsLegal(hi, lo, last, sections);
    DeliversAll(Packetize(hi, lo, last, sections), [], last, sections);
  }
}
