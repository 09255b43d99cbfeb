/** Sections in transport packets (ISO/IEC 13818-1 sections 2.4.3 and 2.4.4):
    what one packet does to the section being assembled, and what that means for
    whole runs of packets. */
module Sections {
  import opened Bits
  import opened TsPacket

  type Bytes = seq<bv8>

  const STUFFING: bv8 := 0xff

  /** The whole length of a section, from the length field of its header. */
  function SectionLength(s: Bytes): (len: nat)
    requires |s| >= 3
    ensures 3 <= len <= 4098
  {
    3 + (s[1] & 0x0f) as int * 256 + s[2] as int
  }

  /** A started section that is not complete yet. */
  predicate Incomplete(s: Bytes) { |s| < 3 || |s| < SectionLength(s) }

  /** A section as the standard wants it, whose table id is not the stuffing byte. */
  predicate WholeSection(s: Bytes) { |s| >= 3 && SectionLength(s) == |s| && s[0] != STUFFING }

  predicate HasPayload(p: Packet) { p[3] & 0x10 != 0 && Offset(p) < 188 }

  function Payload(p: Packet): (d: Bytes)
    requires HasPayload(p)
    ensures 0 < |d| <= 184
  {
    p[Offset(p)..]
  }

  /** Payload unit start indicator and continuity counter. */
  predicate Pusi(p: Packet) { p[1] & 0x40 != 0 }

  function Cc(p: Packet): (cc: int)
    ensures 0 <= cc < 16
  {
    p[3] as int % 16
  }

  predicate Follows(cc: int, last: int) { last >= 0 && cc == (last + 1) % 16 }

  /** What the assembly holds, and the sections it has given out. */
  datatype Fed = Fed(section: Bytes, lastcc: int, done: seq<Bytes>)

  /** More bytes for the section: it is complete, or still is not. */
  function Join(section: Bytes, data: Bytes): (f: Fed)
    ensures Incomplete(f.section)
  {
    var all := section + data;
    if Incomplete(all) then Fed(all, 0, []) else Fed([], 0, [all[..SectionLength(all)]])
  }

  /** The sections that start in a packet, up to the stuffing. */
  function Cut(body: Bytes): (f: Fed)
    ensures Incomplete(f.section)
    decreases |body|
  {
    if body == [] || body[0] == STUFFING then Fed([], 0, [])
    else if Incomplete(body) then Fed(body, 0, [])
    else
      var rest := Cut(body[SectionLength(body)..]);
      Fed(rest.section, 0, [body[..SectionLength(body)]] + rest.done)
  }

  function PointerField(d: Bytes): nat
    requires |d| > 0
  {
    d[0] as int
  }

  /** A packet with the start of a section: the pointer field counts the bytes
      that end the started section, if that goes on. */
  function Restart(section: Bytes, goesOn: bool, p: Packet): (f: Fed)
    requires HasPayload(p) && Pusi(p) && Incomplete(section)
    ensures Incomplete(f.section)
  {
    var d := Payload(p);
    var pointer, body := PointerField(d), d[1..];
    if pointer > |body| then Fed([], 0, [])
    else
      var first := if goesOn then Join(section, body[..pointer]).done else [];
      var rest := Cut(body[pointer..]);
      Fed(rest.section, 0, first + rest.done)
  }

  /** One packet of the PID. */
  function Feed(section: Bytes, lastcc: int, p: Packet): (f: Fed)
    requires Incomplete(section)
    ensures Incomplete(f.section)
  {
    if !HasPayload(p) then Fed(section, lastcc, [])
    else
      var d, goesOn := Payload(p), Follows(Cc(p), lastcc) && section != [];
      if !Pusi(p) then
        if goesOn then Join(section, d).(lastcc := Cc(p)) else Fed([], Cc(p), [])
      else Restart(section, goesOn, p).(lastcc := Cc(p))
  }

  /** Packets one after the other. */
  function FeedAll(section: Bytes, lastcc: int, ps: seq<Packet>): (f: Fed)
    requires Incomplete(section)
    ensures Incomplete(f.section)
    decreases |ps|
  {
    if ps == [] then Fed(section, lastcc, [])
    else
      var f := Feed(section, lastcc, ps[0]);
      var rest := FeedAll(f.section, f.lastcc, ps[1..]);
      Fed(rest.section, rest.lastcc, f.done + rest.done)
  }

  // Every legal packetization is taken apart again.

  predicate AllStuffing(d: Bytes) { forall i :: 0 <= i < |d| ==> d[i] == STUFFING }

  datatype Filled = Filled(legal: bool, section: Bytes, left: seq<Bytes>)

  /** The body holds the next sections, the last one cut off by the end of the
      packet or followed by stuffing. */
  function Fill(body: Bytes, sections: seq<Bytes>): Filled
    decreases |sections|
  {
    if body == [] || body[0] == STUFFING then Filled(AllStuffing(body), [], sections)
    else if sections == [] then Filled(false, [], sections)
    else if |sections[0]| <= |body| then
      if sections[0] <= body then Fill(body[|sections[0]|..], sections[1..]) else Filled(false, [], sections)
    else Filled(body <= sections[0], body, sections)
  }

  /** The packets carry the sections, of the first of which the bytes in section
      have been sent, and nothing is left unsent. */
  ghost predicate Legal(ps: seq<Packet>, section: Bytes, lastcc: int, sections: seq<Bytes>)
    decreases |ps|
  {
    if ps == [] then section == [] && sections == []
    else if !HasPayload(ps[0]) then Legal(ps[1..], section, lastcc, sections)
    else LegalPacket(Payload(ps[0]), Pusi(ps[0]), Follows(Cc(ps[0]), lastcc), section, sections).legal
         && var f := LegalPacket(Payload(ps[0]), Pusi(ps[0]), Follows(Cc(ps[0]), lastcc), section, sections);
            Legal(ps[1..], f.section, Cc(ps[0]), f.left)
  }

  /** One packet with payload d: a started section goes on in the next packet;
      without a start of another section, stuffing fills up the packet; otherwise
      the pointer field counts the bytes before that start. */
  ghost function LegalPacket(d: Bytes, pusi: bool, follows: bool, section: Bytes, sections: seq<Bytes>): (f: Filled)
    requires |d| > 0
  {
    if section == [] && !pusi then Filled(AllStuffing(d), [], sections)
    else if section == [] then
      if PointerField(d) == 0 then Fill(d[1..], sections) else Filled(false, [], sections)
    else if !follows || sections == [] || !(section < sections[0]) then Filled(false, [], sections)
    else
      var rest := sections[0][|section|..];
      if pusi then
        if PointerField(d) == |rest| && rest <= d[1..] then Fill(d[1 + |rest|..], sections[1..]) else Filled(false, [], sections)
      else if |d| < |rest| then Filled(d <= rest, section + d, sections)
      else Filled(rest <= d && AllStuffing(d[|rest|..]), [], sections[1..])
  }

  ghost predicate AllWhole(sections: seq<Bytes>) { forall k :: 0 <= k < |sections| ==> WholeSection(sections[k]) }

  /** The length field is in the first three bytes. */
  lemma SamePrefix(a: Bytes, b: Bytes)
    requires 3 <= |a| && a <= b
    ensures SectionLength(a) == SectionLength(b)
  {
    assert a[1] == b[1] && a[2] == b[2];
  }

  lemma LengthIs(s: Bytes)
    requires |s| >= 3
    ensures SectionLength(s) == 3 + s[1] as int % 16 * 256 + s[2] as int
  {
    assert (s[1] & 0x0f) as int == s[1] as int % 16;
  }

  /** A section written out: table id, four flag bits and the upper four bits of
      the length, the lower eight bits of the length, the body. */
  function SectionOf(tableId: bv8, flags: nat, body: Bytes): (s: Bytes)
    requires flags < 16 && |body| < 4096
    ensures |s| == 3 + |body|
  {
    [tableId, ToByte(16 * flags + |body| / 256), ToByte(|body| % 256)] + body
  }

  /** What is written out like that is whole, wherever it ends, if its table id is
      not the stuffing byte. */
  lemma CodedIsWhole(tableId: bv8, flags: nat, body: Bytes, more: Bytes)
    requires flags < 16 && |body| < 4096
    ensures var s := SectionOf(tableId, flags, body);
            SectionLength(s) == SectionLength(s + more) == 3 + |body| && (WholeSection(s) <==> tableId != 0xff)
  {
    hide SectionLength;
    var s := SectionOf(tableId, flags, body);
    LengthIs(s);
    SamePrefix(s, s + more);
    LengthBytes(flags, |body|);
  }

  lemma LengthBytes(flags: nat, n: nat)
    requires flags < 16 && n < 4096
    ensures ToByte(16 * flags + n / 256) as int % 16 * 256 + ToByte(n % 256) as int == n
  {
    assert (16 * flags + n / 256) % 16 == n / 256;
  }

  /** And every whole section is written out like that. */
  lemma WholeIsCoded(s: Bytes)
    requires WholeSection(s)
    ensures s[0] != 0xff && |s| - 3 < 4096 && s == SectionOf(s[0], s[1] as int / 16, s[3..])
  {
    hide *;
    WholeParts(s);
    var b, n := s[1] as int, |s| - 3;
    HeaderBytes(b, s[2] as int, n);
    SameNumber(s[1], ToByte(16 * (b / 16) + n / 256));
    SameNumber(s[2], ToByte(n % 256));
    IsSectionOf(s, b / 16);
  }

  lemma WholeParts(s: Bytes)
    requires WholeSection(s)
    ensures s[0] != 0xff && |s| == 3 + s[1] as int % 16 * 256 + s[2] as int
  {
    hide SectionLength;
    LengthIs(s);
  }

  lemma IsSectionOf(s: Bytes, flags: nat)
    requires 3 <= |s| < 4099 && flags < 16
    requires s[1] == ToByte(16 * flags + (|s| - 3) / 256) && s[2] == ToByte((|s| - 3) % 256)
    ensures s == SectionOf(s[0], flags, s[3..])
  {
    hide ToByte;
  }

  lemma HeaderBytes(b: int, lo: int, n: int)
    requires 0 <= b < 256 && 0 <= lo < 256 && n == b % 16 * 256 + lo
    ensures 0 <= n < 4096 && n % 256 == lo && 16 * (b / 16) + n / 256 == b
  {
  }

  /** A proper part of a section is incomplete. */
  lemma PartIsIncomplete(part: Bytes, s: Bytes)
    requires WholeSection(s) && part < s
    ensures Incomplete(part)
  {
    if |part| >= 3 {
      SamePrefix(part, s);
    }
  }

  /** The first section lies whole in the body. */
  lemma FillWhole(body: Bytes, sections: seq<Bytes>)
    requires AllWhole(sections) && Fill(body, sections).legal && sections != [] && body != [] && body[0] != STUFFING
    requires |sections[0]| <= |body|
    ensures var s := sections[0];
            |s| > 0 && Fill(body, sections) == Fill(body[|s|..], sections[1..]) && AllWhole(sections[1..])
            && Cut(body) == Fed(Cut(body[|s|..]).section, 0, [s] + Cut(body[|s|..]).done)
  {
    var s := sections[0];
    SamePrefix(s, body);
    assert body[..|s|] == s;
  }

  /** Stuffing, or a section that goes on in the next packet. */
  lemma FillEnds(body: Bytes, sections: seq<Bytes>)
    requires AllWhole(sections) && Fill(body, sections).legal
    requires body == [] || body[0] == STUFFING || |sections[0]| > |body|
    ensures var f, c := Fill(body, sections), Cut(body);
            c.section == f.section && c.done == [] && f.left == sections
            && (f.section != [] ==> sections != [] && f.section < sections[0])
  {
    if body != [] && body[0] != STUFFING {
      PartIsIncomplete(body, sections[0]);
    }
  }

  /** What is cut out and what is left make up the sections again. */
  ghost predicate Undone(c: Fed, f: Filled, sections: seq<Bytes>) {
    && c.section == f.section && sections == c.done + f.left && AllWhole(f.left)
    && (f.section != [] ==> f.left != [] && f.section < f.left[0])
  }

  lemma UndoneMore(c: Fed, f: Filled, sections: seq<Bytes>)
    requires sections != [] && Undone(c, f, sections[1..])
    ensures Undone(Fed(c.section, 0, [sections[0]] + c.done), f, sections)
  {
    assert sections == [sections[0]] + sections[1..];
  }

  lemma {:induction false} CutUndoesFill(body: Bytes, sections: seq<Bytes>)
    requires AllWhole(sections) && Fill(body, sections).legal
    ensures Undone(Cut(body), Fill(body, sections), sections)
    decreases |sections|
  {
    if body == [] || body[0] == STUFFING || |sections[0]| > |body| {
      FillEnds(body, sections);
    } else {
      hide Fill, Cut, AllWhole, Undone;
      FillWhole(body, sections);
      CutUndoesFill(body[|sections[0]|..], sections[1..]);
      UndoneMore(Cut(body[|sections[0]|..]), Fill(body, sections), sections);
    }
  }

  lemma JoinUndoes(section: Bytes, data: Bytes, s: Bytes)
    requires WholeSection(s) && section < s
    ensures data < s[|section|..] ==> Join(section, data) == Fed(section + data, 0, []) && section + data < s
    ensures s[|section|..] <= data ==> Join(section, data) == Fed([], 0, [s])
  {
    var rest := s[|section|..];
    if data < rest {
      assert section + data < s;
      PartIsIncomplete(section + data, s);
    } else if rest <= data {
      var all := section + data;
      assert s <= all;
      SamePrefix(s, all);
      assert all[..|s|] == s;
    }
  }

  /** One legal packet leaves exactly what it should, and gives out what it ends. */
  lemma FeedUndoes(p: Packet, section: Bytes, lastcc: int, sections: seq<Bytes>)
    requires AllWhole(sections) && HasPayload(p) && Incomplete(section)
    requires section != [] ==> sections != [] && section < sections[0]
    requires LegalPacket(Payload(p), Pusi(p), Follows(Cc(p), lastcc), section, sections).legal
    ensures var f, g := LegalPacket(Payload(p), Pusi(p), Follows(Cc(p), lastcc), section, sections), Feed(section, lastcc, p);
            g.section == f.section && g.lastcc == Cc(p) && sections == g.done + f.left && AllWhole(f.left)
            && (f.section != [] ==> f.left != [] && f.section < f.left[0])
  {
    hide HasPayload, Pusi, Cc, Follows, Payload, WholeSection, Fill, Cut, Incomplete;
    var d := Payload(p);
    if section == [] {
      if Pusi(p) {
        CutUndoesFill(d[1..], sections);
        assert d[1..][0..] == d[1..];
      }
    } else {
      var s := sections[0];
      var rest := s[|section|..];
      assert sections == [s] + sections[1..];
      if Pusi(p) {
        JoinUndoes(section, d[1..][..|rest|], s);
        assert d[1..][|rest|..] == d[1 + |rest|..];
        CutUndoesFill(d[1 + |rest|..], sections[1..]);
      } else {
        JoinUndoes(section, d, s);
      }
    }
  }

  /** The counter goes from 15 to 0, and nothing follows where no packet came. */
  lemma FollowsIs(cc: int, last: int)
    requires 0 <= cc < 16 && last < 16
    ensures Follows(cc, last) <==> last >= 0 && (cc == last + 1 || (last == 15 && cc == 0))
  {
  }

  /** After a gap in the counters a packet does what it would do with no section
      started: what had been started is lost, and nothing else. */
  lemma GapDrops(section: Bytes, lastcc: int, p: Packet)
    requires Incomplete(section) && HasPayload(p) && -1 <= lastcc < 16
    requires lastcc < 0 || (Cc(p) - lastcc) % 16 != 1
    ensures Incomplete([]) && Feed(section, lastcc, p) == Feed([], lastcc, p)
  {
    hide HasPayload, Pusi, Cc, Cut, Join;
  }

  /** The pointer field counts the bytes that end the started section; the sections
      after them are cut out whether that goes on or not. */
  lemma EndsAndStarts(section: Bytes, lastcc: int, p: Packet, pointer: bv8, rest: Bytes, body: Bytes)
    requires HasPayload(p) && Pusi(p) && Incomplete(section) && -1 <= lastcc < 16
    requires Payload(p) == [pointer] + rest + body && pointer as int == |rest|
    ensures var c := Cut(body);
            && (section != [] && WholeSection(section + rest) && Follows(Cc(p), lastcc) ==>
                  Feed(section, lastcc, p) == Fed(c.section, Cc(p), [section + rest] + c.done))
            && (section == [] || !Follows(Cc(p), lastcc) ==> Feed(section, lastcc, p) == Fed(c.section, Cc(p), c.done))
  {
    FeedRestarts(section, lastcc, p);
    hide *;
    PointerIs(Payload(p), pointer, rest, body);
    RestartsAt(section, Follows(Cc(p), lastcc) && section != [], p, rest, body);
    JoinsWhole(section, rest);
    assert [] + Cut(body).done == Cut(body).done;
  }

  lemma FeedRestarts(section: Bytes, lastcc: int, p: Packet)
    requires HasPayload(p) && Pusi(p) && Incomplete(section)
    ensures Feed(section, lastcc, p) == Restart(section, Follows(Cc(p), lastcc) && section != [], p).(lastcc := Cc(p))
  {
    hide HasPayload, Pusi, Cc, Follows, Payload, Restart, Incomplete, SectionLength;
  }

  lemma RestartsAt(section: Bytes, goesOn: bool, p: Packet, rest: Bytes, body: Bytes)
    requires HasPayload(p) && Pusi(p) && Incomplete(section)
    requires var d := Payload(p); PointerField(d) == |rest| <= |d[1..]| && d[1..][..|rest|] == rest && d[1..][|rest|..] == body
    ensures Restart(section, goesOn, p) == Fed(Cut(body).section, 0, (if goesOn then Join(section, rest).done else []) + Cut(body).done)
  {
    hide HasPayload, Pusi, Payload, PointerField, Incomplete, SectionLength, Join, Cut;
  }

  /** A pointer beyond the end of the packet: everything is dropped. */
  lemma PointerBeyond(section: Bytes, lastcc: int, p: Packet)
    requires HasPayload(p) && Pusi(p) && Incomplete(section) && Payload(p)[0] as int >= |Payload(p)|
    ensures Feed(section, lastcc, p) == Fed([], Cc(p), [])
  {
    FeedRestarts(section, lastcc, p);
    hide HasPayload, Pusi, Cc, Follows, Payload, Join, Cut, Feed;
  }

  /** With no section started, a packet without a start adds nothing. */
  lemma NothingStarts(lastcc: int, p: Packet)
    requires HasPayload(p) && !Pusi(p)
    ensures Incomplete([]) && Feed([], lastcc, p) == Fed([], Cc(p), [])
  {
    hide HasPayload, Pusi, Cc, Follows, Join, Cut;
  }

  lemma PointerIs(d: Bytes, pointer: bv8, rest: Bytes, body: Bytes)
    requires d == [pointer] + rest + body && pointer as int == |rest|
    ensures PointerField(d) == |rest| <= |d[1..]| && d[1..][..|rest|] == rest && d[1..][|rest|..] == body
  {
    assert d[1..] == rest + body;
  }

  lemma JoinsWhole(section: Bytes, rest: Bytes)
    ensures WholeSection(section + rest) ==> Join(section, rest).done == [section + rest]
  {
    assert (section + rest)[..|section + rest|] == section + rest;
  }

  /** The sections of every legal packetization are delivered: all of them, in
      order, once each, and nothing else. */
  lemma {:induction false} DeliversAll(ps: seq<Packet>, section: Bytes, lastcc: int, sections: seq<Bytes>)
    requires AllWhole(sections) && Incomplete(section)
    requires section != [] ==> sections != [] && section < sections[0]
    requires Legal(ps, section, lastcc, sections)
    ensures FeedAll(section, lastcc, ps).done == sections && FeedAll(section, lastcc, ps).section == []
    decreases |ps|
  {
    hide LegalPacket, Feed, HasPayload, WholeSection, Incomplete;
    if ps != [] {
      if !HasPayload(ps[0]) {
        DeliversAll(ps[1..], section, lastcc, sections);
        NoPayload(section, lastcc, ps[0]);
      } else {
        FeedUndoes(ps[0], section, lastcc, sections);
        var f := LegalPacket(Payload(ps[0]), Pusi(ps[0]), Follows(Cc(ps[0]), lastcc), section, sections);
        var g := Feed(section, lastcc, ps[0]);
        DeliversAll(ps[1..], g.section, g.lastcc, f.left);
      }
    }
  }

  lemma NoPayload(section: Bytes, lastcc: int, p: Packet)
    requires Incomplete(section)
    ensures !HasPayload(p) ==> Feed(section, lastcc, p) == Fed(section, lastcc, [])
  {
  }
}
