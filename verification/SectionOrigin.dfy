/** Whatever packets come, nothing is made up: sections that are given out are
    pieces of the payload, each byte used once, in order. */
module SectionOrigin {
  import opened TsPacket
  import opened Sections

  /** The payload without the pointer field. */
  function Content(p: Packet): Bytes
    requires HasPayload(p)
  {
    if Pusi(p) then Payload(p)[1..] else Payload(p)
  }

  ghost predicate AllPayload(ps: seq<Packet>) { forall i :: 0 <= i < |ps| ==> HasPayload(ps[i]) }

  /** Packets with consecutive continuity counters. */
  ghost predicate Streak(ps: seq<Packet>) { forall i :: 1 <= i < |ps| ==> Follows(Cc(ps[i]), Cc(ps[i - 1])) }

  /** A streak counts on modulo 16 from its first packet. */
  lemma {:induction false} StreakCounts(ps: seq<Packet>)
    ensures Streak(ps) <==> forall i :: 0 <= i < |ps| ==> Cc(ps[i]) == (Cc(ps[0]) + i) % 16
    decreases |ps|
  {
    hide Cc;
    if |ps| > 1 {
      var n := |ps| - 1;
      StreakCounts(ps[..n]);
      StreakNext(ps, n);
      hide Streak, Follows;
      assert forall i :: 0 <= i < n ==> ps[..n][i] == ps[i];
      CountsNext(Cc(ps[n]), Cc(ps[n - 1]), Cc(ps[0]), n);
    }
  }

  lemma StreakNext(ps: seq<Packet>, n: nat)
    requires |ps| == n + 1 && n > 0
    ensures Streak(ps) <==> Streak(ps[..n]) && Follows(Cc(ps[n]), Cc(ps[n - 1]))
  {
    hide Follows, Cc;
    assert forall i :: 0 <= i < n ==> ps[..n][i] == ps[i];
  }

  lemma CountsNext(cc: int, last: int, first: int, n: nat)
    requires 0 <= cc < 16 && 0 <= last < 16 && n > 0
    ensures last == (first + n - 1) % 16 ==> (Follows(cc, last) <==> cc == (first + n) % 16)
  {
  }

  ghost function Contents(ps: seq<Packet>): Bytes
    requires AllPayload(ps)
  {
    if ps == [] then [] else Contents(ps[..|ps| - 1]) + Content(ps[|ps| - 1])
  }

  lemma {:induction false} ContentsOfBoth(a: seq<Packet>, b: seq<Packet>)
    requires AllPayload(a) && AllPayload(b)
    ensures AllPayload(a + b) && Contents(a + b) == Contents(a) + Contents(b)
    decreases |b|
  {
    hide HasPayload, Content;
    if b == [] {
      assert a + b == a;
    } else {
      var head, last := b[..|b| - 1], b[|b| - 1];
      ContentsOfBoth(a, head);
      assert (a + b)[..|a + b| - 1] == a + head && (a + b)[|a + b| - 1] == last;
      assert Contents(a + b) == Contents(a + head) + Content(last);
      assert Contents(a) + Contents(head) + Content(last) == Contents(a) + (Contents(head) + Content(last));
    }
  }

  lemma OneContent(p: Packet)
    requires HasPayload(p)
    ensures Contents([p]) == Content(p)
  {
    hide HasPayload, Content;
    assert [p][..0] == [];
  }

  ghost predicate PartAt(part: Bytes, whole: Bytes, at: nat) {
    at + |part| <= |whole| && whole[at..at + |part|] == part
  }

  lemma HeadAndTail(body: Bytes, n: nat)
    requires n <= |body|
    ensures PartAt(body[..n], body, 0) && PartAt(body[n..], body, n)
  {
  }

  lemma PartOfPart(part: Bytes, middle: Bytes, whole: Bytes, off: nat, at: nat)
    requires PartAt(part, middle, off) && PartAt(middle, whole, at)
    ensures PartAt(part, whole, at + off)
  {
    forall i | 0 <= i < |part| ensures whole[at + off + i] == part[i] {
      assert whole[at..at + |middle|][off + i] == middle[off + i] == middle[off..off + |part|][i];
    }
  }

  lemma BeginningOfPart(d: Bytes, part: Bytes, whole: Bytes, at: nat)
    requires d <= part && PartAt(part, whole, at)
    ensures PartAt(d, whole, at)
  {
    assert part[..|d|] == d;
    HeadAndTail(part, |d|);
    PartOfPart(d, part, whole, 0, at);
  }

  lemma PartOfSum(a: Bytes, b: Bytes)
    ensures PartAt(a, a + b, 0) && PartAt(b, a + b, |a|)
  {
  }

  /** The bytes at pos lie in packets i, ..., j - 1, a streak. */
  ghost predicate Across(d: Bytes, ps: seq<Packet>, pos: nat, i: nat, j: nat)
    requires AllPayload(ps)
  {
    && i <= j <= |ps| && Streak(ps[i..j])
    && |Contents(ps[..i])| <= pos && pos + |d| <= |Contents(ps[..j])| && PartAt(d, Contents(ps), pos)
  }

  /** A section of its stated length, at pos of the payload, within one streak. */
  ghost predicate Placed(d: Bytes, ps: seq<Packet>, pos: nat)
    requires AllPayload(ps)
  {
    |d| >= 3 && |d| == SectionLength(d) && exists i: nat, j: nat :: Across(d, ps, pos, i, j)
  }

  /** The sections lie one after the other between two positions of the payload. */
  ghost predicate InOrder(done: seq<Bytes>, ps: seq<Packet>, from: nat, to: nat)
    requires AllPayload(ps)
    decreases |done|
  {
    if done == [] then from <= to
    else exists pos: nat ::
      from <= pos && pos + |done[0]| <= to && Placed(done[0], ps, pos) && InOrder(done[1..], ps, pos + |done[0]|, to)
  }

  lemma OneInOrder(d: Bytes, ps: seq<Packet>, pos: nat, from: nat, to: nat)
    requires AllPayload(ps) && Placed(d, ps, pos) && from <= pos && pos + |d| <= to
    ensures InOrder([d], ps, from, to)
  {
    hide Placed;
    assert [d][0] == d && [d][1..] == [];
    assert InOrder([d][1..], ps, pos + |d|, to);
    assert from <= pos && pos + |[d][0]| <= to && Placed([d][0], ps, pos) && InOrder([d][1..], ps, pos + |[d][0]|, to);
  }

  lemma {:induction false} InOrderWider(done: seq<Bytes>, ps: seq<Packet>, from: nat, to: nat, lower: nat)
    requires AllPayload(ps) && InOrder(done, ps, from, to) && lower <= from
    ensures InOrder(done, ps, lower, to)
  {
    hide Placed, AllPayload;
    if done != [] {
      var pos: nat :| from <= pos && pos + |done[0]| <= to && Placed(done[0], ps, pos) && InOrder(done[1..], ps, pos + |done[0]|, to);
      assert lower <= pos;
    }
  }

  lemma {:induction false} InOrderBoth(a: seq<Bytes>, b: seq<Bytes>, ps: seq<Packet>, from: nat, middle: nat, to: nat)
    requires AllPayload(ps) && InOrder(a, ps, from, middle) && InOrder(b, ps, middle, to)
    ensures InOrder(a + b, ps, from, to)
    decreases |a|
  {
    hide Placed, AllPayload;
    if a == [] {
      assert a + b == b;
      InOrderWider(b, ps, middle, to, from);
    } else {
      var pos: nat :| from <= pos && pos + |a[0]| <= middle && Placed(a[0], ps, pos) && InOrder(a[1..], ps, pos + |a[0]|, middle);
      InOrderBoth(a[1..], b, ps, pos + |a[0]|, middle, to);
      assert (a + b)[0] == a[0] && (a + b)[1..] == a[1..] + b;
      InOrderEnds(b, ps, middle, to);
      assert pos + |(a + b)[0]| <= to && InOrder((a + b)[1..], ps, pos + |(a + b)[0]|, to);
    }
  }

  lemma {:induction false} InOrderEnds(done: seq<Bytes>, ps: seq<Packet>, from: nat, to: nat)
    requires AllPayload(ps) && InOrder(done, ps, from, to)
    ensures from <= to
  {
    hide Placed, AllPayload;
  }

  lemma StaysPlaced(d: Bytes, ps: seq<Packet>, more: seq<Packet>, pos: nat)
    requires AllPayload(ps) && AllPayload(more) && AllPayload(ps + more) && Placed(d, ps, pos)
    ensures Placed(d, ps + more, pos)
  {
    hide Streak, PartAt, SectionLength, HasPayload, Contents;
    var i: nat, j: nat :| Across(d, ps, pos, i, j);
    ContentsOfBoth(ps, more);
    PartOfSum(Contents(ps), Contents(more));
    PartOfPart(d, Contents(ps), Contents(ps + more), pos, 0);
    assert (ps + more)[i..j] == ps[i..j] && (ps + more)[..i] == ps[..i] && (ps + more)[..j] == ps[..j];
    assert Across(d, ps + more, pos, i, j);
  }

  lemma {:induction false} StaysInOrder(done: seq<Bytes>, ps: seq<Packet>, more: seq<Packet>, from: nat, to: nat)
    requires AllPayload(ps) && AllPayload(more) && AllPayload(ps + more) && InOrder(done, ps, from, to)
    ensures InOrder(done, ps + more, from, to)
    decreases |done|
  {
    hide Placed, AllPayload;
    if done != [] {
      var pos: nat :| from <= pos && pos + |done[0]| <= to && Placed(done[0], ps, pos) && InOrder(done[1..], ps, pos + |done[0]|, to);
      StaysPlaced(done[0], ps, more, pos);
      StaysInOrder(done[1..], ps, more, pos + |done[0]|, to);
    }
  }

  /** Sections in order, by their positions: no two of them share a byte. */
  lemma {:induction false} Positions(done: seq<Bytes>, ps: seq<Packet>, from: nat, to: nat) returns (pos: seq<nat>)
    requires AllPayload(ps) && InOrder(done, ps, from, to)
    ensures |pos| == |done| && forall i :: 0 <= i < |done| ==> from <= pos[i] && Placed(done[i], ps, pos[i])
    ensures forall i, j :: 0 <= i < j < |done| ==> pos[i] + |done[i]| <= pos[j]
    decreases |done|
  {
    hide Placed, AllPayload;
    if done == [] {
      pos := [];
    } else {
      var at: nat :| from <= at && at + |done[0]| <= to && Placed(done[0], ps, at) && InOrder(done[1..], ps, at + |done[0]|, to);
      var rest := Positions(done[1..], ps, at + |done[0]|, to);
      hide InOrder;
      pos := [at] + rest;
      forall i | 0 <= i < |done| ensures from <= pos[i] && Placed(done[i], ps, pos[i]) {
        if i > 0 {
          assert done[i] == done[1..][i - 1] && pos[i] == rest[i - 1];
        }
      }
      Apart(done, rest, at);
    }
  }

  lemma Apart(done: seq<Bytes>, rest: seq<nat>, at: nat)
    requires |done| == |rest| + 1 && forall i :: 0 <= i < |rest| ==> at + |done[0]| <= rest[i]
    requires forall i, j :: 0 <= i < j < |rest| ==> rest[i] + |done[1..][i]| <= rest[j]
    ensures var pos := [at] + rest; forall i, j :: 0 <= i < j < |done| ==> pos[i] + |done[i]| <= pos[j]
  {
    var pos := [at] + rest;
    forall i, j | 0 <= i < j < |done| ensures pos[i] + |done[i]| <= pos[j] {
      if i > 0 {
        assert done[i] == done[1..][i - 1] && pos[i] == rest[i - 1] && pos[j] == rest[j - 1];
      }
    }
  }

  /** The bytes are the last ones of packets k, k + 1, ... of a streak. */
  ghost predicate EndsWith(ps: seq<Packet>, k: nat, section: Bytes)
    requires AllPayload(ps)
  {
    k <= |ps| && Streak(ps[k..]) && |section| <= |Contents(ps[k..])|
    && PartAt(section, Contents(ps[k..]), |Contents(ps[k..])| - |section|)
  }

  /** A started section is what the last packets of one streak end with. */
  ghost predicate Started(section: Bytes, lastcc: int, ps: seq<Packet>) {
    && AllPayload(ps) && Incomplete(section) && (ps == [] <==> lastcc < 0)
    && (ps != [] ==> lastcc == Cc(ps[|ps| - 1])) && |section| <= |Contents(ps)|
    && (section != [] ==> ps != [] && exists k: nat :: k < |ps| && EndsWith(ps, k, section))
  }

  lemma ContentsFrom(ps: seq<Packet>, k: nat)
    requires AllPayload(ps) && k <= |ps|
    ensures AllPayload(ps[..k]) && AllPayload(ps[k..]) && Contents(ps) == Contents(ps[..k]) + Contents(ps[k..])
  {
    hide HasPayload, Contents;
    assert ps == ps[..k] + ps[k..];
    ContentsOfBoth(ps[..k], ps[k..]);
  }

  /** A packet that follows makes a streak longer. */
  lemma LongerStreak(ps: seq<Packet>, k: nat, p: Packet)
    requires AllPayload(ps) && k < |ps| && Streak(ps[k..]) && HasPayload(p) && Follows(Cc(p), Cc(ps[|ps| - 1]))
    ensures var now := ps + [p];
            AllPayload(now) && Streak(now[k..]) && Contents(now[k..]) == Contents(ps[k..]) + Content(p)
  {
    hide HasPayload, Follows, Cc, Content, Contents;
    var now := ps + [p];
    assert now[k..] == ps[k..] + [p];
    ContentsOfBoth(ps[k..], [p]);
    OneContent(p);
  }

  lemma OnePacketStreak(ps: seq<Packet>, p: Packet)
    requires AllPayload(ps) && HasPayload(p)
    ensures var now := ps + [p];
            && AllPayload(now) && Streak(now[|ps|..]) && Contents(now[|ps|..]) == Content(p)
            && Contents(now) == Contents(ps) + Content(p)
  {
    hide HasPayload, Content, Contents;
    var now := ps + [p];
    assert now[|ps|..] == [p];
    ContentsOfBoth(ps, [p]);
    OneContent(p);
  }

  /** What lies in the last packets lies in the payload of all. */
  lemma PlacedIn(d: Bytes, ps: seq<Packet>, k: nat, at: nat, pos: nat)
    requires AllPayload(ps) && |d| >= 3 && SectionLength(d) == |d| && k <= |ps| && Streak(ps[k..])
    requires PartAt(d, Contents(ps[k..]), at) && pos + |Contents(ps[k..])| == |Contents(ps)| + at
    ensures Placed(d, ps, pos)
  {
    hide Streak, SectionLength, HasPayload, Contents;
    ContentsFrom(ps, k);
    PartOfSum(Contents(ps[..k]), Contents(ps[k..]));
    PartOfPart(d, Contents(ps[k..]), Contents(ps), at, |Contents(ps[..k])|);
    assert ps[k..|ps|] == ps[k..] && ps[..|ps|] == ps;
    assert Across(d, ps, pos, k, |ps|);
  }

  lemma JoinPart(section: Bytes, before: Bytes, content: Bytes, n: nat)
    requires |section| <= |before| && PartAt(section, before, |before| - |section|) && n <= |content|
    ensures PartAt(section + content[..n], before + content, |before| - |section|)
  {
  }

  /** Where the section and the bytes that continue it lie in their streak. */
  lemma JoinAt(section: Bytes, lastcc: int, ps: seq<Packet>, p: Packet, n: nat) returns (k: nat, at: nat)
    requires Started(section, lastcc, ps) && section != [] && HasPayload(p) && Follows(Cc(p), lastcc) && n <= |Content(p)|
    ensures AllPayload(ps + [p]) && k < |ps| && Streak((ps + [p])[k..])
    ensures PartAt(section + Content(p)[..n], Contents((ps + [p])[k..]), at)
    ensures AllPayload(ps) && AllPayload((ps + [p])[k..]) && |section| <= |Contents(ps)|
    ensures |Contents(ps)| - |section| + |Contents((ps + [p])[k..])| == |Contents(ps + [p])| + at
  {
    hide HasPayload, Follows, Cc, Content, Incomplete, SectionLength, PartAt, Contents;
    OnePacketStreak(ps, p);
    k :| k < |ps| && EndsWith(ps, k, section);
    LongerStreak(ps, k, p);
    at := |Contents(ps[k..])| - |section|;
    JoinPart(section, Contents(ps[k..]), Content(p), n);
  }

  lemma JoinDone(section: Bytes, data: Bytes)
    ensures var j := Join(section, data);
            (j.done == [] && j.section == section + data) ||
            (j.section == [] && |j.done| == 1 && j.done[0] <= section + data && |j.done[0]| >= 3
             && SectionLength(j.done[0]) == |j.done[0]|)
  {
    var all := section + data;
    if !Incomplete(all) {
      SamePrefix(all[..SectionLength(all)], all);
    }
  }

  /** The section that a packet completes. */
  lemma JoinedOne(d: Bytes, section: Bytes, lastcc: int, ps: seq<Packet>, p: Packet, n: nat)
    requires Started(section, lastcc, ps) && section != [] && HasPayload(p) && Follows(Cc(p), lastcc) && n <= |Content(p)|
    requires d <= section + Content(p)[..n] && |d| >= 3 && SectionLength(d) == |d|
    ensures AllPayload(ps + [p]) && Placed(d, ps + [p], |Contents(ps)| - |section|)
  {
    hide *;
    var k, at := JoinAt(section, lastcc, ps, p, n);
    BeginningOfPart(d, section + Content(p)[..n], Contents((ps + [p])[k..]), at);
    PlacedIn(d, ps + [p], k, at, |Contents(ps)| - |section|);
  }

  /** A section that is completed begins where it was started. */
  lemma JoinGives(section: Bytes, lastcc: int, ps: seq<Packet>, p: Packet, n: nat)
    requires Started(section, lastcc, ps) && section != [] && HasPayload(p) && Follows(Cc(p), lastcc) && n <= |Content(p)|
    ensures AllPayload(ps + [p])
    ensures InOrder(Join(section, Content(p)[..n]).done, ps + [p], |Contents(ps)| - |section|, |Contents(ps)| + n)
  {
    hide *;
    StartedFits(section, lastcc, ps);
    OnePacketStreak(ps, p);
    var j, from := Join(section, Content(p)[..n]), |Contents(ps)| - |section|;
    JoinDone(section, Content(p)[..n]);
    if j.done == [] {
      NoneInOrder(ps + [p], from, |Contents(ps)| + n);
    } else {
      var d := j.done[0];
      JoinedOne(d, section, lastcc, ps, p, n);
      assert j.done == [d];
      OneInOrder(d, ps + [p], from, from, |Contents(ps)| + n);
    }
  }

  lemma NoneInOrder(ps: seq<Packet>, from: nat, to: nat)
    requires AllPayload(ps) && from <= to
    ensures InOrder([], ps, from, to)
  {
  }

  lemma StartedFits(section: Bytes, lastcc: int, ps: seq<Packet>)
    requires Started(section, lastcc, ps)
    ensures AllPayload(ps) && Incomplete(section) && |section| <= |Contents(ps)|
  {
  }

  /** A section that goes on in the next packet. */
  lemma JoinKeeps(section: Bytes, lastcc: int, ps: seq<Packet>, p: Packet)
    requires Started(section, lastcc, ps) && section != [] && HasPayload(p) && Follows(Cc(p), lastcc)
    ensures Started(Join(section, Content(p)).section, Cc(p), ps + [p])
  {
    hide HasPayload, Follows, Cc, Content, SectionLength, PartAt, Contents, Streak;
    var k, at := JoinAt(section, lastcc, ps, p, |Content(p)|);
    OnePacketStreak(ps, p);
    assert Content(p)[..|Content(p)|] == Content(p);
    NothingIsIncomplete();
    if Join(section, Content(p)).section != [] {
      assert EndsWith(ps + [p], k, section + Content(p));
    }
  }

  function HeadLength(body: Bytes): (n: nat)
    requires !Incomplete(body)
    ensures 3 <= n <= |body| && n == SectionLength(body) && SectionLength(body[..n]) == n
  {
    var n := SectionLength(body);
    SamePrefix(body[..n], body);
    n
  }

  lemma PartEmpty(whole: Bytes)
    ensures PartAt([], whole, |whole|)
  {
  }

  lemma NothingIsIncomplete()
    ensures Incomplete([])
  {
  }

  /** Both ends of a body that ends the content. */
  lemma HeadOfEnd(body: Bytes, n: nat, whole: Bytes)
    requires n <= |body| <= |whole| && PartAt(body, whole, |whole| - |body|)
    ensures PartAt(body[..n], whole, |whole| - |body|) && PartAt(body[n..], whole, |whole| - |body[n..]|)
  {
    hide PartAt;
    var at: nat := |whole| - |body|;
    HeadAndTail(body, n);
    PartOfPart(body[n..], body, whole, n, at);
    PartOfPart(body[..n], body, whole, 0, at);
  }

  /** The sections that start in a packet lie one after the other from the start of
      the body on, and what is started ends the packet. */
  lemma {:induction false} CutSource(body: Bytes, ps: seq<Packet>, p: Packet)
    requires AllPayload(ps) && HasPayload(p) && |body| <= |Content(p)| && PartAt(body, Content(p), |Content(p)| - |body|)
    ensures var c, now := Cut(body), ps + [p];
            && AllPayload(now) && |Content(p)| <= |Contents(now)|
            && |c.section| <= |Content(p)| && PartAt(c.section, Content(p), |Content(p)| - |c.section|)
            && InOrder(c.done, now, |Contents(now)| - |body|, |Contents(now)| - |c.section|)
    decreases |body|
  {
    hide HasPayload, PartAt, Incomplete, SectionLength, Placed, Content, Contents, InOrder, Streak;
    var now := ps + [p];
    OnePacketStreak(ps, p);
    var t := |Contents(now)|;
    if body == [] || body[0] == STUFFING {
      PartEmpty(Content(p));
      NoneInOrder(now, t - |body|, t);
    } else if Incomplete(body) {
      NoneInOrder(now, t - |body|, t - |body|);
    } else {
      var n := HeadLength(body);
      HeadOfEnd(body, n, Content(p));
      PlacedIn(body[..n], now, |ps|, |Content(p)| - |body|, t - |body|);
      OneInOrder(body[..n], now, t - |body|, t - |body|, t - |body[n..]|);
      CutSource(body[n..], ps, p);
      InOrderBoth([body[..n]], Cut(body[n..]).done, now, t - |body|, t - |body[n..]|, t - |Cut(body[n..]).section|);
    }
  }

  /** What one packet gives out lies between what was started before and what is
      started after it. */
  ghost predicate Advances(f: Fed, section: Bytes, ps: seq<Packet>, now: seq<Packet>) {
    && AllPayload(ps) && AllPayload(now) && |section| <= |Contents(ps)| && |f.section| <= |Contents(now)|
    && InOrder(f.done, now, |Contents(ps)| - |section|, |Contents(now)| - |f.section|)
  }

  /** A packet without the start of a section. */
  lemma FeedMiddle(section: Bytes, lastcc: int, ps: seq<Packet>, p: Packet)
    requires Started(section, lastcc, ps) && HasPayload(p) && !Pusi(p)
    ensures var f := Feed(section, lastcc, p); Started(f.section, f.lastcc, ps + [p]) && Advances(f, section, ps, ps + [p])
  {
    hide HasPayload, Follows, Cc, Incomplete, SectionLength, Join, EndsWith, Placed, InOrder, Contents;
    NothingIsIncomplete();
    OnePacketStreak(ps, p);
    var t := |Contents(ps + [p])|;
    if Follows(Cc(p), lastcc) && section != [] {
      assert Content(p)[..|Content(p)|] == Content(p);
      JoinGives(section, lastcc, ps, p, |Content(p)|);
      JoinKeeps(section, lastcc, ps, p);
      JoinDone(section, Content(p));
      if Join(section, Content(p)).done == [] {
        NoneInOrder(ps + [p], |Contents(ps)| - |section|, t - |section + Content(p)|);
      }
    } else {
      NoneInOrder(ps + [p], |Contents(ps)| - |section|, t);
    }
  }

  /** The end of the section before, if there is one. */
  lemma EndingGives(section: Bytes, lastcc: int, ps: seq<Packet>, p: Packet, n: nat, goesOn: bool)
    requires Started(section, lastcc, ps) && HasPayload(p) && n <= |Content(p)|
    requires goesOn == (Follows(Cc(p), lastcc) && section != [])
    ensures AllPayload(ps + [p]) && Incomplete(section) && |section| <= |Contents(ps)|
    ensures InOrder(if goesOn then Join(section, Content(p)[..n]).done else [], ps + [p], |Contents(ps)| - |section|, |Contents(ps)| + n)
  {
    hide *;
    StartedFits(section, lastcc, ps);
    OnePacketStreak(ps, p);
    if goesOn {
      JoinGives(section, lastcc, ps, p, n);
    } else {
      NoneInOrder(ps + [p], |Contents(ps)| - |section|, |Contents(ps)| + n);
    }
  }

  /** What a packet with the start of a section gives out. */
  lemma StartFed(section: Bytes, lastcc: int, p: Packet, n: nat, goesOn: bool)
    requires Incomplete(section) && HasPayload(p) && Pusi(p) && n == PointerField(Payload(p))
    requires goesOn == (Follows(Cc(p), lastcc) && section != [])
    ensures n > |Content(p)| ==> Feed(section, lastcc, p) == Fed([], Cc(p), [])
    ensures n <= |Content(p)| ==>
              var c := Cut(Content(p)[n..]);
              Feed(section, lastcc, p)
              == Fed(c.section, Cc(p), (if goesOn then Join(section, Content(p)[..n]).done else []) + c.done)
  {
    hide HasPayload, Follows, Cc, Pusi, Payload, PointerField, Incomplete, SectionLength, Join, Cut;
  }

  /** A packet with the start of a section. */
  lemma FeedStart(section: Bytes, lastcc: int, ps: seq<Packet>, p: Packet)
    requires Started(section, lastcc, ps) && HasPayload(p) && Pusi(p)
    ensures var f := Feed(section, lastcc, p); Started(f.section, f.lastcc, ps + [p]) && Advances(f, section, ps, ps + [p])
  {
    hide *;
    StartedFits(section, lastcc, ps);
    OnePacketStreak(ps, p);
    var n, goesOn := PointerField(Payload(p)), Follows(Cc(p), lastcc) && section != [];
    StartFed(section, lastcc, p, n, goesOn);
    if n > |Content(p)| {
      StartedAfresh(ps, p);
      NoneInOrder(ps + [p], |Contents(ps)| - |section|, |Contents(ps + [p])|);
      IsAdvance(Feed(section, lastcc, p), section, ps, ps + [p]);
    } else {
      var c := Cut(Content(p)[n..]);
      EndingGives(section, lastcc, ps, p, n, goesOn);
      HeadAndTail(Content(p), n);
      CutSource(Content(p)[n..], ps, p);
      var first := if goesOn then Join(section, Content(p)[..n]).done else [];
      InOrderBoth(first, c.done, ps + [p], |Contents(ps)| - |section|, |Contents(ps)| + n, |Contents(ps + [p])| - |c.section|);
      StartedIn(c.section, ps, p);
      IsAdvance(Feed(section, lastcc, p), section, ps, ps + [p]);
    }
  }

  lemma IsAdvance(f: Fed, section: Bytes, ps: seq<Packet>, now: seq<Packet>)
    requires AllPayload(ps) && AllPayload(now) && |section| <= |Contents(ps)| && |f.section| <= |Contents(now)|
    requires InOrder(f.done, now, |Contents(ps)| - |section|, |Contents(now)| - |f.section|)
    ensures Advances(f, section, ps, now)
  {
  }

  lemma StartedAfresh(ps: seq<Packet>, p: Packet)
    requires AllPayload(ps) && HasPayload(p)
    ensures AllPayload(ps + [p]) && Started([], Cc(p), ps + [p])
  {
    hide Contents, Cc, HasPayload;
    NothingIsIncomplete();
  }

  lemma StartedIn(section: Bytes, ps: seq<Packet>, p: Packet)
    requires AllPayload(ps) && HasPayload(p) && Incomplete(section) && |section| <= |Content(p)|
    requires PartAt(section, Content(p), |Content(p)| - |section|)
    ensures Started(section, Cc(p), ps + [p])
  {
    hide HasPayload, Incomplete, Contents, Content, Cc, PartAt, Streak;
    OnePacketStreak(ps, p);
    assert EndsWith(ps + [p], |ps|, section);
  }

  function Payloads(ps: seq<Packet>): (r: seq<Packet>)
    ensures AllPayload(r)
  {
    if ps == [] then [] else (if HasPayload(ps[0]) then [ps[0]] else []) + Payloads(ps[1..])
  }

  /** The whole run: what is given out lies in the payload, in order, from what was
      started before to what is started in the end. */
  lemma {:induction false} AllInOrder(section: Bytes, lastcc: int, before: seq<Packet>, ps: seq<Packet>)
    requires Started(section, lastcc, before)
    ensures var f, now := FeedAll(section, lastcc, ps), before + Payloads(ps);
            Started(f.section, f.lastcc, now) && Advances(f, section, before, now)
    decreases |ps|
  {
    hide HasPayload, Feed, Pusi, Started, Incomplete, Contents, InOrder, Advances;
    StartedFits(section, lastcc, before);
    if ps == [] {
      assert before + Payloads(ps) == before;
      NoneInOrder(before, |Contents(before)| - |section|, |Contents(before)| - |section|);
      IsAdvance(Fed(section, lastcc, []), section, before, before);
    } else {
      var p, f := ps[0], Feed(section, lastcc, ps[0]);
      if !HasPayload(p) {
        NoPayload(section, lastcc, p);
        AllInOrder(section, lastcc, before, ps[1..]);
        assert Payloads(ps) == Payloads(ps[1..]);
        var rest := FeedAll(section, lastcc, ps[1..]);
        assert f.done + rest.done == rest.done;
        assert FeedAll(section, lastcc, ps) == rest;
      } else {
        if Pusi(p) {
          FeedStart(section, lastcc, before, p);
        } else {
          FeedMiddle(section, lastcc, before, p);
        }
        var mid, more := before + [p], Payloads(ps[1..]);
        AllInOrder(f.section, f.lastcc, mid, ps[1..]);
        assert before + Payloads(ps) == mid + more;
        AdvancesOn(f, FeedAll(f.section, f.lastcc, ps[1..]), section, before, mid, more);
      }
    }
  }

  lemma AdvancesOn(f: Fed, rest: Fed, section: Bytes, before: seq<Packet>, mid: seq<Packet>, more: seq<Packet>)
    requires Advances(f, section, before, mid) && AllPayload(more) && Advances(rest, f.section, mid, mid + more)
    ensures Advances(Fed(rest.section, rest.lastcc, f.done + rest.done), section, before, mid + more)
  {
    hide AllPayload, Contents, InOrder;
    var from, middle, to := |Contents(before)| - |section|, |Contents(mid)| - |f.section|, |Contents(mid + more)| - |rest.section|;
    StaysInOrder(f.done, mid, more, from, middle);
    InOrderBoth(f.done, rest.done, mid + more, from, middle, to);
  }

  lemma StartedNone()
    ensures Started([], -1, [])
  {
    hide SectionLength;
    assert Contents([]) == [];
  }

  lemma FromNone(f: Fed, now: seq<Packet>)
    requires Advances(f, [], [], now)
    ensures AllPayload(now) && |f.section| <= |Contents(now)| && InOrder(f.done, now, 0, |Contents(now)| - |f.section|)
  {
    hide HasPayload, InOrder;
    assert Contents([]) == [];
  }

  /** Whatever packets come, every section given out has its stated length and is a
      contiguous part of the payload of packets with consecutive counters; the
      sections lie in the payload in the order in which they are given out, and no
      byte is given out twice. */
  lemma AllGenuine(ps: seq<Packet>) returns (pos: seq<nat>)
    ensures Incomplete([])
    ensures var done := FeedAll([], -1, ps).done;
            && |pos| == |done| && (forall i :: 0 <= i < |done| ==> Placed(done[i], Payloads(ps), pos[i]))
            && forall i, j :: 0 <= i < j < |done| ==> pos[i] + |done[i]| <= pos[j]
  {
    StartedNone();
    hide *;
    NothingIsIncomplete();
    AllInOrder([], -1, [], ps);
    assert [] + Payloads(ps) == Payloads(ps);
    var f := FeedAll([], -1, ps);
    FromNone(f, Payloads(ps));
    pos := Positions(f.done, Payloads(ps), 0, |Contents(Payloads(ps))| - |f.section|);
  }
}
