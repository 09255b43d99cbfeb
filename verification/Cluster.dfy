/** The list of packet ranges that decrypt_packets takes and rewrites. */
module Cluster {
  /** Ends the list. */
  const NULL := -1

  /** The packets of a range, from its start up to, not including, its end. */
  function Span(lo: int, hi: int): (s: seq<int>)
    ensures |s| == if lo < hi then hi - lo else 0
    decreases hi - lo
  {
    if lo >= hi then [] else [lo] + Span(lo + 1, hi)
  }

  /** A list of start and end pairs, ended by a null start, of packets among the first slots ones. */
  ghost predicate Terminated(c: seq<int>, i: nat, slots: nat)
    decreases |c| - i
  {
    && i < |c|
    && (c[i] == NULL || (i + 2 < |c| && 0 <= c[i] && c[i + 1] <= slots && Terminated(c, i + 2, slots)))
  }

  /** The packets of the ranges from index i on, in order. */
  function Listed(c: seq<int>, i: nat): seq<int>
    decreases |c| - i
  {
    if i + 1 >= |c| || c[i] == NULL then [] else Span(c[i], c[i + 1]) + Listed(c, i + 2)
  }

  /** The packets of the ranges before index i. */
  function ListedBefore(c: seq<int>, i: nat): seq<int>
    requires i <= |c|
  {
    if i < 2 then [] else ListedBefore(c, i - 2) + Span(c[i - 2], c[i - 1])
  }

  /** The ranges before index i are read before the end of the list is found. */
  ghost predicate NoEnd(c: seq<int>, i: nat)
    requires i <= |c|
  {
    i == 0 || (i >= 2 && c[i - 2] >= 0 && NoEnd(c, i - 2))
  }

  /** No range of the list is empty. */
  ghost predicate NoneEmpty(c: seq<int>, i: nat)
    decreases |c| - i
  {
    i + 1 < |c| && c[i] != NULL ==> c[i] < c[i + 1] && NoneEmpty(c, i + 2)
  }

  ghost predicate NoneEmptyBefore(c: seq<int>, i: nat)
    requires i <= |c|
  {
    i >= 2 ==> c[i - 2] < c[i - 1] && NoneEmptyBefore(c, i - 2)
  }

  lemma {:induction false} TerminatedFrame(c: seq<int>, d: seq<int>, i: nat, slots: nat)
    requires |c| == |d| && i <= |c| && c[i..] == d[i..] && Terminated(c, i, slots)
    ensures Terminated(d, i, slots) && Listed(d, i) == Listed(c, i)
    decreases |c| - i
  {
    assert c[i] == c[i..][0] && d[i] == d[i..][0];
    if c[i] != NULL {
      assert c[i + 1] == c[i..][1] && d[i + 1] == d[i..][1];
      assert c[i + 2..] == c[i..][2..] && d[i + 2..] == d[i..][2..];
      TerminatedFrame(c, d, i + 2, slots);
    }
  }

  lemma {:induction false} BeforeFrame(c: seq<int>, d: seq<int>, i: nat)
    requires i <= |c| && i <= |d| && c[..i] == d[..i]
    ensures ListedBefore(c, i) == ListedBefore(d, i) && NoEnd(c, i) == NoEnd(d, i)
    ensures NoneEmptyBefore(c, i) == NoneEmptyBefore(d, i)
  {
    if i >= 2 {
      assert c[i - 2] == c[..i][i - 2] && d[i - 2] == d[..i][i - 2] && c[i - 1] == c[..i][i - 1] && d[i - 1] == d[..i][i - 1];
      assert c[..i - 2] == c[..i][..i - 2] && d[..i - 2] == d[..i][..i - 2];
      BeforeFrame(c, d, i - 2);
    } else if i == 1 {
    }
  }

  /** The ranges before an index and those from it on make the whole list. */
  lemma {:induction false} ListedSplit(c: seq<int>, i: nat)
    requires i <= |c| && NoEnd(c, i)
    ensures Listed(c, 0) == ListedBefore(c, i) + Listed(c, i)
  {
    if i >= 2 {
      ListedSplit(c, i - 2);
      assert ListedBefore(c, i - 2) + (Span(c[i - 2], c[i - 1]) + Listed(c, i))
          == ListedBefore(c, i - 2) + Span(c[i - 2], c[i - 1]) + Listed(c, i);
    }
  }

  lemma {:induction false} ClosedList(c: seq<int>, i: nat, slots: nat)
    requires i < |c| && c[i] == NULL && NoEnd(c, i) && NoneEmptyBefore(c, i)
    requires forall k :: 0 <= k < i ==> c[k] <= slots
    ensures Terminated(c, 0, slots) && NoneEmpty(c, 0)
  {
    ClosedFrom(c, i, i, slots);
  }

  lemma {:induction false} ClosedFrom(c: seq<int>, i: nat, k: nat, slots: nat)
    requires k <= i < |c| && NoEnd(c, k) && NoneEmptyBefore(c, k)
    requires forall j :: 0 <= j < i ==> c[j] <= slots
    requires Terminated(c, k, slots) && NoneEmpty(c, k)
    ensures Terminated(c, 0, slots) && NoneEmpty(c, 0)
  {
    if k > 0 {
      ClosedFrom(c, i, k - 2, slots);
    }
  }

  /** Copying a range down to the end of the compacted part moves it there. */
  lemma MovedDown(c: seq<int>, d: seq<int>, to: nat, clst: nat, slots: nat)
    requires 2 <= to <= clst + 2 < |c| && |d| == |c| && Terminated(c, clst + 2, slots) && c[clst] >= 0
    requires d == c[to - 2 := c[clst]][to - 1 := c[clst + 1]]
    requires NoEnd(c, to - 2) && NoneEmptyBefore(c, to - 2) && c[clst] < c[clst + 1]
    ensures NoEnd(d, to) && NoneEmptyBefore(d, to) && Terminated(d, clst + 2, slots)
    ensures ListedBefore(d, to) + Listed(d, clst + 2) == ListedBefore(c, to - 2) + (Span(c[clst], c[clst + 1]) + Listed(c, clst + 2))
  {
    assert c[..to - 2] == d[..to - 2];
    BeforeFrame(c, d, to - 2);
    assert c[clst + 2..] == d[clst + 2..];
    TerminatedFrame(c, d, clst + 2, slots);
  }

  /** What Compact has done when it reads the range at clst and clst2 entries remain. */
  ghost predicate Compacted(c: seq<int>, clst2: nat, clst: nat, slots: nat, all: seq<int>) {
    && clst2 <= clst < |c| && Terminated(c, clst, slots)
    && NoEnd(c, clst2) && NoneEmptyBefore(c, clst2) && (forall k :: 0 <= k < clst2 ==> c[k] <= slots)
    && ListedBefore(c, clst2) + Listed(c, clst) == all
  }

  lemma SkipEmpty(c: seq<int>, clst2: nat, clst: nat, slots: nat, all: seq<int>)
    requires Compacted(c, clst2, clst, slots, all) && c[clst] != NULL
    ensures clst + 2 < |c|
    ensures c[clst] >= c[clst + 1] ==> Compacted(c, clst2, clst + 2, slots, all)
  {
  }

  lemma CopyDown(c: seq<int>, clst2: nat, clst: nat, slots: nat, all: seq<int>)
    requires Compacted(c, clst2, clst, slots, all) && c[clst] != NULL && clst + 2 < |c| && c[clst] < c[clst + 1]
    ensures Compacted(c[clst2 := c[clst]][clst2 + 1 := c[clst + 1]], clst2 + 2, clst + 2, slots, all)
  {
    MovedDown(c, c[clst2 := c[clst]][clst2 + 1 := c[clst + 1]], clst2 + 2, clst, slots);
  }

  lemma CloseList(c: seq<int>, clst2: nat, clst: nat, slots: nat, all: seq<int>)
    requires Compacted(c, clst2, clst, slots, all) && c[clst] == NULL
    ensures var d := c[clst2 := NULL]; Terminated(d, 0, slots) && NoneEmpty(d, 0) && Listed(d, 0) == all
  {
    var d := c[clst2 := NULL];
    assert d[..clst2] == c[..clst2];
    BeforeFrame(c, d, clst2);
    ClosedList(d, clst2, slots);
    ListedSplit(d, clst2);
  }

  /** Deletes the empty ranges and compacts the list. */
  method Compact(cluster: array<int>, ghost slots: nat)
    requires Terminated(cluster[..], 0, slots)
    modifies cluster
    ensures Terminated(cluster[..], 0, slots) && NoneEmpty(cluster[..], 0)
    ensures Listed(cluster[..], 0) == old(Listed(cluster[..], 0))
  {
    ghost var all := Listed(cluster[..], 0);
    var clst2, clst := 0, 0;
    assert Compacted(cluster[..], 0, 0, slots, all);
    hide Terminated, NoneEmpty, Listed, ListedBefore, NoEnd, NoneEmptyBefore;
    while cluster[clst] != NULL
      invariant Compacted(cluster[..], clst2, clst, slots, all)
      decreases cluster.Length - clst
    {
      ghost var c := cluster[..];
      SkipEmpty(c, clst2, clst, slots, all);
      if cluster[clst] < cluster[clst + 1] {
        CopyDown(c, clst2, clst, slots, all);
        cluster[clst2] := cluster[clst];
        cluster[clst2 + 1] := cluster[clst + 1];
        assert cluster[..] == c[clst2 := c[clst]][clst2 + 1 := c[clst + 1]];
        clst2 := clst2 + 2;
      }
      clst := clst + 2;
    }
    CloseList(cluster[..], clst2, clst, slots, all);
    ghost var c := cluster[..];
    cluster[clst2] := NULL;
    assert cluster[..] == c[clst2 := NULL];
  }
}
