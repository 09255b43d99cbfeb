/** The packets of a group: sorted by the number of their blocks, and counted. */
module Jobs {
  /** One entry of the g_ arrays: the packet (its slot in memory), the payload's
      length and offset, its whole blocks and the bytes that remain. */
  datatype Job = Job(pkt: int, len: int, offset: int, n: int, residue: int)

  ghost predicate Sized(jobs: seq<Job>) {
    forall g :: 0 <= g < |jobs| ==> 1 <= jobs[g].n <= 23
  }

  ghost predicate Falling(jobs: seq<Job>) {
    forall g, h :: 0 <= g < h < |jobs| ==> jobs[g].n >= jobs[h].n
  }

  ghost predicate SameBag(a: seq<Job>, b: seq<Job>) { multiset(a) == multiset(b) }

  lemma SwapBag(a: seq<Job>, i: nat, j: nat)
    requires i < |a| && j < |a|
    ensures SameBag(a[i := a[j]][j := a[i]], a)
  {
    var b := a[i := a[j]];
    assert multiset(b) == multiset(a) - multiset{a[i]} + multiset{a[j]};
    assert multiset(b[j := a[i]]) == multiset(b) - multiset{b[j]} + multiset{a[i]};
  }

  lemma SwapInside(was: seq<Job>, now: seq<Job>, lo: nat, hi: nat, i: nat, j: nat)
    requires lo <= i < hi <= |was| == |now| && lo <= j < hi
    requires now[i] == was[j] && now[j] == was[i]
    requires forall k :: 0 <= k < |was| && k != i && k != j ==> now[k] == was[k]
    ensures now[..lo] == was[..lo] && now[hi..] == was[hi..] && SameBag(now[lo..hi], was[lo..hi])
  {
    hide SameBag;
    var a := was[lo..hi];
    var b := a[i - lo := a[j - lo]][j - lo := a[i - lo]];
    forall k | 0 <= k < hi - lo ensures now[lo..hi][k] == b[k] {
      assert a[k] == was[lo + k];
    }
    assert now[lo..hi] == b;
    SwapBag(a, i - lo, j - lo);
  }

  /** Exchanges two entries. */
  method Swap(g: array<Job>, lo: nat, hi: nat, i: nat, j: nat)
    requires lo <= i < hi <= g.Length && lo <= j < hi
    modifies g
    ensures g[..lo] == old(g[..lo]) && g[hi..] == old(g[hi..])
    ensures SameBag(g[lo..hi], old(g[lo..hi]))
    ensures g[i] == old(g[j]) && g[j] == old(g[i])
    ensures forall k :: 0 <= k < g.Length && k != i && k != j ==> g[k] == old(g[k])
  {
    hide SameBag;
    ghost var was := g[..];
    g[i], g[j] := g[j], g[i];
    SwapInside(was, g[..], lo, hi, i, j);
  }

  lemma SameBagSelf(a: seq<Job>)
    ensures SameBag(a, a)
  {
  }

  lemma BagTransitive(a: seq<Job>, b: seq<Job>, c: seq<Job>)
    requires SameBag(a, b) && SameBag(b, c)
    ensures SameBag(a, c)
  {
  }

  /** Moves the packets with 23 blocks to the front, from both ends inwards. */
  method Partition(g: array<Job>, grouped: nat) returns (t23: nat)
    requires grouped <= g.Length
    modifies g
    ensures t23 <= grouped && g[grouped..] == old(g[grouped..])
    ensures SameBag(g[0..grouped], old(g[0..grouped]))
    ensures forall i :: 0 <= i < t23 ==> g[i].n == 23
    ensures forall i :: t23 <= i < grouped ==> g[i].n != 23
  {
    hide SameBag;
    SameBagSelf(g[0..grouped]);
    t23 := 0;
    var tsmall: int := grouped - 1;
    while true
      invariant t23 <= grouped && -1 <= tsmall < grouped && t23 <= tsmall + 2
      invariant g[grouped..] == old(g[grouped..]) && SameBag(g[0..grouped], old(g[0..grouped]))
      invariant forall i :: 0 <= i < t23 ==> g[i].n == 23
      invariant forall i :: tsmall < i < grouped ==> g[i].n != 23
      decreases grouped - t23
    {
      while t23 < grouped && g[t23].n == 23
        invariant t23 <= grouped
        invariant forall i :: 0 <= i < t23 ==> g[i].n == 23
      {
        t23 := t23 + 1;
      }
      while tsmall >= 0 && g[tsmall].n != 23
        invariant -1 <= tsmall < grouped
        invariant forall i :: tsmall < i < grouped ==> g[i].n != 23
      {
        tsmall := tsmall - 1;
      }
      if tsmall - t23 < 1 {
        break;
      }
      ghost var was := g[0..grouped];
      Swap(g, 0, grouped, t23, tsmall);
      BagTransitive(g[0..grouped], was, old(g[0..grouped]));
      t23 := t23 + 1;
      tsmall := tsmall - 1;
    }
  }

  /** One pass of the exchange sort: the longest of the packets from i on comes
      to place i. */
  method Pass(g: array<Job>, grouped: nat, t23: nat, i: nat, ghost bound: int)
    requires t23 <= i < grouped <= g.Length
    requires forall b :: i <= b < grouped ==> g[b].n <= bound
    modifies g
    ensures forall k :: 0 <= k < g.Length && !(i <= k < grouped) ==> g[k] == old(g[k])
    ensures SameBag(g[t23..grouped], old(g[t23..grouped]))
    ensures g[i].n <= bound && forall b :: i <= b < grouped ==> g[b].n <= g[i].n
  {
    hide SameBag;
    SameBagSelf(g[t23..grouped]);
    for j := i + 1 to grouped
      invariant forall k :: 0 <= k < g.Length && !(i <= k < grouped) ==> g[k] == old(g[k])
      invariant SameBag(g[t23..grouped], old(g[t23..grouped]))
      invariant forall b :: i <= b < grouped ==> g[b].n <= bound
      invariant forall b :: i <= b < j ==> g[b].n <= g[i].n
    {
      if g[j].n > g[i].n {
        ghost var was := g[t23..grouped];
        Swap(g, t23, grouped, i, j);
        BagTransitive(g[t23..grouped], was, old(g[t23..grouped]));
      }
    }
  }

  /** The first k entries are sorted, and no later one is longer than any of them. */
  ghost predicate SortedUpTo(jobs: seq<Job>, k: nat, bound: int)
    requires k <= |jobs|
  {
    && (forall b :: k <= b < |jobs| ==> jobs[b].n <= bound)
    && (forall a :: 0 <= a < k ==> jobs[a].n >= bound)
    && forall a, b :: 0 <= a < b < k ==> jobs[a].n >= jobs[b].n
  }

  lemma SortedNext(now: seq<Job>, was: seq<Job>, k: nat, bound: int)
    requires k < |now| == |was| && SortedUpTo(was, k, bound) && now[k].n <= bound
    requires forall a :: 0 <= a < k ==> now[a] == was[a]
    requires forall b :: k <= b < |now| ==> now[b].n <= now[k].n
    ensures SortedUpTo(now, k + 1, now[k].n)
  {
  }

  /** One pass sorts one more entry. */
  method SortOne(g: array<Job>, grouped: nat, t23: nat, i: nat, ghost bound: int) returns (ghost next: int)
    requires t23 <= i < grouped <= g.Length && SortedUpTo(g[t23..grouped], i - t23, bound)
    modifies g
    ensures forall k :: 0 <= k < g.Length && !(t23 <= k < grouped) ==> g[k] == old(g[k])
    ensures SameBag(g[t23..grouped], old(g[t23..grouped]))
    ensures SortedUpTo(g[t23..grouped], i + 1 - t23, next)
  {
    hide SameBag;
    ghost var was := g[t23..grouped];
    forall b | i <= b < grouped ensures g[b].n <= bound {
      assert g[b] == was[b - t23];
    }
    Pass(g, grouped, t23, i, bound);
    SortedNext(g[t23..grouped], was, i - t23, bound);
    next := g[i].n;
  }

  /** Exchange sort of the remaining packets, longest first. */
  method SortRest(g: array<Job>, grouped: nat, t23: nat)
    requires t23 <= grouped <= g.Length
    modifies g
    ensures g[..t23] == old(g[..t23]) && g[grouped..] == old(g[grouped..])
    ensures SameBag(g[t23..grouped], old(g[t23..grouped]))
    ensures Falling(g[t23..grouped])
  {
    SameBagSelf(g[t23..grouped]);
    ghost var bound := Bound(g[t23..grouped]);
    assert SortedUpTo(g[t23..grouped], 0, bound);
    hide SameBag, Falling, SortedUpTo;
    for i := t23 to grouped
      invariant forall k :: 0 <= k < g.Length && !(t23 <= k < grouped) ==> g[k] == old(g[k])
      invariant SameBag(g[t23..grouped], old(g[t23..grouped]))
      invariant SortedUpTo(g[t23..grouped], i - t23, bound)
    {
      ghost var was := g[t23..grouped];
      bound := SortOne(g, grouped, t23, i, bound);
      BagTransitive(g[t23..grouped], was, old(g[t23..grouped]));
    }
    FallingOf(g[t23..grouped], bound);
  }

  lemma FallingOf(jobs: seq<Job>, bound: int)
    requires SortedUpTo(jobs, |jobs|, bound)
    ensures Falling(jobs)
  {
  }

  ghost function Bound(jobs: seq<Job>): (bound: int)
    ensures forall b :: 0 <= b < |jobs| ==> jobs[b].n <= bound
  {
    if jobs == [] then 0
    else
      var rest := Bound(jobs[..|jobs| - 1]);
      if jobs[|jobs| - 1].n > rest then jobs[|jobs| - 1].n else rest
  }

  lemma BagMembers(a: seq<Job>, b: seq<Job>)
    requires SameBag(a, b)
    ensures |a| == |b|
    ensures forall j :: j in a <==> j in b
  {
    assert |multiset(a)| == |multiset(b)|;
    forall j ensures j in a <==> j in b {
      assert j in multiset(a) <==> j in multiset(b);
    }
  }

  /** No two entries are for the same packet. */
  ghost predicate Distinct(jobs: seq<Job>) {
    forall g, h :: 0 <= g < h < |jobs| ==> jobs[g].pkt != jobs[h].pkt
  }

  lemma BagDistinct(a: seq<Job>, b: seq<Job>)
    requires SameBag(a, b) && Distinct(b)
    ensures Distinct(a)
  {
    BagMembers(a, b);
    forall g, h | 0 <= g < h < |a| ensures a[g].pkt != a[h].pkt {
      if a[g] == a[h] {
        assert a == a[..h] + a[h..];
        assert a[..h][g] == a[g] && a[h..][0] == a[g];
        assert multiset(b)[a[g]] >= 2;
        TwiceInBag(b, a[g]);
      } else {
        var x :| 0 <= x < |b| && b[x] == a[g];
        var y :| 0 <= y < |b| && b[y] == a[h];
      }
    }
  }

  lemma {:induction false} TwiceInBag(b: seq<Job>, j: Job)
    requires multiset(b)[j] >= 2
    ensures exists x, y :: 0 <= x < y < |b| && b[x] == j && b[y] == j
  {
    var x :| 0 <= x < |b| && b[x] == j;
    var head, tail := b[..x], b[x + 1..];
    assert b == head + [j] + tail;
    assert multiset(b)[j] == multiset(head)[j] + 1 + multiset(tail)[j];
    if multiset(head)[j] > 0 {
      assert j in head;
      var y :| 0 <= y < |head| && head[y] == j;
      assert b[y] == j;
    } else {
      assert j in tail;
      var y :| 0 <= y < |tail| && tail[y] == j;
      assert b[x + 1 + y] == j;
    }
  }

  /** Sorts the group: falling number of blocks, the full packets counted. */
  method SortGroup(g: array<Job>, grouped: nat) returns (t23: nat)
    requires grouped <= g.Length && Sized(g[0..grouped])
    modifies g
    ensures SameBag(g[0..grouped], old(g[0..grouped]))
    ensures Falling(g[0..grouped]) && Sized(g[0..grouped]) && t23 <= grouped
    ensures forall i :: 0 <= i < grouped ==> (i < t23 <==> g[i].n == 23)
  {
    hide SameBag, Falling, Sized;
    ghost var was := g[0..grouped];
    t23 := Partition(g, grouped);
    ghost var mid := g[0..grouped];
    SortRest(g, grouped, t23);
    ghost var now := g[0..grouped];
    assert now[..t23] == g[..t23] && mid[..t23] == now[..t23];
    assert now[t23..] == g[t23..grouped];
    FullFirst(now, mid, was, t23);
  }

  /** Full packets in front, the rest sorted: all sorted. */
  lemma FullFirst(now: seq<Job>, mid: seq<Job>, was: seq<Job>, t23: nat)
    requires t23 <= |now| == |mid| && now[..t23] == mid[..t23] && SameBag(now[t23..], mid[t23..]) && SameBag(mid, was)
    requires Sized(was) && Falling(now[t23..])
    requires forall i :: 0 <= i < t23 ==> mid[i].n == 23
    requires forall i :: t23 <= i < |mid| ==> mid[i].n != 23
    ensures SameBag(now, was) && Falling(now) && Sized(now)
    ensures forall i :: 0 <= i < |now| ==> (i < t23 <==> now[i].n == 23)
  {
    assert mid == mid[..t23] + mid[t23..] && now == now[..t23] + now[t23..];
    BagAppend(now[..t23], now[t23..], mid[t23..]);
    BagTransitive(now, mid, was);
    BagMembers(now, was);
    BagMembers(now[t23..], mid[t23..]);
    forall i | 0 <= i < |now| ensures 1 <= now[i].n <= 23 && (i < t23 <==> now[i].n == 23) {
      assert now[i] in was;
      if i < t23 {
        assert now[i] == now[..t23][i] == mid[..t23][i];
      } else {
        assert now[i] == now[t23..][i - t23];
        assert now[i] in mid[t23..];
        var x :| 0 <= x < |mid| - t23 && mid[t23..][x] == now[i];
      }
    }
    forall g, h | 0 <= g < h < |now| ensures now[g].n >= now[h].n {
      if g >= t23 {
        assert now[g] == now[t23..][g - t23] && now[h] == now[t23..][h - t23];
      }
    }
  }

  lemma BagAppend(a: seq<Job>, b: seq<Job>, c: seq<Job>)
    requires SameBag(b, c)
    ensures SameBag(a + b, a + c)
  {
  }

  /** How many packets have exactly v blocks, and how many more than i. */
  function CountN(jobs: seq<Job>, v: int): nat {
    if jobs == [] then 0 else CountN(jobs[..|jobs| - 1], v) + (if jobs[|jobs| - 1].n == v then 1 else 0)
  }

  function CountAbove(jobs: seq<Job>, i: int): nat {
    if jobs == [] then 0 else CountAbove(jobs[..|jobs| - 1], i) + (if jobs[|jobs| - 1].n > i then 1 else 0)
  }

  lemma {:induction false} AboveByOne(jobs: seq<Job>, i: int)
    ensures CountAbove(jobs, i) == CountAbove(jobs, i + 1) + CountN(jobs, i + 1)
  {
    if jobs != [] {
      AboveByOne(jobs[..|jobs| - 1], i);
    }
  }

  lemma {:induction false} NoneAbove23(jobs: seq<Job>)
    requires Sized(jobs)
    ensures CountAbove(jobs, 23) == 0
  {
    if jobs != [] {
      NoneAbove23(jobs[..|jobs| - 1]);
    }
  }

  /** In a falling sequence the count is the border. */
  lemma {:induction false} AboveIsBorder(jobs: seq<Job>, i: int)
    requires Falling(jobs)
    ensures CountAbove(jobs, i) <= |jobs|
    ensures forall k :: 0 <= k < |jobs| ==> (k < CountAbove(jobs, i) <==> jobs[k].n > i)
  {
    if jobs != [] {
      var init := jobs[..|jobs| - 1];
      AboveIsBorder(init, i);
      forall k | 0 <= k < |jobs| ensures k < CountAbove(jobs, i) <==> jobs[k].n > i {
        if k < |init| {
          assert init[k] == jobs[k];
        } else if |init| > 0 {
          assert init[|init| - 1] == jobs[|init| - 1];
        }
      }
    }
  }

  lemma {:induction false} CountPrefix(jobs: seq<Job>, t23: nat, v: int)
    requires t23 <= |jobs| && forall i :: 0 <= i < t23 ==> jobs[i].n == 23
    ensures CountN(jobs[..t23], v) == if v == 23 then t23 else 0
  {
    if t23 > 0 {
      CountPrefix(jobs, t23 - 1, v);
      assert jobs[..t23][..t23 - 1] == jobs[..t23 - 1];
    }
  }

  /** alive[i] packets have more than i blocks; in the sorted group these are the
      first alive[i] ones. */
  method CountAlive(g: array<Job>, grouped: nat, t23: nat) returns (alive: array<nat>)
    requires grouped <= g.Length && Sized(g[0..grouped]) && Falling(g[0..grouped]) && t23 <= grouped
    requires forall i :: 0 <= i < grouped ==> (i < t23 <==> g[i].n == 23)
    ensures fresh(alive) && alive.Length == 24 && alive[23] == 0
    ensures forall i :: 0 <= i < 24 ==> alive[i] <= grouped
    ensures forall i, k :: 0 <= i < 24 && 0 <= k < grouped ==> (k < alive[i] <==> g[k].n > i)
  {
    ghost var jobs := g[0..grouped];
    alive := new nat[24](_ => 0);
    alive[23 - 1] := t23;
    forall v | 1 <= v <= 23 ensures alive[v - 1] == CountN(jobs[..t23], v) {
      CountPrefix(jobs, t23, v);
    }
    for i := t23 to grouped
      invariant alive[23] == 0
      invariant forall v :: 1 <= v <= 23 ==> alive[v - 1] == CountN(jobs[..i], v)
    {
      alive[g[i].n - 1] := alive[g[i].n - 1] + 1;
      assert jobs[..i + 1][..i] == jobs[..i];
    }
    assert jobs[..grouped] == jobs;
    NoneAbove23(jobs);
    for i := 23 downto 0
      invariant forall v :: 1 <= v <= i ==> alive[v - 1] == CountN(jobs, v)
      invariant forall k :: i <= k < 24 ==> alive[k] == CountAbove(jobs, k)
    {
      AboveByOne(jobs, i);
      alive[i] := alive[i] + alive[i + 1];
    }
    forall i | 0 <= i < 24
      ensures alive[i] <= grouped && forall k :: 0 <= k < grouped ==> (k < alive[i] <==> g[k].n > i)
    {
      AboveIsBorder(jobs, i);
    }
  }
}
