/**
  * addrsort(): the addresses of a host are put in the order of the sort list of the resolver, by an
  * insertion sort that only starts at the first address out of order.
  */
module AddrSort {
  const MAX_ADDRS := 35

  /** An entry of the address list: where it points and the address found there. */
  datatype HostAddr = HostAddr(at: nat, addr: bv32)

  datatype SortNet = SortNet(addr: bv32, mask: bv32)

  predicate Matches(e: HostAddr, n: SortNet) {
    n.addr == e.addr & n.mask
  }

  /** The bits in which address a is not as net n wants it: those of the mask that differ, and those n has outside it. */
  function Strays(a: bv32, n: bv32, mask: bv32): bv32 {
    ((a ^ n) & mask) | (n & !mask)
  }

  function Missed(a: bv32, n: bv32, mask: bv32): bv32 {
    n ^ (a & mask)
  }

  lemma MissedAreStrays(a: bv32, n: bv32, mask: bv32)
    ensures Missed(a, n, mask) == Strays(a, n, mask)
  {
    StraysAre(a, n, mask);
  }

  lemma StraysAre(a: bv32, n: bv32, mask: bv32)
    ensures n ^ (a & mask) == ((a ^ n) & mask) | (n & !mask)
  {
  }

  lemma XorTells(x: bv32, y: bv32)
    ensures x ^ y == 0 <==> x == y
  {
  }

  lemma MissesNone(a: bv32, n: bv32, mask: bv32)
    ensures Missed(a, n, mask) == 0 <==> n == a & mask
  {
    XorTells(n, a & mask);
  }

  /** An address is in a net if it has no such bits. */
  lemma MatchesByBits(e: HostAddr, n: SortNet)
    ensures Matches(e, n) <==> Strays(e.addr, n.addr, n.mask) == 0
  {
    hide Missed, Strays;
    MissedAreStrays(e.addr, n.addr, n.mask);
    MissesNone(e.addr, n.addr, n.mask);
  }

  /** The index of the first net the address is in, or the number of nets. */
  function Rank(e: HostAddr, nets: seq<SortNet>): (r: nat)
    ensures r <= |nets|
    ensures r < |nets| ==> Matches(e, nets[r])
    ensures forall j :: 0 <= j < r ==> !Matches(e, nets[j])
  {
    if nets == [] || Matches(e, nets[0]) then 0 else 1 + Rank(e, nets[1..])
  }

  function OfRank(e: HostAddr, nets: seq<SortNet>, r: nat): seq<HostAddr> {
    if Rank(e, nets) == r then [e] else []
  }

  /** The entries of one rank, in the order they have in s. */
  function Group(s: seq<HostAddr>, nets: seq<SortNet>, r: nat): seq<HostAddr> {
    if s == [] then []
    else Group(s[..|s| - 1], nets, r) + OfRank(s[|s| - 1], nets, r)
  }

  /** The entries of rank less than r, rank by rank, each in the order they have in s. */
  function ByRank(s: seq<HostAddr>, nets: seq<SortNet>, r: nat): seq<HostAddr> {
    if r == 0 then [] else ByRank(s, nets, r - 1) + Group(s, nets, r - 1)
  }

  /** The whole list in the order asked for. */
  function Arranged(s: seq<HostAddr>, nets: seq<SortNet>): seq<HostAddr> {
    ByRank(s, nets, |nets| + 1)
  }

  predicate Ordered(s: seq<HostAddr>, nets: seq<SortNet>) {
    forall i, j :: 0 <= i < j < |s| ==> Rank(s[i], nets) <= Rank(s[j], nets)
  }

  ghost predicate SameGroups(s: seq<HostAddr>, t: seq<HostAddr>, nets: seq<SortNet>) {
    forall r: nat :: Group(s, nets, r) == Group(t, nets, r)
  }

  // Groups

  lemma GroupSnoc(s: seq<HostAddr>, e: HostAddr, nets: seq<SortNet>, r: nat)
    ensures Group(s + [e], nets, r) == Group(s, nets, r) + OfRank(e, nets, r)
  {
    hide OfRank;
    assert (s + [e])[..|s|] == s;
  }

  lemma {:induction false} GroupOfConcat(s: seq<HostAddr>, t: seq<HostAddr>, nets: seq<SortNet>, r: nat)
    ensures Group(s + t, nets, r) == Group(s, nets, r) + Group(t, nets, r)
  {
    assert Group([], nets, r) == [];
    hide OfRank, Group;
    if t == [] {
      assert s + t == s;
    } else {
      var front, e := t[..|t| - 1], t[|t| - 1];
      assert t == front + [e] && s + t == (s + front) + [e];
      GroupOfConcat(s, front, nets, r);
      GroupSnoc(s + front, e, nets, r);
      GroupSnoc(front, e, nets, r);
    }
  }

  /** Two neighbours of different rank make the same groups either way round. */
  lemma PairGroups(x: HostAddr, y: HostAddr, nets: seq<SortNet>, r: nat)
    requires Rank(x, nets) != Rank(y, nets)
    ensures Group([x, y], nets, r) == Group([y, x], nets, r)
  {
    hide Rank;
    assert [x, y] == ([] + [x]) + [y] && [y, x] == ([] + [y]) + [x];
    GroupSnoc([] + [x], y, nets, r);
    GroupSnoc([] + [y], x, nets, r);
    GroupSnoc([], x, nets, r);
    GroupSnoc([], y, nets, r);
  }

  function Swapped<T>(s: seq<T>, j: nat): seq<T>
    requires j + 1 < |s|
  {
    s[j := s[j + 1]][j + 1 := s[j]]
  }

  /** Neighbours of different rank can be swapped without disturbing any group. */
  lemma SwapKeepsGroups(s: seq<HostAddr>, nets: seq<SortNet>, j: nat)
    requires j + 1 < |s| && Rank(s[j], nets) != Rank(s[j + 1], nets)
    ensures SameGroups(Swapped(s, j), s, nets)
  {
    hide Rank, Group;
    var t := Swapped(s, j);
    var x, y := s[j], s[j + 1];
    assert s == s[..j] + ([x, y] + s[j + 2..]);
    assert t == s[..j] + ([y, x] + s[j + 2..]);
    forall r: nat
      ensures Group(t, nets, r) == Group(s, nets, r)
    {
      GroupOfConcat(s[..j], [x, y] + s[j + 2..], nets, r);
      GroupOfConcat(s[..j], [y, x] + s[j + 2..], nets, r);
      GroupOfConcat([x, y], s[j + 2..], nets, r);
      GroupOfConcat([y, x], s[j + 2..], nets, r);
      PairGroups(x, y, nets, r);
    }
  }

  lemma Itself(s: seq<HostAddr>, nets: seq<SortNet>)
    ensures SameGroups(s, s, nets)
  {
  }

  lemma SameGroupsTrans(s: seq<HostAddr>, t: seq<HostAddr>, u: seq<HostAddr>, nets: seq<SortNet>)
    requires SameGroups(s, t, nets) && SameGroups(t, u, nets)
    ensures SameGroups(s, u, nets)
  {
  }

  lemma {:induction false} SameGroupsArrangeAlike(s: seq<HostAddr>, t: seq<HostAddr>, nets: seq<SortNet>, r: nat)
    requires SameGroups(s, t, nets)
    ensures ByRank(s, nets, r) == ByRank(t, nets, r)
  {
    if r > 0 {
      SameGroupsArrangeAlike(s, t, nets, r - 1);
    }
  }

  // The arrangement

  /** A new last entry does not show among the ranks below its own. */
  lemma {:induction false} ArrangeSnoc(s: seq<HostAddr>, e: HostAddr, nets: seq<SortNet>, r: nat)
    requires Rank(e, nets) >= r
    ensures ByRank(s + [e], nets, r) == ByRank(s, nets, r)
  {
    hide Rank, Group;
    if r > 0 {
      ArrangeSnoc(s, e, nets, r - 1);
      GroupSnoc(s, e, nets, r - 1);
    }
  }

  lemma {:induction false} EmptyArranged(nets: seq<SortNet>, r: nat)
    ensures ByRank([], nets, r) == []
  {
    if r > 0 {
      EmptyArranged(nets, r - 1);
    }
  }

  lemma {:induction false} NoGroupBeyond(s: seq<HostAddr>, nets: seq<SortNet>, k: nat, r: nat)
    requires forall i :: 0 <= i < |s| ==> Rank(s[i], nets) < k
    requires r >= k
    ensures Group(s, nets, r) == []
  {
    hide Rank;
    if s != [] {
      NoGroupBeyond(s[..|s| - 1], nets, k, r);
    }
  }

  lemma {:induction false} NoneBeyond(s: seq<HostAddr>, nets: seq<SortNet>, k: nat, r: nat)
    requires forall i :: 0 <= i < |s| ==> Rank(s[i], nets) < k
    requires r >= k
    ensures ByRank(s, nets, r) == ByRank(s, nets, k)
  {
    hide Rank, Group;
    if r > k {
      NoneBeyond(s, nets, k, r - 1);
      NoGroupBeyond(s, nets, k, r - 1);
    }
  }

  lemma JoinSnoc(a: seq<HostAddr>, b: seq<HostAddr>, e: HostAddr)
    ensures a + (b + [e]) == (a + b) + [e]
  {
  }

  /** A list already in order is its own arrangement. */
  lemma {:induction false} OrderedIsArranged(s: seq<HostAddr>, nets: seq<SortNet>, r: nat)
    requires Ordered(s, nets)
    requires forall i :: 0 <= i < |s| ==> Rank(s[i], nets) < r
    ensures ByRank(s, nets, r) == s
  {
    hide Rank, Group;
    if s == [] {
      EmptyArranged(nets, r);
    } else {
      var e, rest := s[|s| - 1], s[..|s| - 1];
      var k := Rank(e, nets);
      assert s == rest + [e];
      OrderedIsArranged(rest, nets, k + 1);
      ArrangeSnoc(rest, e, nets, k);
      GroupSnoc(rest, e, nets, k);
      NoneBeyond(s, nets, k + 1, r);
      JoinSnoc(ByRank(rest, nets, k), Group(rest, nets, k), e);
    }
  }

  lemma {:induction false} AllOfRank(s: seq<HostAddr>, nets: seq<SortNet>, r: nat)
    ensures forall i :: 0 <= i < |Group(s, nets, r)| ==> Rank(Group(s, nets, r)[i], nets) == r
  {
    hide Rank;
    if s != [] {
      AllOfRank(s[..|s| - 1], nets, r);
    }
  }

  lemma {:induction false} ByRankOrdered(s: seq<HostAddr>, nets: seq<SortNet>, r: nat)
    ensures Ordered(ByRank(s, nets, r), nets)
    ensures forall i :: 0 <= i < |ByRank(s, nets, r)| ==> Rank(ByRank(s, nets, r)[i], nets) < r
  {
    hide Rank, Group;
    if r > 0 {
      ByRankOrdered(s, nets, r - 1);
      AllOfRank(s, nets, r - 1);
    }
  }

  lemma {:induction false} ByRankCount(s: seq<HostAddr>, nets: seq<SortNet>, r: nat, e: HostAddr)
    ensures multiset(ByRank(s, nets, r))[e] == if Rank(e, nets) < r then multiset(s)[e] else 0
  {
    hide Rank, Group;
    if r > 0 {
      ByRankCount(s, nets, r - 1, e);
      GroupCount(s, nets, r - 1, e);
    }
  }

  lemma {:induction false} GroupCount(s: seq<HostAddr>, nets: seq<SortNet>, r: nat, e: HostAddr)
    ensures multiset(Group(s, nets, r))[e] == if Rank(e, nets) == r then multiset(s)[e] else 0
  {
    hide Rank;
    if s != [] {
      assert s == s[..|s| - 1] + [s[|s| - 1]];
      GroupCount(s[..|s| - 1], nets, r, e);
    }
  }

  /** The arrangement is an ordered permutation of the list. */
  lemma ArrangedIsOrderedPermutation(s: seq<HostAddr>, nets: seq<SortNet>)
    ensures Ordered(Arranged(s, nets), nets)
    ensures multiset(Arranged(s, nets)) == multiset(s)
  {
    ByRankOrdered(s, nets, |nets| + 1);
    forall e: HostAddr
      ensures multiset(Arranged(s, nets))[e] == multiset(s)[e]
    {
      ByRankCount(s, nets, |nets| + 1, e);
    }
  }

  /** It is the only ordered list with the groups of s: order and stability leave no choice. */
  lemma ArrangedIsTheOnlyOne(s: seq<HostAddr>, t: seq<HostAddr>, nets: seq<SortNet>)
    ensures Ordered(t, nets) && SameGroups(t, s, nets) ==> t == Arranged(s, nets)
  {
    if Ordered(t, nets) && SameGroups(t, s, nets) {
      OrderedIsArranged(t, nets, |nets| + 1);
      SameGroupsArrangeAlike(t, s, nets, |nets| + 1);
    }
  }

  /** Exactly the lists already in order are left as they are. */
  lemma OrderedIsUntouched(s: seq<HostAddr>, nets: seq<SortNet>)
    ensures Arranged(s, nets) == s <==> Ordered(s, nets)
  {
    ArrangedIsOrderedPermutation(s, nets);
    ArrangedIsTheOnlyOne(s, s, nets);
  }

  // The sort

  method FirstMatch(e: HostAddr, nets: seq<SortNet>) returns (j: nat)
    ensures j == Rank(e, nets)
  {
    j := 0;
    while j < |nets| && !Matches(e, nets[j])
      invariant j <= |nets|
      invariant forall k :: 0 <= k < j ==> !Matches(e, nets[k])
    {
      j := j + 1;
    }
  }

  /** The values v are the ranks of the first n entries of s. */
  ghost predicate Valued(s: seq<HostAddr>, v: seq<nat>, n: nat, nets: seq<SortNet>) {
    n <= |s| && n <= |v| && forall k :: 0 <= k < n ==> v[k] == Rank(s[k], nets)
  }

  ghost predicate Rising(v: seq<nat>, n: nat) {
    n <= |v| && forall k, l :: 0 <= k < l < n ==> v[k] <= v[l]
  }

  /** The first n values rise but for the one at p, which is less than all behind it. */
  ghost predicate Sinking(v: seq<nat>, n: nat, p: nat) {
    && p < n <= |v|
    && (forall k, l :: 0 <= k < l < n && k != p && l != p ==> v[k] <= v[l])
    && (forall l :: p < l < n ==> v[p] < v[l])
  }

  lemma StartSinking(v: seq<nat>, n: nat)
    requires Rising(v, n) && n < |v|
    ensures Sinking(v, n + 1, n)
  {
  }

  lemma SinkOn(v: seq<nat>, n: nat, j: nat)
    requires Sinking(v, n, j + 1) && v[j] > v[j + 1]
    ensures Sinking(Swapped(v, j), n, j)
  {
  }

  lemma Settled(v: seq<nat>, n: nat, p: nat)
    requires Sinking(v, n, p) && (p > 0 ==> v[p - 1] <= v[p])
    ensures Rising(v, n)
  {
    forall k, l | 0 <= k < l < n
      ensures v[k] <= v[l]
    {
      if l == p && k < p - 1 {
        assert v[k] <= v[p - 1];
      }
    }
  }

  lemma SwapKeepsValues(s: seq<HostAddr>, v: seq<nat>, n: nat, nets: seq<SortNet>, j: nat)
    requires Valued(s, v, n, nets) && j + 1 < n
    ensures Valued(Swapped(s, j), Swapped(v, j), n, nets)
  {
    hide Rank;
  }

  method Swap<T>(a: array<T>, j: nat)
    requires j + 1 < a.Length
    modifies a
    ensures a[..] == Swapped(old(a[..]), j)
  {
    a[j], a[j + 1] := a[j + 1], a[j];
  }

  lemma SwapInPrefix(s: seq<HostAddr>, nets: seq<SortNet>, num: nat, j: nat)
    requires j + 1 < num <= |s| && Rank(s[j], nets) != Rank(s[j + 1], nets)
    ensures SameGroups(Swapped(s, j)[..num], s[..num], nets)
    ensures Swapped(s, j)[num..] == s[num..]
  {
    hide Rank, SameGroups;
    SwapKeepsGroups(s[..num], nets, j);
    assert Swapped(s, j)[..num] == Swapped(s[..num], j);
  }

  /** Let entry n sink to its place among the n before it. */
  method Insert(ap: array<HostAddr>, aval: array<nat>, num: nat, n: nat, nets: seq<SortNet>)
    requires 0 < n < num <= ap.Length && num <= aval.Length
    requires Valued(ap[..], aval[..], num, nets) && Rising(aval[..], n)
    modifies ap, aval
    ensures Valued(ap[..], aval[..], num, nets) && Rising(aval[..], n + 1)
    ensures SameGroups(ap[..num], old(ap[..num]), nets)
    ensures ap[num..] == old(ap[num..])
  {
    hide Rank, SameGroups, Group, Sinking, Rising, Valued, Swapped;
    Itself(ap[..num], nets);
    StartSinking(aval[..], n);
    var j: int := n - 1;
    while j >= 0 && aval[j] > aval[j + 1]
      invariant -1 <= j < n
      invariant Valued(ap[..], aval[..], num, nets) && Sinking(aval[..], n + 1, j + 1)
      invariant SameGroups(ap[..num], old(ap[..num]), nets)
      invariant ap[num..] == old(ap[num..])
    {
      ghost var s := ap[..];
      assert s[j] == ap[j] && s[..num] == ap[..num] && s[num..] == ap[num..];
      ValuesDiffer(s, aval[..], num, nets, j);
      SwapInPrefix(s, nets, num, j);
      SwapKeepsValues(s, aval[..], num, nets, j);
      SinkOn(aval[..], n + 1, j);
      Swap(aval, j);
      Swap(ap, j);
      assert ap[..num] == ap[..][..num] && ap[num..] == ap[..][num..];
      SameGroupsTrans(ap[..num], s[..num], old(ap[..num]), nets);
      j := j - 1;
    }
    Settled(aval[..], n + 1, j + 1);
  }

  lemma ValuesDiffer(s: seq<HostAddr>, v: seq<nat>, n: nat, nets: seq<SortNet>, j: nat)
    requires Valued(s, v, n, nets) && j + 1 < n && v[j] > v[j + 1]
    ensures Rank(s[j], nets) != Rank(s[j + 1], nets)
  {
    hide Rank;
  }

  lemma RisingIsOrdered(s: seq<HostAddr>, v: seq<nat>, n: nat, nets: seq<SortNet>)
    requires Valued(s, v, n, nets) && Rising(v, n)
    ensures Ordered(s[..n], nets)
  {
    hide Rank;
  }

  /** addrsort(): order the first num entries of ap. */
  method Sort(ap: array<HostAddr>, num: nat, nets: seq<SortNet>)
    requires num <= ap.Length && num <= MAX_ADDRS
    modifies ap
    ensures ap[..num] == Arranged(old(ap[..num]), nets)
    ensures ap[num..] == old(ap[num..])
  {
    hide Rank, Group, Arranged, SameGroups, Ordered;
    ghost var s := ap[..num];
    Itself(s, nets);
    var aval := new nat[MAX_ADDRS];
    var needSort, i: nat := 0, 0;
    while i < num
      invariant i <= num && ap[..num] == s && ap[num..] == old(ap[num..])
      invariant Valued(ap[..], aval[..], i, nets)
      invariant needSort == 0 ==> Rising(aval[..], i)
      invariant needSort != 0 ==> needSort < i && Rising(aval[..], needSort)
      modifies aval
    {
      aval[i] := FirstMatch(ap[i], nets);
      if needSort == 0 && i > 0 && aval[i] < aval[i - 1] {
        needSort := i;
      }
      i := i + 1;
    }
    if needSort != 0 {
      hide Valued, Rising;
      while needSort < num
        invariant 0 < needSort <= num
        invariant Valued(ap[..], aval[..], num, nets) && Rising(aval[..], needSort)
        invariant SameGroups(ap[..num], s, nets)
        invariant ap[num..] == old(ap[num..])
      {
        ghost var t := ap[..num];
        Insert(ap, aval, num, needSort, nets);
        SameGroupsTrans(ap[..num], t, s, nets);
        needSort := needSort + 1;
      }
    }
    assert ap[..num] == ap[..][..num];
    RisingIsOrdered(ap[..], aval[..], num, nets);
    ArrangedIsTheOnlyOne(s, ap[..num], nets);
  }
}
