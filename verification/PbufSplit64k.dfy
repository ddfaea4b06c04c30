/** Splitting a chain before its length would pass 64K. */
module PbufSplit64k {
  import opened Octets
  import opened PbufStore
  import opened PbufRefs
  import opened PbufChains
  import opened PbufSplits

  /** A 16-bit sum that is not smaller than what was added to did not wrap. */
  lemma NoWrap(a: nat, b: nat)
    requires a < U16 && b < U16
    ensures (a + b) % U16 >= a <==> a + b < U16
    ensures a + b < U16 ==> (a + b) % U16 == a + b
  {
  }

  /** Walks over the pbufs whose lengths still add up to less than 64K. */
  method FindFront(m: Pbufs, p: Ptr, ghost ps: seq<Ptr>) returns (i: Ptr, r: Ptr, ghost k: nat)
    requires Ranked(m.store, m.rank) && Totals(m.store) && IsPath(m.store, p, ps) && p in m.store
    ensures 0 < k <= |ps| && i == ps[k - 1] && r == if k < |ps| then ps[k] else NULL
    ensures |Flat(m.store, ps[..k])| < U16 && (k < |ps| ==> |Flat(m.store, ps[..k + 1])| >= U16)
  {
    hide Ranked, IsPath, Flat, Totals, Consecutive;
    ghost var s := m.store;
    PathConsecutive(s, m.rank, p, ps);
    LengthAt(s, p);
    FlatStep(s, ps, 0);
    FlatNone(s, ps);
    NextOf(s, m.rank, p, ps, 1);
    var totFront: nat := |m.store[p].data|;
    i, r, k := p, m.store[p].next, 1;
    while r != NULL && (totFront + |m.store[r].data|) % U16 >= totFront
      invariant 0 < k <= |ps| && i == ps[k - 1] && r == (if k < |ps| then ps[k] else NULL) && (r != NULL ==> r in s)
      invariant totFront == |Flat(s, ps[..k])| < U16
      decreases |ps| - k
    {
      LengthAt(s, r);
      NoWrap(totFront, |s[r].data|);
      FlatStep(s, ps, k);
      totFront := (totFront + |m.store[r].data|) % U16;
      i := r;
      k := k + 1;
      NextOf(s, m.rank, p, ps, k);
      r := m.store[r].next;
    }
    NullPast(s, m.rank, p, ps, k, r);
    if r != NULL {
      LengthAt(s, r);
      NoWrap(totFront, |s[r].data|);
      FlatStep(s, ps, k);
    }
  }

  lemma LengthAt(s: Store, p: Ptr)
    requires Totals(s) && p in s
    ensures |s[p].data| < U16
  {
    assert TotalAt(s, p);
  }

  /** The store with the chain `ps` cut after `k` pbufs and the totals before the cut corrected. */
  ghost function Split(s: Store, ps: seq<Ptr>, k: nat): Store
    requires 0 < k <= |ps| && ps[k - 1] in s
  {
    if k == |ps| || ps[k] !in s then s
    else
      var g := AddTotals(s, ps[..k], U16 - s[ps[k]].totLen % U16);
      var f := SetNext(g, ps[k - 1], NULL);
      if ps[0] in f && f[ps[0]].fin && ps[k] in f then f[ps[k] := f[ps[k]].(fin := true)] else f
  }

  lemma SetThenAdd(s: Store, ps: seq<Ptr>, d: nat, x: Ptr)
    requires x in s
    ensures x in AddTotals(s, ps, d) && AddTotals(SetNext(s, x, NULL), ps, d) == SetNext(AddTotals(s, ps, d), x, NULL)
  {
  }

  lemma SplitKeeps(s: Store, rank: map<Ptr, nat>, handles: multiset<Ptr>, p: Ptr, ps: seq<Ptr>, k: nat)
    requires Ranked(s, rank) && Counted(s, handles) && Totals(s) && IsPath(s, p, ps) && 0 < k < |ps|
    ensures ps[k] in s && ps[k - 1] in s && s[ps[k - 1]].next == ps[k]
    ensures Ranked(Split(s, ps, k), rank) && Counted(Split(s, ps, k), handles + Given(ps[k]))
    ensures IsPath(Split(s, ps, k), p, ps[..k]) && IsPath(Split(s, ps, k), ps[k], ps[k..])
    ensures Flat(Split(s, ps, k), ps[..k]) == Flat(s, ps[..k]) && Flat(Split(s, ps, k), ps[k..]) == Flat(s, ps[k..])
  {
    hide Ranked, Counted, Totals, IsPath, Given, AddTotals, Flat, Consecutive;
    PathConsecutive(s, rank, p, ps);
    ConsecutiveAt(s, ps, k - 1);
    var d, x, f := U16 - s[ps[k]].totLen % U16, ps[k - 1], Split(s, ps, k);
    SetNextCounted(s, handles, x, NULL);
    CutRanked(s, rank, x);
    LessNothing(handles + Given(ps[k]));
    SplitFacts(s, ps, k);
    SameLinksKeep(SetNext(s, x, NULL), f, rank, handles + Given(ps[k]));
    EndedPath(s, f, p, ps, k - 1);
    PathSuffix(s, p, ps, k);
    RestIn(s, ps, k);
    PathKept(s, f, ps[k], ps[k..]);
    FlatKept(s, f, ps[k..]);
    BeforeApart(s, ps, k);
    FlatKept(s, f, ps[..k]);
  }

  lemma RestIn(s: Store, ps: seq<Ptr>, k: nat)
    requires Consecutive(s, ps) && 0 < k <= |ps|
    ensures forall q :: q in ps[k..] ==> q in s && q != ps[k - 1]
    ensures forall j :: 0 <= j < k - 1 ==> ps[j] in s && ps[j] != ps[k - 1]
  {
  }

  lemma SplitLinks(s: Store, ps: seq<Ptr>, k: nat)
    requires 0 < k < |ps| && ps[k - 1] in s && ps[k] in s
    ensures SameLinks(SetNext(s, ps[k - 1], NULL), Split(s, ps, k))
    ensures Split(s, ps, k).Keys == s.Keys && Split(s, ps, k)[ps[k - 1]].next == NULL
    ensures forall q :: q in s && q != ps[k - 1] ==> Split(s, ps, k)[q].next == s[q].next
  {
  }

  lemma SplitRest(s: Store, ps: seq<Ptr>, k: nat)
    requires 0 < k < |ps| && ps[k - 1] in s && ps[k] in s
    ensures Split(s, ps, k).Keys == s.Keys
    ensures forall q :: q in s ==> Split(s, ps, k)[q].data == s[q].data
    ensures forall q :: q in s && q !in ps[..k] ==> Split(s, ps, k)[q].totLen == s[q].totLen
    ensures ps[0] in s && ps[k] != ps[0] ==> Split(s, ps, k)[ps[k]].fin == (s[ps[k]].fin || s[ps[0]].fin)
  {
  }

  lemma SplitFacts(s: Store, ps: seq<Ptr>, k: nat)
    requires 0 < k < |ps| && ps[k - 1] in s && ps[k] in s
    ensures SameLinks(SetNext(s, ps[k - 1], NULL), Split(s, ps, k))
    ensures Split(s, ps, k).Keys == s.Keys && Split(s, ps, k)[ps[k - 1]].next == NULL
    ensures forall q :: q in s ==> Split(s, ps, k)[q].data == s[q].data
    ensures forall q :: q in s && q != ps[k - 1] ==> Split(s, ps, k)[q].next == s[q].next
    ensures forall q :: q in s && q !in ps[..k] ==> Split(s, ps, k)[q].totLen == s[q].totLen
    ensures ps[0] in s && ps[k] != ps[0] ==> Split(s, ps, k)[ps[k]].fin == (s[ps[k]].fin || s[ps[0]].fin)
  {
    hide Split, SameLinks, SetNext;
    SplitLinks(s, ps, k);
    SplitRest(s, ps, k);
  }

  lemma SplitIs(s: Store, ps: seq<Ptr>, k: nat)
    requires 0 < k < |ps| && ps[k - 1] in s && ps[k] in s
    ensures ps[k - 1] in AddTotals(s, ps[..k], U16 - s[ps[k]].totLen % U16)
    ensures var f := SetNext(AddTotals(s, ps[..k], U16 - s[ps[k]].totLen % U16), ps[k - 1], NULL);
      Split(s, ps, k) == if ps[0] in f && f[ps[0]].fin && ps[k] in f then f[ps[k] := f[ps[k]].(fin := true)] else f
  {
  }

  /** Totals are right after the split if and only if no other pbuf links into the
      front or the rest has a total of 0. */
  lemma SplitTotalsIff(s: Store, rank: map<Ptr, nat>, p: Ptr, ps: seq<Ptr>, k: nat)
    requires Ranked(s, rank) && Totals(s) && IsPath(s, p, ps) && 0 < k < |ps| && ps[k - 1] in s && ps[k] in s
    ensures Totals(Split(s, ps, k)) <==> Headed(s, ps[..k]) || s[ps[k]].totLen == 0
  {
    hide AddTotals, SetNext, Totals, Headed, Consecutive, TotalFrom, Split, Ranked, IsPath;
    SplitIs(s, ps, k);
    var fs, t := ps[..k], s[ps[k]].totLen;
    var d := U16 - t % U16;
    TotalSmall(s, ps[k]);
    PathConsecutive(s, rank, p, ps);
    NextPast(s, rank, p, ps, k - 1);
    FrontRuns(s, ps, k);
    AddTotalsNone(s, fs, d);
    NoTotal(s);
    Complement(t);
    SplicedTotalsIff(s, fs, NULL, d);
    var f := SetNext(AddTotals(s, fs, d), ps[k - 1], NULL);
    if ps[0] in f && f[ps[0]].fin && ps[k] in f {
      FinTotals(f, ps[k]);
    }
  }

  lemma SplitElsewhere(s: Store, ps: seq<Ptr>, k: nat)
    requires 0 < k < |ps| && ps[k - 1] in s && ps[k] in s
    ensures forall x :: x in s && x !in ps ==> x in Split(s, ps, k) && Split(s, ps, k)[x] == s[x]
    ensures ps[k] !in ps[..k] ==> Split(s, ps, k)[ps[k]].totLen == s[ps[k]].totLen
  {
    assert ps[k] in ps && ps[k - 1] in ps && forall x :: x in ps[..k] ==> x in ps;
  }

  lemma Complement(x: nat)
    requires x < U16
    ensures (x + (U16 - x % U16)) % U16 == 0
    ensures (U16 - x % U16) % U16 == 0 <==> x == 0
  {
  }

  lemma NoTotal(s: Store)
    requires NULL !in s
    ensures TotalFrom(s, NULL) == 0
  {
  }

  lemma FrontRuns(s: Store, ps: seq<Ptr>, k: nat)
    requires Consecutive(s, ps) && 0 < k < |ps| && NULL !in s && ps[k - 1] in s
    ensures Consecutive(s, ps[..k]) && NULL !in ps[..k] && s[ps[k - 1]].next == ps[k]
  {
  }

  lemma FinTotals(s: Store, r: Ptr)
    requires r in s
    ensures Totals(s[r := s[r].(fin := true)]) <==> Totals(s)
  {
    var t := s[r := s[r].(fin := true)];
    forall p | p in s
      ensures p in t && (TotalAt(t, p) <==> TotalAt(s, p))
    {
    }
  }

  /** In a chain of less than 64K tot_len is the exact length from each pbuf on. */
  lemma ExactTotals(s: Store, p: Ptr, ps: seq<Ptr>, j: nat)
    requires Totals(s) && IsPath(s, p, ps) && |Flat(s, ps)| < U16 && j < |ps|
    ensures ps[j] in s && s[ps[j]].totLen == |Flat(s, ps[j..])|
  {
    hide IsPath, Flat, Totals;
    PathIn(s, p, ps);
    PathSuffix(s, p, ps, j);
    TotalOfPath(s, ps[j], ps[j..]);
    Halves(s, ps, j);
  }

  /** The assignments of the split behind `i`, the last of the first `k` pbufs. */
  method CutAt(m: Pbufs, p: Ptr, i: Ptr, r: Ptr, ghost ps: seq<Ptr>, ghost k: nat)
    requires Consecutive(m.store, ps) && 0 < k < |ps| && p == ps[0] && i == ps[k - 1] && r == ps[k]
    requires NULL !in m.store && i in m.store && r in m.store && m.store[r].totLen < U16
    modifies m`store
    ensures m.store == Split(old(m.store), ps, k)
  {
    hide Consecutive, AddTotals, SetNext, Split;
    ghost var s, d := m.store, U16 - m.store[r].totLen;
    SetNextCode(s, i);
    m.store := m.store[i := m.store[i].(next := NULL)];
    CutRun(s, ps, k);
    SetThenAdd(s, ps[..k], d, i);
    RestIn(s, ps, k);
    SetNextFacts(s, i, NULL);
    var _ := AddToAll(m, p, U16 - m.store[r].totLen, ps[..k]);
    assert m.store == SetNext(AddTotals(s, ps[..k], d), i, NULL);
    AddTotalsNone(SetNext(s, i, NULL), ps[..k], d);
    ConsecutiveAt(s, ps, 0);
    SplitCode(s, ps, k);
    if m.store[p].fin {
      m.store := m.store[r := m.store[r].(fin := true)];
    }
  }

  lemma SplitCode(s: Store, ps: seq<Ptr>, k: nat)
    requires 0 < k < |ps| && ps[k - 1] in s && ps[k] in s && ps[0] in s && s[ps[k]].totLen < U16
    requires ps[k - 1] in AddTotals(s, ps[..k], U16 - s[ps[k]].totLen)
    ensures var f := SetNext(AddTotals(s, ps[..k], U16 - s[ps[k]].totLen), ps[k - 1], NULL);
      ps[0] in f && ps[k] in f && Split(s, ps, k) == if f[ps[0]].fin then f[ps[k] := f[ps[k]].(fin := true)] else f
  {
  }

  lemma CutRun(s: Store, ps: seq<Ptr>, k: nat)
    requires Consecutive(s, ps) && 0 < k < |ps| && NULL !in s && ps[k - 1] in s
    ensures ps[..k] != [] && ps[..k][0] == ps[0] && ps[..k][k - 1] == ps[k - 1] && ps[k] != ps[k - 1]
    ensures Consecutive(SetNext(s, ps[k - 1], NULL), ps[..k]) && NULL !in SetNext(s, ps[k - 1], NULL)
  {
    RestIn(s, ps, k);
    assert ps[k..][0] == ps[k];
  }

  lemma Whole(s: Store, ps: seq<Ptr>)
    ensures ps[..|ps|] == ps && ps + [] == ps && Flat(s, ps) + [] == Flat(s, ps) && Flat(s, []) == []
  {
  }

  lemma Halves(s: Store, ps: seq<Ptr>, k: nat)
    requires k <= |ps|
    ensures ps == ps[..k] + ps[k..] && Flat(s, ps) == Flat(s, ps[..k]) + Flat(s, ps[k..])
  {
    FlatConcat(s, ps[..k], ps[k..]);
    assert ps == ps[..k] + ps[k..];
  }

  lemma ShortChain(s: Store, rank: map<Ptr, nat>, p: Ptr, ps: seq<Ptr>)
    requires Ranked(s, rank) && Totals(s) && IsPath(s, p, ps) && (p in s ==> s[p].next == NULL)
    ensures |Flat(s, ps)| < U16
  {
    if p in s {
      assert TotalAt(s, p);
      assert ps[1..] == [];
    }
  }

  lemma NullPath(s: Store, rank: map<Ptr, nat>)
    requires Ranked(s, rank)
    ensures PathOf(s, rank, NULL) == []
  {
  }

  /** pbuf_split_64k: keeps in `p` as many whole pbufs as make less than 64K and
      hands the rest to the caller. */
  method Split64k(m: Pbufs, p: Ptr) returns (rest: Ptr)
    requires m.Valid() && Totals(m.store) && (p == NULL || p in m.store)
    modifies m
    ensures m.Valid() && m.handles == old(m.handles) + Given(rest)
    ensures old(m.Path(p)) == m.Path(p) + m.Path(rest) && old(m.Contents(p)) == m.Contents(p) + m.Contents(rest)
    ensures |m.Contents(p)| < U16
    ensures rest == NULL ==> m.store == old(m.store)
    ensures rest != NULL ==> rest in m.store && |m.Contents(p)| + |m.store[rest].data| >= U16
    ensures rest != NULL ==> rest in old(m.store) && p in old(m.store)
    ensures rest != NULL ==> m.store[rest].fin == (old(m.store)[rest].fin || old(m.store)[p].fin)
    ensures rest != NULL ==> (Totals(m.store) <==> Headed(old(m.store), m.Path(p)) || m.store[rest].totLen == 0)
    ensures forall x :: x in old(m.store) && x !in old(m.Path(p)) ==> x in m.store && m.store[x] == old(m.store)[x]
  {
    hide Counted, Ranked, IsPath, Totals, Headed, Given, Flat, PathOf, Split, Consecutive, SetNext, SameLinks, Alike;
    ghost var s, rk, ps := m.store, m.rank, m.Path(p);
    rest := NULL;
    NullOutside(s, rk, m.handles);
    NullPath(s, rk);
    NoHandle(m.handles);
    PathConsecutive(s, rk, p, ps);
    Whole(s, ps);
    if p == NULL || m.store[p].next == NULL {
      ShortChain(s, rk, p, ps);
      return;
    }
    var i, r;
    ghost var k;
    i, r, k := FindFront(m, p, ps);
    NullPast(s, rk, p, ps, k, r);
    if r == NULL {
      NextOf(s, rk, p, ps, k);
      SetNextSame(s, i);
      m.store := m.store[i := m.store[i].(next := NULL)];
      return;
    }
    SplitKeeps(s, rk, m.handles, p, ps, k);
    SplitFacts(s, ps, k);
    ConsecutiveApart(s, ps, 0, k);
    TotalSmall(s, r);
    Halves(s, ps, k);
    FlatStep(s, ps, k);
    SplitTotalsIff(s, rk, p, ps, k);
    SplitElsewhere(s, ps, k);
    CutAt(m, p, i, r, ps, k);
    m.handles := m.handles + Given(r);
    rest := r;
    PathUnique(m.store, p, m.Path(p), ps[..k]);
    PathUnique(m.store, r, m.Path(r), ps[k..]);
  }

  lemma SetNextSame(s: Store, i: Ptr)
    requires i in s && s[i].next == NULL
    ensures s[i := s[i].(next := NULL)] == s
  {
  }
}
