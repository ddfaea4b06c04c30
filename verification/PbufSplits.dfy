/** Shortening and splitting chains of packet buffers. */
module PbufSplits {
  import opened Octets
  import opened PbufStore
  import opened PbufRefs
  import opened PbufChains

  /** Nothing links to `p`. */
  ghost predicate Root(s: Store, p: Ptr) {
    forall q :: q in s ==> s[q].next != p
  }

  /** The pbuf at `p` cut off from what follows, with `data` for its bytes. */
  ghost function Ended(s: Store, p: Ptr, data: seq<Byte>): Store
    requires p in s
  {
    s[p := s[p].(next := NULL, data := data, totLen := |data|)]
  }

  /** Ending a chain at `p` turns the link to the next pbuf into a handle. */
  lemma EndedCounts(s: Store, rank: map<Ptr, nat>, handles: multiset<Ptr>, p: Ptr, data: seq<Byte>)
    requires Ranked(s, rank) && Counted(s, handles) && p in s
    ensures Ranked(Ended(s, p, data), rank) && Counted(Ended(s, p, data), handles + Given(s[p].next))
  {
    hide Ranked, Counted, Given, SetNext;
    RankedAt(s, rank, p);
    GivenNull();
    SetNextFacts(s, p, NULL);
    SetNextCounted(s, handles, p, NULL);
    CutRanked(s, rank, p);
    LessNothing(handles + Given(s[p].next));
    SameLinksKeep(SetNext(s, p, NULL), Ended(s, p, data), rank, handles + Given(s[p].next));
  }

  lemma RankedAt(s: Store, rank: map<Ptr, nat>, p: Ptr)
    requires Ranked(s, rank) && p in s
    ensures NULL !in s && (s[p].next == NULL || (s[p].next in s && s[p].next != p))
  {
  }

  lemma LessNothing(handles: multiset<Ptr>)
    ensures handles - Given(NULL) == handles
  {
  }

  lemma EndedTotals(s: Store, p: Ptr, data: seq<Byte>)
    requires Totals(s) && p in s && Root(s, p) && |data| < U16 && NULL !in s
    ensures Totals(Ended(s, p, data))
  {
    var t := Ended(s, p, data);
    forall q | q in t
      ensures TotalAt(t, q)
    {
      assert TotalAt(s, q);
    }
  }

  /** Ending `p` keeps the totals right if and only if nothing links to it or its own
      total stays what it was. */
  lemma EndedTotalsIff(s: Store, rank: map<Ptr, nat>, p: Ptr, data: seq<Byte>)
    requires Ranked(s, rank) && Totals(s) && p in s && |data| < U16
    ensures Totals(Ended(s, p, data)) <==> Root(s, p) || s[p].totLen == |data|
    ensures !Totals(Ended(s, p, data)) ==> exists q :: BrokenAt(Ended(s, p, data), p, q)
  {
    var t := Ended(s, p, data);
    RankedAt(s, rank, p);
    if Root(s, p) {
      EndedTotals(s, p, data);
    } else if s[p].totLen == |data| {
      forall q | q in t
        ensures TotalAt(t, q)
      {
        assert TotalAt(s, q);
      }
    } else {
      var q :| q in s && s[q].next == p;
      assert TotalAt(s, q) && TotalAt(s, p);
      EndedSum(|s[q].data|, s[p].totLen, |data|);
      assert BrokenAt(t, p, q);
    }
  }

  lemma EndedSum(len: nat, tot: nat, n: nat)
    requires tot < U16 && n < U16 && tot != n
    ensures (len + tot) % U16 != (len + n) % U16
  {
    if tot < n {
      MovedSum(len, tot, n - tot);
      ModInner(len, n);
    } else {
      MovedSum(len, n, tot - n);
      ModInner(len, tot);
    }
  }

  /** `q` links to `p` and its total is wrong. */
  ghost predicate BrokenAt(s: Store, p: Ptr, q: Ptr) {
    p in s && q in s && s[q].next == p && !TotalAt(s, q)
  }

  /** Freeing leaves every pbuf outside the freed chain as it is. */
  lemma FreedElsewhere(e: Store, rank: map<Ptr, nat>, handles: multiset<Ptr>, n: Ptr, qs: seq<Ptr>, x: Ptr)
    requires Ranked(e, rank) && Counted(e, handles) && IsPath(e, n, qs) && n in handles && x in e && x !in qs
    ensures x in Freed(e, n) && Freed(e, n)[x] == e[x]
  {
    hide Ranked, Counted, Freed, HeadRun;
    FreedRun(e, rank, handles, n, qs);
    var k := |HeadRun(e, n)|;
    assert forall y :: y in qs[..k] ==> y in qs;
    assert k < |qs| ==> qs[k] in qs;
  }

  lemma HigherNotIn(e: Store, rank: map<Ptr, nat>, n: Ptr, qs: seq<Ptr>, x: Ptr)
    requires Ranked(e, rank) && IsPath(e, n, qs) && x in rank && (n in e && n in rank ==> rank[n] < rank[x])
    ensures x !in qs
  {
    PathFacts(e, rank, n, qs);
    forall j | 0 <= j < |qs|
      ensures qs[j] != x
    {
      assert j > 0 ==> rank[qs[j]] < rank[qs[0]];
    }
  }

  /** A wrong total above the freed chain stays wrong. */
  lemma BrokenStays(e: Store, rank: map<Ptr, nat>, handles: multiset<Ptr>, n: Ptr, qs: seq<Ptr>, p: Ptr, q: Ptr)
    requires Ranked(e, rank) && Counted(e, handles) && IsPath(e, n, qs) && n in handles && BrokenAt(e, p, q)
    requires p in rank && (n in rank ==> rank[n] < rank[p])
    ensures !Totals(Freed(e, n))
  {
    hide Counted, Freed;
    HigherNotIn(e, rank, n, qs, p);
    HigherNotIn(e, rank, n, qs, q);
    FreedElsewhere(e, rank, handles, n, qs, p);
    FreedElsewhere(e, rank, handles, n, qs, q);
    NotTotals(Freed(e, n), q);
  }

  /** The assignments that cut `p` off from the next pbuf `q`. */
  method CutFirst(m: Pbufs, p: Ptr, q: Ptr)
    requires p in m.store && q in m.store && p != q && m.store[p].next == q
    requires m.store[q].totLen == (m.store[p].totLen - |m.store[p].data|) % U16
    modifies m`store
    ensures m.store == Ended(old(m.store), p, old(m.store)[p].data)
  {
    ghost var s := m.store;
    m.store := m.store[q := m.store[q].(totLen := (m.store[p].totLen - |m.store[p].data|) % U16)];
    assert m.store == s;
    m.store := m.store[p := m.store[p].(next := NULL)];
    m.store := m.store[p := m.store[p].(totLen := |m.store[p].data|)];
  }

  /** pbuf_dechain: cuts the first pbuf off and gives up its reference to the rest.
      Returns the rest, or null if it is gone. */
  method Dechain(m: Pbufs, p: Ptr) returns (r: Ptr)
    requires m.Valid() && Totals(m.store) && p in m.store
    modifies m
    ensures m.Valid() && m.handles == old(m.handles) && m.rank == old(m.rank)
    ensures var s, n := old(m.store), old(m.store[p].next);
      && m.store == Freed(Ended(s, p, s[p].data), n)
      && r == if n == NULL || Low8(|HeadRun(Ended(s, p, s[p].data), n)|) > 0 then NULL else n
    ensures Totals(m.store) <==> Root(old(m.store), p) || TotalFrom(old(m.store), old(m.store[p].next)) == 0
  {
    hide Ranked, Counted, Freed, HeadRun, Totals, Root, Given, Low8, Ended, IsPath, BrokenAt, TotalAt;
    ghost var s, r0 := m.store, m.rank;
    RankedAt(s, r0, p);
    TotalHere(s, p);
    var tailGone := 1;
    var q := m.store[p].next;
    EndedCounts(s, r0, m.handles, p, s[p].data);
    DechainedTotals(s, r0, m.handles, p);
    if q != NULL {
      CutFirst(m, p, q);
      m.handles := m.handles + Given(q);
      ghost var e := m.store;
      GivenNull();
      GivenBack(old(m.handles), q);
      tailGone := Free(m, q);
    } else {
      AlreadyEnded(s, p);
      NothingFreed(s);
    }
    r := if tailGone > 0 then NULL else q;
  }

  /** tot_len stays right everywhere if and only if nothing links to `p` or what is cut
      off has a total of 0. */
  lemma DechainedTotals(s: Store, rank: map<Ptr, nat>, handles: multiset<Ptr>, p: Ptr)
    requires Ranked(s, rank) && Counted(s, handles) && Totals(s) && p in s
    ensures Totals(Freed(Ended(s, p, s[p].data), s[p].next)) <==> Root(s, p) || TotalFrom(s, s[p].next) == 0
  {
    hide Ranked, Counted, Freed, Root, Totals, Given, Ended, BrokenAt, IsPath, TotalAt;
    var data, n, e := s[p].data, s[p].next, Ended(s, p, s[p].data);
    var h := handles + Given(n);
    RankedAt(s, rank, p);
    RankBelow(s, rank, p);
    TotalHere(s, p);
    TailTotal(s, p);
    EndedTotalsIff(s, rank, p, data);
    EndedCounts(s, rank, handles, p, data);
    if n == NULL {
      NullOutside(e, rank, h);
      NothingFreed(e);
    } else if Totals(e) {
      GivenNull();
      FreedRanked(e, rank, h, n);
      FreedBodies(e, n);
      BodiesTotals(e, Freed(e, n), rank);
    } else {
      GivenNull();
      var q :| BrokenAt(e, p, q);
      BrokenStays(e, rank, h, n, PathOf(e, rank, n), p, q);
    }
  }

  lemma RankBelow(s: Store, rank: map<Ptr, nat>, p: Ptr)
    requires Ranked(s, rank) && p in s
    ensures p in rank && (s[p].next != NULL ==> s[p].next in rank && rank[s[p].next] < rank[p])
  {
  }

  lemma TailTotal(s: Store, p: Ptr)
    requires Totals(s) && p in s
    ensures s[p].totLen == |s[p].data| <==> TotalFrom(s, s[p].next) == 0
  {
    assert TotalAt(s, p);
    if s[p].next in s {
      TotalSmall(s, s[p].next);
      if s[s[p].next].totLen != 0 {
        EndedSum(|s[p].data|, s[s[p].next].totLen, 0);
      }
    }
  }

  /** What freeing leaves is still ranked. */
  lemma {:induction false} FreedRanked(s: Store, rank: map<Ptr, nat>, handles: multiset<Ptr>, p: Ptr)
    requires Ranked(s, rank) && Counted(s, handles) && p in handles
    ensures Ranked(Freed(s, p), rank)
    decreases |s|
  {
    hide Ranked, Counted, Freed, Given;
    HandleLive(s, rank, handles, p);
    FreedStep(s, p);
    if s[p].ref == 1 {
      LastReference(s, rank, handles, p);
      GivenNull();
      NullOutside(s - {p}, rank, handles - multiset{p} + Given(s[p].next));
      NothingFreed(s - {p});
      if s[p].next != NULL {
        FreedRanked(s - {p}, rank, handles - multiset{p} + Given(s[p].next), s[p].next);
      }
    } else {
      OneReference(s, rank, handles, p);
    }
  }

  lemma AlreadyEnded(s: Store, p: Ptr)
    requires p in s && s[p].next == NULL && s[p].totLen == |s[p].data|
    ensures Ended(s, p, s[p].data) == s
  {
  }

  lemma TotalHere(s: Store, p: Ptr)
    requires Totals(s) && p in s
    ensures |s[p].data| < U16 && s[p].totLen == (|s[p].data| + TotalFrom(s, s[p].next)) % U16
    ensures s[p].next in s ==> s[s[p].next].totLen == (s[p].totLen - |s[p].data|) % U16
    ensures s[p].next !in s ==> s[p].totLen == |s[p].data|
  {
    assert TotalAt(s, p);
    if s[p].next in s {
      assert TotalAt(s, s[p].next);
    }
  }

  lemma GivenBack(handles: multiset<Ptr>, q: Ptr)
    requires q != NULL
    ensures handles + Given(q) - multiset{q} == handles && q in handles + Given(q)
  {
  }

  /** For chains under 256 pbufs the returned count tells whether the rest is gone. */
  lemma TailGone(s: Store, rank: map<Ptr, nat>, handles: multiset<Ptr>, n: Ptr, ps: seq<Ptr>)
    requires Ranked(s, rank) && Counted(s, handles) && IsPath(s, n, ps) && n in handles && |ps| < 256
    ensures Low8(|HeadRun(s, n)|) > 0 <==> n !in Freed(s, n)
  {
    hide Ranked, Counted, Freed;
    FreedRun(s, rank, handles, n, ps);
    HandleLive(s, rank, handles, n);
    var k := |HeadRun(s, n)|;
    assert n in Freed(s, n) <==> n !in ps[..k];
    assert k > 0 ==> ps[..k][0] == n;
  }

  // ---------- pbuf_realloc ----------

  /** The chain `ps` shortened: the `i`-th pbuf keeps its first `rem` bytes and is the last. */
  ghost function Shortened(s: Store, ps: seq<Ptr>, i: nat, rem: nat, shrink: nat): Store
    requires i < |ps| && ps[i] in s && rem <= |s[ps[i]].data| && shrink <= U16
  {
    var g := AddTotals(s, ps[..i], U16 - shrink);
    Ended(g, ps[i], s[ps[i]].data[..rem])
  }

  lemma ShortenedCounts(s: Store, rank: map<Ptr, nat>, handles: multiset<Ptr>, ps: seq<Ptr>, i: nat, rem: nat,
                        shrink: nat)
    requires Ranked(s, rank) && Counted(s, handles) && Consecutive(s, ps) && i < |ps| && ps[i] in s
    requires rem <= |s[ps[i]].data| && shrink <= U16
    ensures var t := Shortened(s, ps, i, rem, shrink);
      Ranked(t, rank) && Counted(t, handles + Given(s[ps[i]].next)) && t.Keys == s.Keys
  {
    hide Ranked, Counted, Given, AddTotals;
    var g := AddTotals(s, ps[..i], U16 - shrink);
    AddTotalsNone(s, ps[..i], U16 - shrink);
    AddedSameLinks(s, ps[..i], U16 - shrink);
    SameLinksKeep(s, g, rank, handles);
    EndedCounts(g, rank, handles, ps[i], s[ps[i]].data[..rem]);
  }

  /** The totals before the last pbuf go down by what the chain loses. */
  lemma ShortenedTotals(s: Store, ps: seq<Ptr>, i: nat, rem: nat, shrink: nat)
    requires Totals(s) && Consecutive(s, ps) && i < |ps| && Headed(s, ps[..i + 1]) && NULL !in s
    requires ps[i] in s && rem <= |s[ps[i]].data| && shrink <= U16
    requires s[ps[i]].totLen == (rem + shrink) % U16
    ensures Totals(Shortened(s, ps, i, rem, shrink))
  {
    hide AddTotals, Headed, Consecutive;
    var d, ks := U16 - shrink, ps[..i];
    var g, t := AddTotals(s, ks, d), Shortened(s, ps, i, rem, shrink);
    AddTotalsNone(s, ks, d);
    ConsecutiveAt(s, ps, i);
    forall p | p in t
      ensures TotalAt(t, p)
    {
      assert TotalAt(s, p);
      if p in ks {
        var j :| 0 <= j < i && ks[j] == p;
        ShortenedTotalAt(s, ps, i, rem, shrink, j);
      } else if p != ps[i] {
        NextNotIn(s, ps[..i + 1], i, p);
        assert ps[..i + 1][..i] == ps[..i];
      }
    }
  }

  /** Totals are right after the shortening if and only if no other pbuf links into
      the part that stays. */
  lemma ShortenedTotalsIff(s: Store, rank: map<Ptr, nat>, p: Ptr, ps: seq<Ptr>, i: nat, rem: nat, shrink: nat)
    requires Ranked(s, rank) && Totals(s) && IsPath(s, p, ps) && i < |ps|
    requires ps[i] in s && rem <= |s[ps[i]].data| && 0 < shrink < U16 && s[ps[i]].totLen == (rem + shrink) % U16
    ensures Totals(Shortened(s, ps, i, rem, shrink)) <==> Headed(s, ps[..i + 1])
    ensures !Headed(s, ps[..i + 1]) ==>
      exists k, q :: 0 <= k <= i && BrokenAt(Shortened(s, ps, i, rem, shrink), ps[k], q)
  {
    hide Headed, Totals, TotalAt, Shortened, IsPath, BrokenAt, Ranked;
    var front := ps[..i + 1];
    TotalSmall(s, ps[i]);
    PathConsecutive(s, rank, p, ps);
    if Headed(s, front) {
      ShortenedTotals(s, ps, i, rem, shrink);
    } else {
      NextPast(s, rank, p, ps, i);
      var q := Intruder(s, front);
      var k := ShortenedBroken(s, ps, i, rem, shrink, q);
      BrokenTotals(Shortened(s, ps, i, rem, shrink), ps[k], q);
    }
  }

  lemma BrokenTotals(s: Store, p: Ptr, q: Ptr)
    requires BrokenAt(s, p, q)
    ensures !Totals(s)
  {
  }

  lemma NextPast(s: Store, rank: map<Ptr, nat>, p: Ptr, ps: seq<Ptr>, i: nat)
    requires Ranked(s, rank) && IsPath(s, p, ps) && i < |ps|
    ensures var front := ps[..i + 1];
      front[|front| - 1] in s && s[front[|front| - 1]].next !in front && Consecutive(s, front)
  {
    PathFacts(s, rank, p, ps);
    var n := s[ps[i]].next;
    forall j | 0 <= j <= i
      ensures ps[j] != n
    {
      assert i + 1 < |ps| ==> rank[ps[i + 1]] < rank[ps[j]];
    }
  }

  lemma ShortenedBroken(s: Store, ps: seq<Ptr>, i: nat, rem: nat, shrink: nat, q: Ptr) returns (k: nat)
    requires Totals(s) && i < |ps| && ps[i] in s && rem <= |s[ps[i]].data| && 0 < shrink < U16
    requires s[ps[i]].totLen == (rem + shrink) % U16 && Intrudes(s, ps[..i + 1], q) && s[q].next in s
    ensures k <= i && BrokenAt(Shortened(s, ps, i, rem, shrink), ps[k], q)
  {
    hide AddTotals, Shortened, TotalAt, Totals;
    var d, ks, x, t := U16 - shrink, ps[..i], s[q].next, Shortened(s, ps, i, rem, shrink);
    k :| 0 <= k <= i && ps[k] == x;
    ShortenedFacts(s, ps, i, rem, shrink);
    ShortenedLinks(s, ps, i, rem, shrink, q);
    TotalSmall(s, x);
    TotalSmall(s, ps[i]);
    TotalHere(s, q);
    TotalHere(s, ps[i]);
    TotalParts(s, ps[i]);
    TotalParts(t, q);
    if x == ps[i] {
      RestDiffers(rem, shrink);
      EndedSum(|s[q].data|, s[x].totLen, rem);
    } else {
      assert ks[k] in ks;
      AddTotalsAt(s, ks, d, x);
      SmallPart(shrink);
      MovedSum(|s[q].data|, s[x].totLen, d);
    }
  }

  lemma RestDiffers(rem: nat, shrink: nat)
    requires rem < U16 && 0 < shrink < U16
    ensures (rem + shrink) % U16 != rem
  {
  }

  /** What is left of a total that loses `shrink`. */
  lemma LessShrink(rem: nat, shrink: nat)
    requires shrink <= U16
    ensures ((rem + shrink) % U16 + (U16 - shrink)) % U16 == rem % U16
  {
    ModInner(U16 - shrink, rem + shrink);
    assert (rem + U16) % U16 == rem % U16;
  }

  lemma SmallPart(shrink: nat)
    requires 0 < shrink < U16
    ensures (U16 - shrink) % U16 != 0
  {
  }

  lemma ShortenedLinks(s: Store, ps: seq<Ptr>, i: nat, rem: nat, shrink: nat, q: Ptr)
    requires i < |ps| && ps[i] in s && rem <= |s[ps[i]].data| && shrink <= U16 && q in s && q !in ps[..i + 1]
    ensures q in Shortened(s, ps, i, rem, shrink) && Shortened(s, ps, i, rem, shrink)[q] == s[q]
  {
    assert ps[..i + 1] == ps[..i] + [ps[i]];
  }

  lemma ShortenedTotalAt(s: Store, ps: seq<Ptr>, i: nat, rem: nat, shrink: nat, j: nat)
    requires Consecutive(s, ps) && j < i < |ps| && ps[i] in s && ps[j] in s && TotalAt(s, ps[j])
    requires rem <= |s[ps[i]].data| && shrink <= U16 && s[ps[i]].totLen == (rem + shrink) % U16
    ensures ps[j] in Shortened(s, ps, i, rem, shrink) && TotalAt(Shortened(s, ps, i, rem, shrink), ps[j])
  {
    hide AddTotals, Consecutive, Shortened, TotalAt;
    var d, ks, p, t := U16 - shrink, ps[..i], ps[j], Shortened(s, ps, i, rem, shrink);
    ConsecutiveAt(s, ps, j);
    ConsecutiveAt(s, ps, i);
    assert ks[j] in ks;
    AddTotalsAt(s, ks, d, p);
    ShortenedFacts(s, ps, i, rem, shrink);
    TotalParts(s, p);
    if j + 1 < i {
      ConsecutiveApart(s, ps, j + 1, i);
      assert ks[j + 1] in ks;
      AddTotalsAt(s, ks, d, ks[j + 1]);
      SplicedSum(s[p].totLen, |s[p].data|, s[ps[j + 1]].totLen, d);
    } else {
      LessShrink(rem, shrink);
      SplicedEnd(s[p].totLen, |s[p].data|, s[ps[i]].totLen, d, rem);
    }
    TotalParts(t, p);
  }

  lemma TotalParts(s: Store, p: Ptr)
    requires p in s
    ensures TotalAt(s, p) <==> |s[p].data| < U16 && s[p].totLen == (|s[p].data| + TotalFrom(s, s[p].next)) % U16
  {
  }

  lemma ShortenedFacts(s: Store, ps: seq<Ptr>, i: nat, rem: nat, shrink: nat)
    requires i < |ps| && ps[i] in s && rem <= |s[ps[i]].data| && shrink <= U16
    ensures var t, g := Shortened(s, ps, i, rem, shrink), AddTotals(s, ps[..i], U16 - shrink);
      t.Keys == s.Keys && t[ps[i]].totLen == rem && forall q :: q in s && q != ps[i] ==> q in g && t[q] == g[q]
  {
  }

  lemma ConsecutiveApart(s: Store, ps: seq<Ptr>, i: nat, j: nat)
    requires Consecutive(s, ps) && i < j < |ps|
    ensures ps[i] != ps[j]
  {
  }

  lemma NextNotIn(s: Store, ps: seq<Ptr>, i: nat, p: Ptr)
    requires Headed(s, ps) && i < |ps| && p in s && p !in ps[..i]
    ensures s[p].next !in ps[..i] && s[p].next != ps[i]
  {
    if s[p].next in ps[..i + 1] {
      PrevBefore(s, ps, i, p);
    }
    assert ps[..i + 1] == ps[..i] + [ps[i]];
  }

  lemma PrevBefore(s: Store, ps: seq<Ptr>, i: nat, p: Ptr)
    requires Headed(s, ps) && i < |ps| && p in s && s[p].next in ps[..i + 1]
    ensures p in ps[..i]
  {
    var k :| 0 <= k <= i && ps[k] == s[p].next;
    assert ps[..i][k - 1] == p;
  }

  /** A chain shortened has the first bytes of the old one. */
  lemma ShortenedPath(s: Store, rank: map<Ptr, nat>, p: Ptr, ps: seq<Ptr>, i: nat, rem: nat, shrink: nat)
    requires Ranked(s, rank) && IsPath(s, p, ps) && i < |ps| && ps[i] in s && rem <= |s[ps[i]].data| && shrink <= U16
    ensures IsPath(Shortened(s, ps, i, rem, shrink), p, ps[..i + 1])
    ensures Flat(Shortened(s, ps, i, rem, shrink), ps[..i + 1]) == Flat(s, ps[..i]) + s[ps[i]].data[..rem]
    ensures Flat(s, ps) == Flat(s, ps[..i]) + (s[ps[i]].data + Flat(s, ps[i + 1..]))
  {
    hide AddTotals, Ranked, Consecutive, Flat;
    var d, ks := U16 - shrink, ps[..i];
    var t := Shortened(s, ps, i, rem, shrink);
    AddTotalsNone(s, ks, d);
    PathConsecutive(s, rank, p, ps);
    BeforeApart(s, ps, i);
    EndedPath(s, t, p, ps, i);
    FlatStep(t, ps, i);
    FlatKept(s, t, ks);
    FlatStep(s, ps, i);
  }

  lemma BeforeApart(s: Store, ps: seq<Ptr>, i: nat)
    requires Consecutive(s, ps) && i < |ps|
    ensures ps[i] !in ps[..i] && forall q :: q in ps[..i] ==> q in s
  {
  }

  lemma {:induction false} EndedPath(s: Store, t: Store, p: Ptr, ps: seq<Ptr>, i: nat)
    requires IsPath(s, p, ps) && i < |ps| && NULL !in s && t.Keys == s.Keys && ps[i] in s
    requires forall j :: 0 <= j < i ==> ps[j] in s && t[ps[j]].next == s[ps[j]].next
    requires t[ps[i]].next == NULL
    ensures IsPath(t, p, ps[..i + 1])
    decreases i
  {
    if i > 0 {
      assert ps[1..][i - 1] == ps[i];
      assert forall j :: 0 <= j < i - 1 ==> ps[1..][j] == ps[j + 1];
      EndedPath(s, t, s[p].next, ps[1..], i - 1);
      assert ps[..i + 1][1..] == ps[1..][..i];
    }
  }

  /** The part of a chain after its `i`-th pbuf is still a chain. */
  lemma RestPath(s: Store, rank: map<Ptr, nat>, p: Ptr, ps: seq<Ptr>, i: nat, e: Store)
    requires Ranked(s, rank) && IsPath(s, p, ps) && i < |ps| && ps[i] in s && e.Keys == s.Keys
    requires forall j :: i < j < |ps| ==> ps[j] in s && e[ps[j]] == s[ps[j]]
    ensures IsPath(e, s[ps[i]].next, ps[i + 1..]) && ps[0] !in ps[i + 1..]
  {
    PathFacts(s, rank, p, ps);
    PathSuffix(s, p, ps, i);
    var qs := ps[i + 1..];
    assert ps[i..][1..] == qs;
    assert IsPath(s, s[ps[i]].next, qs);
    forall q | q in qs
      ensures q in s && q in e && e[q].next == s[q].next
    {
      var j :| 0 <= j < |qs| && qs[j] == q;
      assert qs[j] == ps[i + 1 + j];
    }
    PathKept(s, e, s[ps[i]].next, qs);
    forall j | 0 <= j < |qs|
      ensures qs[j] != ps[0]
    {
      assert qs[j] == ps[i + 1 + j];
    }
  }

  lemma FlatStep(s: Store, ps: seq<Ptr>, i: nat)
    requires i < |ps| && ps[i] in s
    ensures Flat(s, ps[..i + 1]) == Flat(s, ps[..i]) + s[ps[i]].data
    ensures Flat(s, ps[i..]) == s[ps[i]].data + Flat(s, ps[i + 1..])
    ensures Flat(s, ps) == Flat(s, ps[..i]) + Flat(s, ps[i..])
  {
    FlatConcat(s, ps[..i], [ps[i]]);
    assert ps[..i] + [ps[i]] == ps[..i + 1];
    assert Flat(s, [ps[i]]) == s[ps[i]].data + Flat(s, []);
    assert ps[i..][1..] == ps[i + 1..];
    FlatConcat(s, ps[..i], ps[i..]);
    assert ps[..i] + ps[i..] == ps;
  }

  lemma FlatEnd(s: Store, ps: seq<Ptr>, i: nat)
    requires i < |ps|
    ensures i + 1 == |ps| ==> Flat(s, ps[i + 1..]) == []
  {
  }

  lemma FlatNone(s: Store, ps: seq<Ptr>)
    ensures Flat(s, ps[..0]) == [] && ps[0..] == ps && Flat(s, []) == []
  {
  }

  /** Steps over the pbufs that stay whole; `rem` bytes remain for the next one. */
  method KeepWhole(m: Pbufs, p: Ptr, newLen: nat, shrink: nat, ghost ps: seq<Ptr>)
    returns (q: Ptr, rem: nat, ghost i: nat)
    requires Consecutive(m.store, ps) && ps != [] && ps[0] == p && shrink <= U16 && newLen < |Flat(m.store, ps)|
    modifies m`store
    ensures i < |ps| && q == ps[i] && q in old(m.store) && rem <= |old(m.store)[q].data|
    ensures m.store == AddTotals(old(m.store), ps[..i], U16 - shrink) && q in m.store && m.store[q] == old(m.store)[q]
    ensures newLen == |Flat(old(m.store), ps[..i])| + rem && (i > 0 ==> rem > 0)
  {
    hide AddTotals, Consecutive, Flat;
    ghost var s, d := m.store, U16 - shrink;
    q, rem, i := p, newLen, 0;
    AddTotalsNone(s, ps, d);
    FlatNone(s, ps);
    ConsecutiveAt(s, ps, 0);
    while rem > |m.store[q].data|
      invariant i < |ps| && q == ps[i] && q in s && m.store == AddTotals(s, ps[..i], d) && q in m.store
      invariant m.store[q] == s[q]
      invariant newLen == |Flat(s, ps[..i])| + rem && (i > 0 ==> rem > 0)
      decreases |ps| - i
    {
      ConsecutiveAt(s, ps, i);
      FlatStep(s, ps, i);
      FlatNone(s, ps);
      AddTotalsStep(s, ps, i, d);
      FlatEnd(s, ps, i);
      rem := rem - |m.store[q].data|;
      m.store := m.store[q := m.store[q].(totLen := (m.store[q].totLen + (U16 - shrink)) % U16)];
      q := m.store[q].next;
      i := i + 1;
      ConsecutiveAt(s, ps, i);
      AddTotalsAhead(s, ps, i, d);
    }
  }

  /** Ends a chain at `q` with the first `rem` bytes of it. */
  method CutHere(m: Pbufs, q: Ptr, rem: nat)
    requires q in m.store && rem <= |m.store[q].data|
    modifies m`store
    ensures m.store == Ended(old(m.store), q, old(m.store)[q].data[..rem])
  {
    m.store := m.store[q := m.store[q].(data := m.store[q].data[..rem])];
    m.store := m.store[q := m.store[q].(totLen := |m.store[q].data|)];
    m.store := m.store[q := m.store[q].(next := NULL)];
  }

  /** Frees the chain `qs` at `rest`, which nothing links to any more; the pbuf
      `p` is not part of it. */
  method FreeRest(m: Pbufs, rest: Ptr, ghost qs: seq<Ptr>, ghost p: Ptr)
    requires Ranked(m.store, m.rank) && Counted(m.store, m.handles + Given(rest))
    requires IsPath(m.store, rest, qs) && p in m.store && p !in qs
    modifies m
    ensures m.Valid() && m.handles == old(m.handles) && m.rank == old(m.rank)
    ensures SameBodies(old(m.store), m.store) && p in m.store && (Totals(old(m.store)) ==> Totals(m.store))
    ensures m.store == Freed(old(m.store), rest)
    ensures var k := |HeadRun(old(m.store), rest)|;
      k <= |qs| && HeadRun(old(m.store), rest) == qs[..k] && Singles(old(m.store), qs[..k])
      && FreedTo(old(m.store), m.store, qs, k)
  {
    hide Counted, Ranked, IsPath, Totals, Given, Freed, HeadRun, SameBodies, FreedTo, Singles;
    ghost var e, r, h := m.store, m.rank, m.handles;
    GivenNull();
    NoHandle(h);
    SameBodiesSelf(e);
    NullOutside(e, r, h + Given(rest));
    NothingFreed(e);
    FreedRun(e, r, h + Given(rest), rest, qs) by {
      GivenNull();
      if rest != NULL {
        GivenBack(h, rest);
      }
    }
    if rest != NULL {
      GivenBack(h, rest);
      m.handles := h + Given(rest);
      FreedLeaves(e, Freed(e, rest), qs, |HeadRun(e, rest)|, p);
      var _ := Free(m, rest);
      FreedBodies(e, rest);
      if Totals(e) {
        BodiesTotals(e, m.store, r);
      }
    }
  }

  lemma SameBodiesSelf(s: Store)
    ensures SameBodies(s, s)
  {
  }

  lemma FreedLeaves(s: Store, t: Store, qs: seq<Ptr>, k: nat, p: Ptr)
    requires k <= |qs| && FreedTo(s, t, qs, k) && p in s && p !in qs
    ensures p in t
  {
  }

  lemma ShortenedRest(s: Store, ps: seq<Ptr>, i: nat, rem: nat, shrink: nat)
    requires Consecutive(s, ps) && i < |ps| && ps[i] in s && rem <= |s[ps[i]].data| && shrink <= U16
    ensures var t := Shortened(s, ps, i, rem, shrink);
      t.Keys == s.Keys && forall j :: i < j < |ps| ==> ps[j] in s && t[ps[j]] == s[ps[j]]
  {
    forall j | i < j < |ps|
      ensures ps[j] !in ps[..i]
    {
    }
  }

  lemma ShortenedCut(s: Store, ps: seq<Ptr>, i: nat, rem: nat, shrink: nat)
    requires i < |ps| && ps[i] in s && rem <= |s[ps[i]].data| && shrink <= U16
    requires ps[i] in AddTotals(s, ps[..i], U16 - shrink)
    ensures Shortened(s, ps, i, rem, shrink) == Ended(AddTotals(s, ps[..i], U16 - shrink), ps[i], s[ps[i]].data[..rem])
  {
  }

  /** Of the pbufs of the chain `ps` from the `k`-th on the next `n` had one reference and are
      gone, the one behind them has one less, and the others are as they were. */
  ghost predicate RestGone(s: Store, t: Store, ps: seq<Ptr>, k: nat, n: nat) {
    && k + n <= |ps| && (forall j :: k <= j < |ps| ==> ps[j] in s)
    && (forall j :: k <= j < k + n ==> s[ps[j]].ref == 1 && ps[j] !in t)
    && (k + n < |ps| ==>
          s[ps[k + n]].ref > 1 && ps[k + n] in t && t[ps[k + n]] == s[ps[k + n]].(ref := s[ps[k + n]].ref - 1))
    && forall j :: k + n < j < |ps| ==> ps[j] in t && t[ps[j]] == s[ps[j]]
  }

  /** pbuf_realloc: keeps the first `newLen` bytes of a chain, if its length in 16 bits is
      greater. It keeps the least number of pbufs that hold them, at least one, and frees
      the rest as far as nothing else refers to it. */
  method Realloc(m: Pbufs, p: Ptr, newLen: nat) returns (ghost k: nat, ghost n: nat)
    requires m.Valid() && Totals(m.store) && p in m.store
    modifies m
    ensures m.Valid() && m.handles == old(m.handles)
    ensures newLen >= |old(m.Contents(p))| % U16 ==> m.store == old(m.store)
    ensures newLen < |old(m.Contents(p))| % U16 ==>
      && p in m.store && newLen < |old(m.Contents(p))| && m.Contents(p) == old(m.Contents(p))[..newLen]
      && m.Path(p) <= old(m.Path(p)) && (Totals(m.store) <==> Headed(old(m.store), m.Path(p)))
    ensures newLen < |old(m.Contents(p))| % U16 ==>
      && 1 <= k <= |old(m.Path(p))| && m.Path(p) == old(m.Path(p))[..k]
      && newLen <= |Flat(old(m.store), old(m.Path(p))[..k])|
      && (k > 1 ==> |Flat(old(m.store), old(m.Path(p))[..k - 1])| < newLen)
      && RestGone(old(m.store), m.store, old(m.Path(p)), k, n)
    ensures forall x :: x in old(m.store) && x !in old(m.Path(p)) ==> x in m.store && m.store[x] == old(m.store)[x]
  {
    hide Counted, Ranked, IsPath, AddTotals, Totals, Headed, Consecutive, Flat, PathOf, Given, Freed, HeadRun, Ended,
      Shortened;
    hide SameBodies, Level, Singles, FreedTo, RestGone, HeadRun;
    k, n := 0, 0;
    ghost var s, r, ps, c := m.store, m.rank, m.Path(p), m.Contents(p);
    TotalOfPath(s, p, ps);
    PathConsecutive(s, r, p, ps);
    if newLen >= m.store[p].totLen {
      return;
    }
    var shrink := m.store[p].totLen - newLen;
    var q, rem;
    ghost var i;
    q, rem, i := KeepWhole(m, p, newLen, shrink, ps);
    FlatStep(s, ps, i);
    PathSuffix(s, p, ps, i);
    TotalOfPath(s, q, ps[i..]);
    RestTotal(|c|, |Flat(s, ps[..i])|, |Flat(s, ps[i..])|, newLen, rem, shrink);
    k := i + 1;
    n := EndHere(m, p, q, rem, shrink, s, ps, i);
    ShortenedPath(s, r, p, ps, i, rem, shrink);
    PathUnique(m.store, p, m.Path(p), ps[..k]);
  }

  /** Ends the chain inside `q`, its `i`-th pbuf, and frees the rest; before the totals were
      changed the store was `s`. */
  method EndHere(m: Pbufs, p: Ptr, q: Ptr, rem: nat, shrink: nat, ghost s: Store, ghost ps: seq<Ptr>, ghost i: nat)
    returns (ghost n: nat)
    requires Ranked(s, m.rank) && Counted(s, m.handles) && Totals(s) && IsPath(s, p, ps) && i < |ps| && q == ps[i]
    requires q in s && q in m.store && m.store[q] == s[q] && rem <= |s[q].data|
    requires 0 < shrink < U16 && s[q].totLen == (rem + shrink) % U16
    requires m.store == AddTotals(s, ps[..i], U16 - shrink)
    modifies m
    ensures m.Valid() && m.handles == old(m.handles) && m.rank == old(m.rank) && p in m.store
    ensures IsPath(m.store, p, ps[..i + 1]) && Flat(m.store, ps[..i + 1]) == Flat(s, ps[..i]) + s[q].data[..rem]
    ensures Totals(m.store) <==> Headed(s, ps[..i + 1])
    ensures RestGone(s, m.store, ps, i + 1, n)
    ensures forall x :: x in s && x !in ps ==> x in m.store && m.store[x] == s[x]
  {
    hide Counted, Ranked, IsPath, AddTotals, Totals, Headed, Consecutive, Flat, PathOf, Given, Freed, HeadRun, Ended,
      Shortened, SameBodies, Level, Singles, FreedTo, RestGone;
    ghost var r := m.rank;
    PathConsecutive(s, r, p, ps);
    ShortenedPath(s, r, p, ps, i, rem, shrink);
    ShortenedCounts(s, r, m.handles, ps, i, rem, shrink);
    ghost var e := Shortened(s, ps, i, rem, shrink);
    ShortenedRest(s, ps, i, rem, shrink);
    RestPath(s, r, p, ps, i, e);
    ShortenedCut(s, ps, i, rem, shrink);
    var rest := m.store[q].next;
    CutHere(m, q, rem);
    ReallocTotals(s, r, m.handles, p, ps, i, rem, shrink);
    ReallocElsewhere(s, r, m.handles, p, ps, i, rem, shrink);
    FreeRest(m, rest, ps[i + 1..], p);
    PathUnique(e, p, PathOf(e, r, p), ps[..i + 1]);
    BodiesPath(e, m.store, r, p);
    n := |HeadRun(e, rest)|;
    RestIsGone(s, e, m.store, ps, i + 1, n);
  }

  lemma RestIsGone(s: Store, e: Store, t: Store, ps: seq<Ptr>, k: nat, n: nat)
    requires 0 < k <= |ps| && n <= |ps| - k && Consecutive(s, ps)
    requires forall j :: k - 1 < j < |ps| ==> ps[j] in s && ps[j] in e && e[ps[j]] == s[ps[j]]
    requires Singles(e, ps[k..][..n]) && FreedTo(e, t, ps[k..], n)
    ensures RestGone(s, t, ps, k, n)
  {
    var qs := ps[k..];
    forall j | k <= j < |ps|
      ensures ps[j] == qs[j - k] && (j < k + n ==> s[ps[j]].ref == 1 && ps[j] in qs[..n])
      ensures j >= k + n ==> ps[j] !in qs[..n]
    {
      assert j < k + n ==> qs[..n][j - k] == ps[j];
    }
  }

  lemma RestTotal(all: nat, front: nat, rest: nat, newLen: nat, rem: nat, shrink: nat)
    requires all == front + rest && newLen == front + rem && newLen + shrink == all % U16
    ensures rest % U16 == (rem + shrink) % U16
  {
    assert rest == rem + shrink + all / U16 * U16;
  }

  /** After the rest is freed, too, the totals are right if and only if no other pbuf
      links into the part that stays. */
  lemma ReallocTotals(s: Store, rank: map<Ptr, nat>, handles: multiset<Ptr>, p: Ptr, ps: seq<Ptr>, i: nat, rem: nat,
                      shrink: nat)
    requires Ranked(s, rank) && Counted(s, handles) && Totals(s) && IsPath(s, p, ps) && i < |ps|
    requires ps[i] in s && rem <= |s[ps[i]].data| && 0 < shrink < U16 && s[ps[i]].totLen == (rem + shrink) % U16
    ensures Totals(Freed(Shortened(s, ps, i, rem, shrink), s[ps[i]].next)) <==> Headed(s, ps[..i + 1])
  {
    hide Counted, Ranked, IsPath, AddTotals, Totals, Headed, Consecutive, Given, Freed, Ended, Shortened, BrokenAt,
      PathOf;
    var e, n := Shortened(s, ps, i, rem, shrink), s[ps[i]].next;
    var h := handles + Given(n);
    PathConsecutive(s, rank, p, ps);
    ShortenedCounts(s, rank, handles, ps, i, rem, shrink);
    ShortenedTotalsIff(s, rank, p, ps, i, rem, shrink);
    NullOutside(e, rank, h);
    NothingFreed(e);
    GivenNull();
    if n == NULL {
    } else if Headed(s, ps[..i + 1]) {
      FreedRanked(e, rank, h, n);
      FreedBodies(e, n);
      BodiesTotals(e, Freed(e, n), rank);
    } else {
      var k, q :| 0 <= k <= i && BrokenAt(e, ps[k], q);
      RankBelow(s, rank, ps[i]);
      RanksDown(s, rank, p, ps, k, i);
      BrokenStays(e, rank, h, n, PathOf(e, rank, n), ps[k], q);
    }
  }

  lemma RanksDown(s: Store, rank: map<Ptr, nat>, p: Ptr, ps: seq<Ptr>, k: nat, i: nat)
    requires Ranked(s, rank) && IsPath(s, p, ps) && k <= i < |ps|
    ensures ps[k] in rank && ps[i] in rank && rank[ps[i]] <= rank[ps[k]]
  {
    PathFacts(s, rank, p, ps);
  }

  /** No pbuf outside the chain is touched. */
  lemma ReallocElsewhere(s: Store, rank: map<Ptr, nat>, handles: multiset<Ptr>, p: Ptr, ps: seq<Ptr>, i: nat, rem: nat,
                         shrink: nat)
    requires Ranked(s, rank) && Counted(s, handles) && IsPath(s, p, ps) && i < |ps|
    requires ps[i] in s && rem <= |s[ps[i]].data| && shrink <= U16
    ensures var t := Freed(Shortened(s, ps, i, rem, shrink), s[ps[i]].next);
      forall x :: x in s && x !in ps ==> x in t && t[x] == s[x]
  {
    hide Counted, Ranked, IsPath, Consecutive, Given, Freed, Shortened;
    var e, n := Shortened(s, ps, i, rem, shrink), s[ps[i]].next;
    var h := handles + Given(n);
    PathConsecutive(s, rank, p, ps);
    ShortenedCounts(s, rank, handles, ps, i, rem, shrink);
    ShortenedRest(s, ps, i, rem, shrink);
    RestPath(s, rank, p, ps, i, e);
    NullOutside(e, rank, h);
    NothingFreed(e);
    GivenNull();
    forall x | x in s && x !in ps
      ensures x in Freed(e, n) && Freed(e, n)[x] == s[x]
    {
      ShortenedLinks(s, ps, i, rem, shrink, x);
      if n != NULL {
        FreedElsewhere(e, rank, h, n, ps[i + 1..], x);
      }
    }
  }

  // ---------- pbuf_free_header ----------

  /** The first `k` pbufs of `ps` let go one by one: a pbuf with one reference is
      gone, any other stays on its own with a reference less. */
  ghost function Dropped(s: Store, ps: seq<Ptr>, k: nat): Store
    requires k <= |ps|
  {
    map x | x in s && (x in ps[..k] ==> s[x].ref > 1) ::
      if x in ps[..k] && s[x].ref > 1 then s[x].(next := NULL, ref := s[x].ref - 1) else s[x]
  }

  lemma DroppedStep(s: Store, ps: seq<Ptr>, k: nat)
    requires Consecutive(s, ps) && k < |ps| && ps[k] in s && s[ps[k]].ref > 0
    requires NULL !in s && NULL !in Dropped(s, ps, k) && ps[k] in Dropped(s, ps, k)
    ensures Dropped(s, ps, k)[ps[k]] == s[ps[k]]
    ensures Dropped(s, ps, k + 1) == Freed(SetNext(Dropped(s, ps, k), ps[k], NULL), ps[k])
  {
    hide Freed, Dropped, Consecutive;
    var f, t := ps[k], Dropped(s, ps, k);
    ConsecutiveAt(s, ps, k);
    assert ps[..k + 1] == ps[..k] + [f];
    DroppedOne(s, ps, k);
    var g := SetNext(t, f, NULL);
    FreedStep(g, f);
    NothingFreed(g - {f});
    SetNextFacts(t, f, NULL);
    if s[f].ref == 1 {
      assert g - {f} == t - {f};
    } else {
      assert g[f := g[f].(ref := g[f].ref - 1)] == t[f := s[f].(next := NULL, ref := s[f].ref - 1)];
    }
  }

  lemma DroppedOne(s: Store, ps: seq<Ptr>, k: nat)
    requires k < |ps| && ps[k] in s && ps[k] !in ps[..k] && s[ps[k]].ref > 0
    ensures ps[k] in Dropped(s, ps, k) && Dropped(s, ps, k)[ps[k]] == s[ps[k]]
    ensures var f, t := ps[k], Dropped(s, ps, k);
      Dropped(s, ps, k + 1) == if s[f].ref == 1 then t - {f} else t[f := s[f].(next := NULL, ref := s[f].ref - 1)]
  {
    var f, t := ps[k], Dropped(s, ps, k);
    assert ps[..k + 1] == ps[..k] + [f];
    if s[f].ref == 1 {
      assert Dropped(s, ps, k + 1) == t - {f};
    } else {
      assert Dropped(s, ps, k + 1) == t[f := s[f].(next := NULL, ref := s[f].ref - 1)];
    }
  }

  lemma DroppedNone(s: Store, ps: seq<Ptr>)
    ensures Dropped(s, ps, 0) == s
  {
  }

  lemma DroppedRest(s: Store, ps: seq<Ptr>, k: nat)
    requires Consecutive(s, ps) && k < |ps|
    ensures forall j :: k <= j < |ps| ==> ps[j] in Dropped(s, ps, k) && Dropped(s, ps, k)[ps[j]] == s[ps[j]]
  {
  }

  /** What is left of the chain holds what is left of the bytes. */
  lemma DroppedPath(s: Store, rank: map<Ptr, nat>, p: Ptr, ps: seq<Ptr>, k: nat)
    requires Ranked(s, rank) && IsPath(s, p, ps) && k < |ps|
    ensures IsPath(Dropped(s, ps, k), ps[k], ps[k..])
    ensures Flat(Dropped(s, ps, k), ps[k..]) == Flat(s, ps[k..])
  {
    hide Dropped;
    var t := Dropped(s, ps, k);
    PathConsecutive(s, rank, p, ps);
    DroppedRest(s, ps, k);
    PathSuffix(s, p, ps, k);
    forall q | q in ps[k..]
      ensures q in s && q in t && t[q] == s[q] && (s[q].next !in s ==> s[q].next !in t)
    {
      var j :| 0 <= j < |ps| - k && ps[k..][j] == q;
      assert ps[k + j] == q;
      DroppedKeys(s, ps, k);
    }
    PathKept(s, t, ps[k], ps[k..]);
    FlatKept(s, t, ps[k..]);
  }

  lemma DroppedKeys(s: Store, ps: seq<Ptr>, k: nat)
    requires k <= |ps|
    ensures Dropped(s, ps, k).Keys <= s.Keys
  {
  }

  /** Each of the first `k` pbufs has one reference or nothing but a multiple of
      64K after it. */
  ghost predicate Clean(s: Store, ps: seq<Ptr>, k: nat)
    requires k <= |ps|
  {
    forall j :: 0 <= j < k && ps[j] in s ==> s[ps[j]].ref == 1 || TotalFrom(s, s[ps[j]].next) == 0
  }

  /** Dropping keeps tot_len right everywhere if and only if each dropped pbuf is
      gone or was followed by nothing but a multiple of 64K. */
  lemma DroppedTotals(s: Store, handles: multiset<Ptr>, ps: seq<Ptr>, k: nat)
    requires Totals(s) && Consecutive(s, ps) && k <= |ps| && NULL !in s
    requires Counted(s, handles) && (ps != [] ==> ps[0] in handles)
    ensures Totals(Dropped(s, ps, k)) <==> Clean(s, ps, k)
  {
    hide Dropped, Consecutive, TotalAt, Counted;
    var t := Dropped(s, ps, k);
    CountedPositive(s, handles);
    forall x | x in t
      ensures x in s && (TotalAt(t, x) <==> x !in ps[..k] || TotalFrom(s, s[x].next) == 0)
    {
      DroppedKeys(s, ps, k);
      SharedDropped(s, handles, ps, k, x);
      DroppedTotalAt(s, ps, k, x);
    }
    forall j | 0 <= j < k
      ensures ps[j] in s && ps[j] in ps[..k] && (ps[j] in t <==> s[ps[j]].ref > 1)
    {
      ConsecutiveAt(s, ps, j);
      DroppedIn(s, ps, k, j);
    }
    forall x | x in ps[..k]
      ensures exists j :: 0 <= j < k && ps[j] == x
    {
      var j :| 0 <= j < k && ps[..k][j] == x;
    }
  }

  lemma DroppedIn(s: Store, ps: seq<Ptr>, k: nat, j: nat)
    requires j < k <= |ps| && ps[j] in s
    ensures ps[j] in ps[..k] && (ps[j] in Dropped(s, ps, k) <==> s[ps[j]].ref > 1)
  {
    assert ps[..k][j] == ps[j];
  }

  /** A pbuf let go that another one links to has that reference besides the one given up. */
  lemma SharedDropped(s: Store, handles: multiset<Ptr>, ps: seq<Ptr>, k: nat, x: Ptr)
    requires Counted(s, handles) && Consecutive(s, ps) && k <= |ps| && (ps != [] ==> ps[0] in handles) && x in s
    ensures x !in ps[..k] && s[x].next in ps[..k] ==> s[x].next in s && s[s[x].next].ref > 1
  {
    if x !in ps[..k] && s[x].next in ps[..k] {
      var j :| 0 <= j < k && ps[..k][j] == s[x].next;
      var y := ps[j];
      assert x in Links(s, y);
      if j > 0 {
        assert ps[..k][j - 1] == ps[j - 1] && s[ps[j - 1]].next == y;
        assert {x, ps[j - 1]} <= Links(s, y);
        TwoOf(Links(s, y), x, ps[j - 1]);
      } else {
        OneOf(Links(s, y), x);
      }
    }
  }

  lemma TwoOf(l: set<Ptr>, x: Ptr, y: Ptr)
    requires x in l && y in l && x != y
    ensures |l| >= 2
  {
    assert |l - {x}| == |l| - 1 && y in l - {x};
  }

  lemma OneOf(l: set<Ptr>, x: Ptr)
    requires x in l
    ensures |l| >= 1
  {
  }

  lemma DroppedTotalAt(s: Store, ps: seq<Ptr>, k: nat, x: Ptr)
    requires Totals(s) && k <= |ps| && NULL !in s && x in Dropped(s, ps, k) && x in s
    requires x !in ps[..k] && s[x].next in ps[..k] ==> s[x].next in s && s[s[x].next].ref > 1
    ensures TotalAt(Dropped(s, ps, k), x) <==> x !in ps[..k] || TotalFrom(s, s[x].next) == 0
  {
    TotalHere(s, x);
    assert TotalAt(s, x);
    if s[x].next in s {
      TotalSmall(s, s[x].next);
    }
  }

  /** One pbuf let go: its link becomes a handle, its own handle is given up. */
  method LetGo(m: Pbufs, f: Ptr) returns (n: Ptr)
    requires m.Valid() && f in m.handles && f in m.store
    modifies m
    ensures m.Valid() && m.rank == old(m.rank)
    ensures n == old(m.store)[f].next && m.store == Freed(SetNext(old(m.store), f, NULL), f)
    ensures m.handles == old(m.handles) - multiset{f} + Given(n)
  {
    hide Counted, Ranked, Freed, Given, SetNext;
    RankedAt(m.store, m.rank, f);
    GivenNull();
    SetNextCounted(m.store, m.handles, f, NULL);
    CutRanked(m.store, m.rank, f);
    SetNextCode(m.store, f);
    n := m.store[f].next;
    LessNothing(m.handles + Given(n));
    ghost var h := m.handles;
    m.store := m.store[f := m.store[f].(next := NULL)];
    m.handles := m.handles + Given(n);
    var _ := Free(m, f);
    assert h + Given(n) - multiset{f} == h - multiset{f} + Given(n);
  }

  lemma SetNextCode(s: Store, f: Ptr)
    requires f in s
    ensures s[f := s[f].(next := NULL)] == SetNext(s, f, NULL)
  {
  }

  /** The store with the first `n` bytes of the pbuf at `p` hidden. */
  ghost function Hidden(s: Store, p: Ptr, n: nat): Store
    requires p in s && n <= |s[p].data| && n < U16
  {
    s[p := s[p].(data := s[p].data[n..], totLen := (s[p].totLen + (U16 - n)) % U16)]
  }

  /** pbuf_remove_header within the first pbuf. */
  method RemoveHeader(m: Pbufs, p: Ptr, n: nat)
    requires m.Valid() && p in m.store && n <= |m.store[p].data| && n < U16
    modifies m`store
    ensures m.Valid() && m.store == if n == 0 then old(m.store) else Hidden(old(m.store), p, n)
  {
    hide Counted, Ranked, Hidden, SameLinks;
    if n == 0 {
      return;
    }
    ghost var s := m.store;
    HiddenSame(s, p, n);
    SameLinksKeep(s, Hidden(s, p, n), m.rank, m.handles);
    m.store := m.store[p := m.store[p].(data := m.store[p].data[n..])];
    m.store := m.store[p := m.store[p].(totLen := (m.store[p].totLen + (U16 - n)) % U16)];
  }

  lemma HiddenSame(s: Store, p: Ptr, n: nat)
    requires p in s && n <= |s[p].data| && n < U16
    ensures SameLinks(s, Hidden(s, p, n))
    ensures var t := s[p := s[p].(data := s[p].data[n..])];
      Hidden(s, p, n) == t[p := t[p].(totLen := (t[p].totLen + (U16 - n)) % U16)]
  {
  }

  /** Freeing a header leaves the chain without its first bytes. */
  lemma HiddenPath(s: Store, p: Ptr, ps: seq<Ptr>, n: nat)
    requires p in s && IsPath(s, p, ps) && n <= |s[p].data| && n < U16 && forall i :: 0 < i < |ps| ==> ps[i] != p
    ensures IsPath(Hidden(s, p, n), p, ps) && Flat(Hidden(s, p, n), ps) == Flat(s, ps)[n..]
  {
    hide Hidden, Flat, IsPath;
    var t := Hidden(s, p, n);
    PathIn(s, p, ps);
    HiddenFacts(s, p, n);
    PathKept(s, t, p, ps);
    FirstOfPath(s, p, ps);
    forall q | q in ps[1..]
      ensures q in s && q in t && t[q].data == s[q].data
    {
      var i :| 0 <= i < |ps| - 1 && ps[1..][i] == q;
      assert ps[i + 1] == q;
    }
    FlatKept(s, t, ps[1..]);
    FlatHead(s, ps);
    FlatHead(t, ps);
  }

  lemma HiddenFacts(s: Store, p: Ptr, n: nat)
    requires p in s && n <= |s[p].data| && n < U16
    ensures Hidden(s, p, n).Keys == s.Keys && Hidden(s, p, n)[p].data == s[p].data[n..]
    ensures forall q :: q in s ==> Hidden(s, p, n)[q].next == s[q].next
    ensures forall q :: q in s && q != p ==> Hidden(s, p, n)[q] == s[q]
  {
  }

  lemma FirstOfPath(s: Store, p: Ptr, ps: seq<Ptr>)
    requires p in s && IsPath(s, p, ps)
    ensures ps != [] && ps[0] == p
  {
  }

  lemma FlatHead(s: Store, ps: seq<Ptr>)
    requires ps != [] && ps[0] in s
    ensures Flat(s, ps) == s[ps[0]].data + Flat(s, ps[1..])
  {
  }

  /** Hiding bytes of `p` keeps the totals right if and only if nothing links to it. */
  lemma HiddenTotals(s: Store, p: Ptr, n: nat)
    requires p in s && TotalAt(s, p) && 0 < n <= |s[p].data| && n < U16
    requires forall q :: q in s && s[q].next == p ==> q != p && TotalAt(s, q)
    ensures Totals(Hidden(s, p, n)) <==> Totals(s) && Root(s, p)
  {
    var t := Hidden(s, p, n);
    forall q | q in s
      ensures q in t && (TotalAt(t, q) <==> TotalAt(s, q) && s[q].next != p)
    {
      if q == p {
        HiddenSum(s[p].totLen, |s[p].data|, TotalFrom(s, s[p].next), n);
      } else if s[q].next == p {
        MovedSum(|s[q].data|, s[p].totLen, U16 - n);
      }
    }
  }

  lemma HiddenSum(tot: nat, len: nat, next: nat, n: nat)
    requires tot == (len + next) % U16 && n <= len < U16
    ensures (tot + (U16 - n)) % U16 == (len - n + next) % U16
  {
    ModInner(U16 - n, len + next);
  }

  lemma HandleGiven(handles: multiset<Ptr>, p: Ptr)
    requires NULL !in handles && (p in handles || p == NULL)
    ensures handles == handles - multiset{p} + Given(p)
  {
    HandleBack(handles, p);
  }

  lemma HandlePassed(kept: multiset<Ptr>, f: Ptr, p: Ptr)
    requires f != NULL
    ensures kept + Given(f) - multiset{f} + Given(p) == kept + Given(p) && f in kept + Given(f)
  {
    assert kept + Given(f) - multiset{f} == kept;
  }

  lemma FirstOf(s: Store, q: Ptr, ps: seq<Ptr>)
    requires IsPath(s, q, ps) && NULL !in s && (q == NULL || q in s)
    ensures q == if 0 < |ps| then ps[0] else NULL
  {
  }

  lemma NextOf(s: Store, rank: map<Ptr, nat>, q: Ptr, ps: seq<Ptr>, k: nat)
    requires Ranked(s, rank) && IsPath(s, q, ps) && 0 < k <= |ps| && ps[k - 1] in s
    ensures s[ps[k - 1]].next == if k < |ps| then ps[k] else NULL
  {
    PathFacts(s, rank, q, ps);
  }

  lemma DroppedAt(s: Store, rank: map<Ptr, nat>, handles: multiset<Ptr>, q: Ptr, ps: seq<Ptr>, k: nat)
    requires Ranked(s, rank) && Counted(s, handles) && IsPath(s, q, ps) && k < |ps|
    ensures ps[k] in s && ps[k] in Dropped(s, ps, k) && Dropped(s, ps, k)[ps[k]] == s[ps[k]]
    ensures s[ps[k]].ref > 0 && NULL !in s && NULL !in Dropped(s, ps, k)
  {
    PathConsecutive(s, rank, q, ps);
    DroppedRest(s, ps, k);
  }

  /** The chain left over, less `left` bytes of its first pbuf. */
  lemma HiddenHere(s: Store, rank: map<Ptr, nat>, q: Ptr, ps: seq<Ptr>, k: nat, left: nat)
    requires Ranked(s, rank) && IsPath(s, q, ps) && k < |ps| && ps[k] in s && left <= |s[ps[k]].data| && left < U16
    requires ps[k] in Dropped(s, ps, k) && Dropped(s, ps, k)[ps[k]] == s[ps[k]]
    ensures var t := Hidden(Dropped(s, ps, k), ps[k], left);
      IsPath(t, ps[k], ps[k..]) && Flat(t, ps[k..]) == Flat(s, ps[k..])[left..]
  {
    hide Dropped, Hidden;
    DroppedPath(s, rank, q, ps, k);
    PathFacts(s, rank, q, ps);
    forall i | 0 < i < |ps[k..]|
      ensures ps[k..][i] != ps[k]
    {
      assert ps[k..][i] == ps[k + i];
    }
    HiddenPath(Dropped(s, ps, k), ps[k], ps[k..], left);
  }

  lemma FinalHere(s: Store, rank: map<Ptr, nat>, q: Ptr, ps: seq<Ptr>, k: nat)
    requires Ranked(s, rank) && IsPath(s, q, ps) && k <= |ps|
    ensures var p, t := if k < |ps| then ps[k] else NULL, Dropped(s, ps, k);
      IsPath(t, p, ps[k..]) && Flat(t, ps[k..]) == Flat(s, ps[k..])
    ensures Flat(s, ps) == Flat(s, ps[..k]) + Flat(s, ps[k..]) && (k == |ps| ==> Flat(s, ps[k..]) == [])
  {
    hide Dropped;
    if k < |ps| {
      DroppedPath(s, rank, q, ps, k);
    } else {
      DroppedKeys(s, ps, k);
    }
    FlatConcat(s, ps[..k], ps[k..]);
    assert ps[..k] + ps[k..] == ps;
  }

  lemma RestOf(c: seq<Byte>, a: seq<Byte>, b: seq<Byte>, n: nat)
    requires c == a + b
    ensures |a| <= n <= |c| ==> c[n..] == b[n - |a|..]
    ensures |a| == n ==> c[n..] == b
  {
  }

  /** `t` is `s` with the first `k` pbufs of `ps` let go, and what is left of
      `size` bytes hidden from the next one. */
  ghost predicate Headless(s: Store, ps: seq<Ptr>, k: nat, t: Store, size: nat)
    requires k <= |ps|
  {
    var u, cut := Dropped(s, ps, k), size - |Flat(s, ps[..k])|;
    if k < |ps| && 0 < cut then
      ps[k] in u && ps[k] in s && cut < |s[ps[k]].data| == |u[ps[k]].data| && cut < U16 && t == Hidden(u, ps[k], cut)
    else t == u
  }

  lemma HeadlessWhole(s: Store, ps: seq<Ptr>, k: nat, size: nat)
    requires k <= |ps| && (k == |ps| || size <= |Flat(s, ps[..k])|)
    ensures Headless(s, ps, k, Dropped(s, ps, k), size)
  {
  }

  lemma HeadlessCut(s: Store, ps: seq<Ptr>, k: nat, size: nat, cut: nat)
    requires k < |ps| && cut == size - |Flat(s, ps[..k])| && 0 < cut < U16 && ps[k] in s && cut < |s[ps[k]].data|
    requires ps[k] in Dropped(s, ps, k) && Dropped(s, ps, k)[ps[k]] == s[ps[k]]
    ensures Headless(s, ps, k, Hidden(Dropped(s, ps, k), ps[k], cut), size)
  {
    hide Dropped, Flat, Hidden;
  }

  /** Lets the pbufs go that lie in the first `size` bytes as a whole. */
  method DropWhole(m: Pbufs, q: Ptr, size: nat, ghost ps: seq<Ptr>) returns (p: Ptr, left: nat, ghost k: nat)
    requires m.Valid() && (q == NULL || q in m.handles) && IsPath(m.store, q, ps)
    modifies m
    ensures m.Valid() && m.rank == old(m.rank) && m.handles == old(m.handles) - multiset{q} + Given(p)
    ensures k <= |ps| && p == (if k < |ps| then ps[k] else NULL) && m.store == Dropped(old(m.store), ps, k)
    ensures left == size - |Flat(old(m.store), ps[..k])|
    ensures left > 0 && p != NULL ==> p in m.store && left < |m.store[p].data|
    ensures k > 0 ==> |Flat(old(m.store), ps[..k - 1])| < size
  {
    hide Counted, Ranked, IsPath, Flat, PathOf, Given, Freed, SetNext, Dropped, Consecutive;
    ghost var s, r, h := m.store, m.rank, m.handles;
    NullOutside(s, r, h);
    PathConsecutive(s, r, q, ps);
    HandleGiven(h, q);
    if q != NULL {
      HandleLive(s, r, h, q);
    }
    p, k, left := q, 0, size;
    ghost var kept := h - multiset{q};
    FlatNone(s, ps);
    DroppedNone(s, ps);
    FirstOf(s, q, ps);
    while left > 0 && p != NULL
      invariant m.Valid() && m.rank == r && m.handles == kept + Given(p)
      invariant k <= |ps| && p == (if k < |ps| then ps[k] else NULL) && m.store == Dropped(s, ps, k)
      invariant left == size - |Flat(s, ps[..k])| && (k > 0 ==> |Flat(s, ps[..k - 1])| < size)
      decreases |ps| - k
    {
      DroppedAt(s, r, h, q, ps, k);
      if left < |m.store[p].data| {
        break;
      }
      FlatStep(s, ps, k);
      ConsecutiveAt(s, ps, k);
      var f := p;
      left := left - |m.store[p].data|;
      HandlePassed(kept, f, f);
      p := LetGo(m, f);
      DroppedStep(s, ps, k);
      k := k + 1;
      NextOf(s, r, q, ps, k);
      HandlePassed(kept, f, p);
    }
  }

  /** pbuf_free_header: lets pbufs go while they lie in the first `size` bytes and
      hides the rest of those bytes; `k` pbufs go. */
  method FreeHeader(m: Pbufs, q: Ptr, size: nat) returns (p: Ptr, ghost k: nat)
    requires m.Valid() && (q == NULL || q in m.handles) && size < U16
    modifies m
    ensures m.Valid() && m.handles == old(m.handles) - multiset{q} + Given(p)
    ensures k <= |old(m.Path(q))| && p == if k < |old(m.Path(q))| then old(m.Path(q))[k] else NULL
    ensures m.Contents(p) == if size <= |old(m.Contents(q))| then old(m.Contents(q))[size..] else []
    ensures Headless(old(m.store), old(m.Path(q)), k, m.store, size)
    ensures k > 0 ==> |Flat(old(m.store), old(m.Path(q))[..k - 1])| < size
  {
    hide Counted, Ranked, IsPath, Flat, PathOf, Given, Dropped, Consecutive, Hidden, Headless;
    ghost var s, r, ps, h := m.store, m.rank, m.Path(q), m.handles;
    NullOutside(s, r, h);
    var left;
    p, left, k := DropWhole(m, q, size, ps);
    FinalHere(s, r, q, ps, k);
    if left > 0 && p != NULL {
      DroppedAt(s, r, h, q, ps, k);
      FlatStep(s, ps, k);
      HiddenHere(s, r, q, ps, k, left);
      HeadlessCut(s, ps, k, size, left);
      RemoveHeader(m, p, left);
    } else {
      NullPast(s, r, q, ps, k, p);
      HeadlessWhole(s, ps, k, size);
    }
    PathUnique(m.store, p, m.Path(p), ps[k..]);
    RestOf(Flat(s, ps), Flat(s, ps[..k]), Flat(s, ps[k..]), size);
  }

  lemma NullPast(s: Store, rank: map<Ptr, nat>, q: Ptr, ps: seq<Ptr>, k: nat, p: Ptr)
    requires Ranked(s, rank) && IsPath(s, q, ps) && k <= |ps| && p == if k < |ps| then ps[k] else NULL
    ensures p == NULL <==> k == |ps|
  {
    PathConsecutive(s, rank, q, ps);
  }

  /** Of the pbufs not let go, none links to the first one that is left. */
  ghost predicate Unshared(s: Store, ps: seq<Ptr>, k: nat)
    requires k < |ps|
  {
    forall q :: q in s && q !in ps[..k] ==> s[q].next != ps[k]
  }

  /** After pbuf_free_header tot_len is right everywhere if and only if each pbuf
      let go is gone or was followed by nothing but a multiple of 64K, and the pbuf
      that loses some of its bytes is nobody else's tail. */
  lemma HeadlessTotals(s: Store, rank: map<Ptr, nat>, handles: multiset<Ptr>, q: Ptr, ps: seq<Ptr>, k: nat, t: Store,
                       size: nat)
    requires Ranked(s, rank) && Counted(s, handles) && IsPath(s, q, ps) && Totals(s) && (q == NULL || q in handles)
    requires k <= |ps| && Headless(s, ps, k, t, size)
    ensures Totals(t) <==> Clean(s, ps, k) && (k < |ps| && |Flat(s, ps[..k])| < size ==> Unshared(s, ps, k))
  {
    hide Dropped, Hidden, Clean, Totals, TotalAt, IsPath, Flat, Consecutive, Counted, Unshared;
    PathConsecutive(s, rank, q, ps);
    NullOutside(s, rank, handles);
    DroppedTotals(s, handles, ps, k);
    var u, cut := Dropped(s, ps, k), size - |Flat(s, ps[..k])|;
    if k < |ps| && 0 < cut {
      NewRoot(s, ps, k);
      LinkersRight(s, handles, ps, k);
      SharedDropped(s, handles, ps, k, ps[k]);
      DroppedTotalAt(s, ps, k, ps[k]);
      HiddenTotals(u, ps[k], cut);
    }
  }

  lemma LinkersRight(s: Store, handles: multiset<Ptr>, ps: seq<Ptr>, k: nat)
    requires Totals(s) && Counted(s, handles) && Consecutive(s, ps) && k < |ps| && ps[0] in handles && NULL !in s
    requires forall x :: x in s ==> s[x].next != x
    ensures var u := Dropped(s, ps, k);
      forall q :: q in u && u[q].next == ps[k] ==> q != ps[k] && TotalAt(u, q)
  {
    hide Counted, Consecutive, TotalAt;
    var u := Dropped(s, ps, k);
    ConsecutiveAt(s, ps, k);
    forall q | q in u && u[q].next == ps[k]
      ensures q != ps[k] && TotalAt(u, q)
    {
      SharedDropped(s, handles, ps, k, q);
      DroppedTotalAt(s, ps, k, q);
    }
  }

  lemma CountedPositive(s: Store, handles: multiset<Ptr>)
    requires Counted(s, handles)
    ensures forall x :: x in s ==> s[x].ref > 0
  {
  }

  /** What links to the first pbuf that is left. */
  lemma NewRoot(s: Store, ps: seq<Ptr>, k: nat)
    requires Consecutive(s, ps) && k < |ps| && NULL !in s
    ensures Root(Dropped(s, ps, k), ps[k]) <==> Unshared(s, ps, k)
    ensures ps[k] !in ps[..k]
  {
    var u := Dropped(s, ps, k);
    forall q | q in s
      ensures q in u && u[q].next == ps[k] <==> q !in ps[..k] && s[q].next == ps[k]
    {
    }
  }
}
