/** Reference counts of packet buffers: who frees what, and when. */
module PbufRefs {
  import opened Octets
  import opened PbufStore

  /** All packet buffers, with the handles that callers hold. */
  class Pbufs {
    var store: Store
    ghost var rank: map<Ptr, nat>
    ghost var handles: multiset<Ptr>

    ghost predicate Valid()
      reads this
    {
      Ranked(store, rank) && Counted(store, handles)
    }

    /** The pbufs of the chain at `p`. */
    ghost function Path(p: Ptr): seq<Ptr>
      requires Valid()
      reads this
    {
      PathOf(store, rank, p)
    }

    /** The bytes of the chain at `p`. */
    ghost function Contents(p: Ptr): seq<Byte>
      requires Valid()
      reads this
    {
      Flat(store, PathOf(store, rank, p))
    }
  }

  /** The pbufs from `p` on that only their predecessor refers to. */
  ghost function HeadRun(s: Store, p: Ptr): seq<Ptr>
    decreases |s|
  {
    if p !in s || s[p].ref != 1 then [] else [p] + HeadRun(s - {p}, s[p].next)
  }

  /** The store after a reference to `p` is given up. */
  ghost function Freed(s: Store, p: Ptr): Store
    decreases |s|
  {
    if p !in s || s[p].ref == 0 then s
    else if s[p].ref == 1 then Freed(s - {p}, s[p].next)
    else s[p := s[p].(ref := s[p].ref - 1)]
  }

  /** Giving up the only reference to `q` passes one on to the next pbuf. */
  lemma LastReference(s: Store, rank: map<Ptr, nat>, handles: multiset<Ptr>, q: Ptr)
    requires Ranked(s, rank) && Counted(s, handles) && q in handles && s[q].ref == 1
    ensures Ranked(s - {q}, rank) && Counted(s - {q}, handles - multiset{q} + Given(s[q].next))
  {
    var t, n := s - {q}, s[q].next;
    var h := handles - multiset{q} + Given(n);
    Unlinked(s, q);
    assert |Links(s, q)| == 0 && handles[q] == 1;
    forall p | p in t
      ensures t[p].next == NULL || t[p].next in t
    {
      assert p !in Links(s, q);
    }
    assert forall p :: p in t ==> h[p] == handles[p] + One(n == p);
  }

  lemma OneReference(s: Store, rank: map<Ptr, nat>, handles: multiset<Ptr>, q: Ptr)
    requires Ranked(s, rank) && Counted(s, handles) && q in handles && s[q].ref > 1
    ensures var t := s[q := s[q].(ref := s[q].ref - 1)];
      Ranked(t, rank) && Counted(t, handles - multiset{q})
  {
    var t := s[q := s[q].(ref := s[q].ref - 1)];
    AlikeLinks(s, t);
    AlikeRanked(s, t, rank);
  }

  ghost function Given(p: Ptr): multiset<Ptr> {
    if p == NULL then multiset{} else multiset{p}
  }

  lemma GivenNull()
    ensures Given(NULL) == multiset{} && forall p: Ptr :: p != NULL ==> p in Given(p)
  {
  }

  /** What one round of pbuf_free does to `p`: takes a reference away and, if it
      was the last, the pbuf; a reference to the next pbuf `n` is then left over. */
  ghost predicate Round(s: Store, p: Ptr, t: Store, n: Ptr, gone: bool)
  {
    && p in s && NULL !in t && gone == (s[p].ref == 1)
    && (if gone then n == s[p].next && t == s - {p}
        else n == NULL && s[p].ref > 1 && t == s[p := s[p].(ref := s[p].ref - 1)])
  }

  method Unref(m: Pbufs, p: Ptr) returns (gone: bool, n: Ptr)
    requires m.Valid() && p in m.handles
    modifies m
    ensures m.Valid() && m.rank == old(m.rank)
    ensures Round(old(m.store), p, m.store, n, gone)
    ensures m.handles == old(m.handles) - multiset{p} + Given(n) && (n != NULL ==> n in m.handles)
  {
    hide Ranked, Counted, Given;
    GivenNull();
    HandleLive(m.store, m.rank, m.handles, p);
    NullOutside(m.store, m.rank, m.handles);
    ghost var kept := m.handles - multiset{p};
    assert kept + Given(NULL) == kept;
    var ref := m.store[p].ref - 1;
    if ref == 0 {
      LastReference(m.store, m.rank, m.handles, p);
      n := m.store[p].next;
      m.store := m.store - {p};
      m.handles := kept + Given(n);
      gone := true;
    } else {
      OneReference(m.store, m.rank, m.handles, p);
      m.store := m.store[p := m.store[p].(ref := ref)];
      m.handles := kept;
      gone, n := false, NULL;
    }
  }

  /** A number as the u8_t it is returned in. */
  function Low8(n: nat): nat {
    n % 256
  }

  /** What pbuf_free returns is the number of pbufs that are gone, as 8 bits. */
  lemma {:induction false} FreedCount(s: Store, p: Ptr)
    ensures |s| == |Freed(s, p)| + |HeadRun(s, p)|
    ensures Low8(|HeadRun(s, p)|) == (|s| - |Freed(s, p)|) % 256
    decreases |s|
  {
    if p in s && s[p].ref == 1 {
      assert s.Keys == (s - {p}).Keys + {p};
      FreedCount(s - {p}, s[p].next);
    }
  }

  /** With `gone` pbufs removed, freeing `p` in `s` has come to freeing `q` in `t`. */
  ghost predicate Going(s: Store, p: Ptr, t: Store, q: Ptr, gone: nat)
  {
    && Freed(t, q) == Freed(s, p) && gone + |HeadRun(t, q)| == |HeadRun(s, p)|
    && (q == NULL ==> Freed(t, q) == t && HeadRun(t, q) == [])
  }

  lemma GoingOn(s: Store, p: Ptr, t: Store, q: Ptr, gone: nat, t': Store, n: Ptr, last: bool)
    requires Going(s, p, t, q, gone) && Round(t, q, t', n, last)
    ensures Going(s, p, t', n, if last then gone + 1 else gone) && (last ==> |t'| < |t|) && |t'| <= |t|
  {
    hide Freed, HeadRun;
    FreedStep(t, q);
    NothingFreed(t');
    if last {
      assert t'.Keys == t.Keys - {q};
    } else {
      assert t'.Keys == t.Keys;
    }
  }

  /** pbuf_free: gives up a caller's handle on `p`. */
  method Free(m: Pbufs, p: Ptr) returns (count: nat)
    requires m.Valid() && (p == NULL || p in m.handles)
    modifies m
    ensures m.Valid() && m.rank == old(m.rank)
    ensures m.handles == old(m.handles) - multiset{p}
    ensures m.store == Freed(old(m.store), p)
    ensures count == Low8(|HeadRun(old(m.store), p)|)
  {
    hide Ranked, Counted, Freed, HeadRun, Low8, Going, Round;
    var q := p;
    var gone: nat := 0;
    ghost var kept := m.handles - multiset{p};
    HandleBack(m.handles, p);
    NullOutside(m.store, m.rank, m.handles);
    GoingStart(m.store, p);
    while q != NULL
      invariant m.Valid() && m.rank == old(m.rank) && (q != NULL ==> q in m.handles)
      invariant m.handles == kept + Given(q)
      invariant Going(old(m.store), p, m.store, q, gone)
      decreases |m.store|, q
    {
      assert m.handles - multiset{q} == kept;
      ghost var t, r := m.store, q;
      var last;
      last, q := Unref(m, q);
      GoingOn(old(m.store), p, t, r, gone, m.store, q, last);
      RoundEnds(t, r, m.store, q, last);
      if last {
        gone := gone + 1;
      }
    }
    GoingEnd(old(m.store), p, m.store, gone);
    assert kept + Given(q) == kept;
    count := Low8(gone);
  }

  lemma GoingStart(s: Store, p: Ptr)
    ensures NULL !in s ==> Going(s, p, s, p, 0)
  {
  }

  lemma GoingEnd(s: Store, p: Ptr, t: Store, gone: nat)
    requires Going(s, p, t, NULL, gone)
    ensures t == Freed(s, p) && gone == |HeadRun(s, p)|
  {
  }

  lemma RoundEnds(s: Store, p: Ptr, t: Store, n: Ptr, gone: bool)
    requires Round(s, p, t, n, gone)
    ensures !gone ==> n == NULL
  {
  }

  lemma HandleBack(handles: multiset<Ptr>, p: Ptr)
    ensures p in handles ==> handles == handles - multiset{p} + multiset{p}
    ensures p !in handles ==> handles == handles - multiset{p}
    ensures handles + Given(NULL) == handles
  {
  }

  lemma FreedStep(s: Store, q: Ptr)
    requires q in s && s[q].ref > 0
    ensures s[q].ref == 1 ==>
      Freed(s, q) == Freed(s - {q}, s[q].next) && HeadRun(s, q) == [q] + HeadRun(s - {q}, s[q].next)
    ensures s[q].ref > 1 ==> Freed(s, q) == s[q := s[q].(ref := s[q].ref - 1)] && HeadRun(s, q) == []
  {
  }

  lemma NothingFreed(s: Store)
    ensures NULL !in s ==> HeadRun(s, NULL) == [] && Freed(s, NULL) == s
  {
  }

  lemma NullOutside(s: Store, rank: map<Ptr, nat>, handles: multiset<Ptr>)
    requires Ranked(s, rank) && Counted(s, handles)
    ensures NULL !in s && NULL !in handles
  {
  }

  lemma HandleLive(s: Store, rank: map<Ptr, nat>, handles: multiset<Ptr>, q: Ptr)
    requires Ranked(s, rank) && Counted(s, handles) && q in handles
    ensures q in s && s[q].ref > 0 && (s[q].next == NULL || (s[q].next in s && s[q].next != q))
  {
  }

  /** `t` has fewer pbufs than `s`, with other reference counts at most. */
  ghost predicate SameBodies(s: Store, t: Store) {
    forall p :: p in t ==> p in s && t[p].(ref := 0) == s[p].(ref := 0)
  }

  lemma {:induction false} FreedBodies(s: Store, p: Ptr)
    ensures SameBodies(s, Freed(s, p))
    decreases |s|
  {
    if p in s && s[p].ref == 1 {
      FreedBodies(s - {p}, s[p].next);
    }
  }

  /** pbuf_free removes exactly the longest run of pbufs at the head of the chain
      that have a single reference, and takes one from the pbuf after it. */
  lemma {:induction false} FreedRun(s: Store, rank: map<Ptr, nat>, handles: multiset<Ptr>, p: Ptr, ps: seq<Ptr>)
    requires Ranked(s, rank) && Counted(s, handles) && IsPath(s, p, ps) && (p == NULL || p in handles)
    ensures |HeadRun(s, p)| <= |ps| && HeadRun(s, p) == ps[..|HeadRun(s, p)|]
    ensures Singles(s, HeadRun(s, p))
    ensures FreedTo(s, Freed(s, p), ps, |HeadRun(s, p)|)
    decreases |s|
  {
    hide Counted, Ranked, IsPath, Freed, HeadRun, FreedTo, Singles, Given;
    assert Singles(s, []) by { NoSingles(s); }
    NullOutside(s, rank, handles);
    if p == NULL {
      NothingFreed(s);
      PathNull(s, ps);
      FreedToNone(s, p, ps);
    } else {
      HandleLive(s, rank, handles, p);
      FreedStep(s, p);
      PathTail(s, rank, p, ps);
      if s[p].ref == 1 {
        var n, qs := s[p].next, ps[1..];
        LastReference(s, rank, handles, p);
        GivenNull();
        FreedRun(s - {p}, rank, handles - multiset{p} + Given(n), n, qs);
        FreedRunStep(s, p, ps, n);
      } else {
        FreedToNone(s, p, ps);
      }
    }
  }

  lemma FreedRunStep(s: Store, p: Ptr, ps: seq<Ptr>, n: Ptr)
    requires p in s && s[p].ref == 1 && n == s[p].next && |ps| > 0 && ps[0] == p
    requires (forall i :: 0 < i < |ps| ==> ps[i] != p)
    requires var run := HeadRun(s - {p}, n);
      && |run| < |ps| && run == ps[1..][..|run|] && Singles(s - {p}, run)
      && FreedTo(s - {p}, Freed(s - {p}, n), ps[1..], |run|)
    ensures |HeadRun(s, p)| <= |ps| && HeadRun(s, p) == ps[..|HeadRun(s, p)|]
    ensures Singles(s, HeadRun(s, p)) && FreedTo(s, Freed(s, p), ps, |HeadRun(s, p)|)
  {
    hide Freed, HeadRun, FreedTo, Singles;
    var run := HeadRun(s - {p}, n);
    FreedStep(s, p);
    assert [p] + ps[1..][..|run|] == ps[..|run| + 1];
    FreedToStep(s, Freed(s, p), p, ps, |run|);
    SinglesStep(s, p, run);
  }

  /** Each of `ps` has one reference. */
  ghost predicate Singles(s: Store, ps: seq<Ptr>) {
    forall i :: 0 <= i < |ps| ==> ps[i] in s && s[ps[i]].ref == 1
  }

  lemma NoSingles(s: Store)
    ensures Singles(s, [])
  {
  }

  lemma SinglesStep(s: Store, p: Ptr, ps: seq<Ptr>)
    requires p in s && s[p].ref == 1 && Singles(s - {p}, ps)
    ensures Singles(s, [p] + ps)
  {
  }

  lemma PathNull(s: Store, ps: seq<Ptr>)
    requires NULL !in s && IsPath(s, NULL, ps)
    ensures ps == []
  {
  }

  lemma PathTail(s: Store, rank: map<Ptr, nat>, p: Ptr, ps: seq<Ptr>)
    requires Ranked(s, rank) && IsPath(s, p, ps) && p in s
    ensures |ps| > 0 && ps[0] == p && IsPath(s - {p}, s[p].next, ps[1..]) && IsPath(s, s[p].next, ps[1..])
    ensures forall i :: 0 < i < |ps| ==> ps[i] != p && ps[i] in s
  {
    PathFacts(s, rank, p, ps);
    assert forall i :: 0 <= i < |ps| - 1 ==> ps[1..][i] == ps[i + 1];
    PathKept(s, s - {p}, s[p].next, ps[1..]);
  }

  lemma FreedToNone(s: Store, p: Ptr, ps: seq<Ptr>)
    requires p in s ==> |ps| > 0 && ps[0] == p && s[p].ref > 1
    requires p !in s ==> ps == []
    ensures p in s ==> FreedTo(s, s[p := s[p].(ref := s[p].ref - 1)], ps, 0)
    ensures p !in s ==> FreedTo(s, s, ps, 0)
  {
  }

  /** `t` is `s` without the first `k` of `ps`, and with a reference less to the
      next, which had others. */
  ghost predicate FreedTo(s: Store, t: Store, ps: seq<Ptr>, k: nat)
    requires k <= |ps|
  {
    && (k < |ps| ==> ps[k] in s && s[ps[k]].ref > 1)
    && (forall p: Ptr :: p in t <==> p in s && p !in ps[..k])
    && forall p :: p in t ==>
      t[p] == if k < |ps| && p == ps[k] then s[p].(ref := s[p].ref - 1) else s[p]
  }

  lemma FreedToStep(s: Store, t: Store, p: Ptr, ps: seq<Ptr>, k: nat)
    requires p in s && |ps| > 0 && ps[0] == p && k < |ps| && (forall i :: 0 < i < |ps| ==> ps[i] != p)
    requires FreedTo(s - {p}, t, ps[1..], k)
    ensures FreedTo(s, t, ps, k + 1)
  {
    assert ps[..k + 1] == [p] + ps[1..][..k];
  }
}
