/** Putting chains of packet buffers together and taking them apart. */
module PbufChains {
  import opened Octets
  import opened PbufStore
  import opened PbufRefs

  // ---------- What freeing leaves of other chains ----------

  /** A chain that survives is the same list with the same bytes. */
  lemma {:induction false} BodiesPath(s: Store, t: Store, rank: map<Ptr, nat>, p: Ptr)
    requires Ranked(s, rank) && Ranked(t, rank) && SameBodies(s, t) && (p == NULL || p in t)
    ensures PathOf(t, rank, p) == PathOf(s, rank, p)
    ensures Flat(t, PathOf(t, rank, p)) == Flat(s, PathOf(s, rank, p))
    decreases Level(s, rank, p)
  {
    if p != NULL {
      assert t[p].(ref := 0) == s[p].(ref := 0);
      BodiesPath(s, t, rank, t[p].next);
    }
  }

  lemma BodiesTotals(s: Store, t: Store, rank: map<Ptr, nat>)
    requires Ranked(s, rank) && Ranked(t, rank) && SameBodies(s, t) && Totals(s)
    ensures Totals(t)
  {
    forall p | p in t
      ensures TotalAt(t, p)
    {
      assert TotalAt(s, p) && t[p].(ref := 0) == s[p].(ref := 0);
      var n := t[p].next;
      if n in t {
        assert t[n].(ref := 0) == s[n].(ref := 0);
      }
    }
  }

  // ---------- pbuf_cat and pbuf_chain ----------

  /** Outside pbufs do not link into `ps`: its totals are nobody else's. */
  ghost predicate Headed(s: Store, ps: seq<Ptr>)
  {
    forall q, k :: q in s && 0 <= k < |ps| && s[q].next == ps[k] ==> k > 0 && ps[k - 1] == q
  }

  /** `d` added to every tot_len of `ps`, as 16 bits. */
  ghost function AddTotals(s: Store, ps: seq<Ptr>, d: nat): Store
  {
    map x | x in s :: if x in ps then s[x].(totLen := (s[x].totLen + d) % U16) else s[x]
  }

  lemma AddTotalsStep(s: Store, ps: seq<Ptr>, i: nat, d: nat)
    requires i < |ps| && ps[i] in s && forall j :: 0 <= j < i ==> ps[j] != ps[i]
    ensures AddTotals(s, ps[..i + 1], d)
      == AddTotals(s, ps[..i], d)[ps[i] := s[ps[i]].(totLen := (s[ps[i]].totLen + d) % U16)]
    ensures ps[i] in AddTotals(s, ps[..i], d) && AddTotals(s, ps[..i], d)[ps[i]] == s[ps[i]]
  {
    assert ps[..i + 1] == ps[..i] + [ps[i]];
  }

  lemma AddTotalsNone(s: Store, ps: seq<Ptr>, d: nat)
    ensures AddTotals(s, ps[..0], d) == s && AddTotals(s, ps, d).Keys == s.Keys && ps[..|ps|] == ps
    ensures forall x :: x in s && x !in ps ==> AddTotals(s, ps, d)[x] == s[x]
    ensures forall x :: x in s ==> AddTotals(s, ps, d)[x].(totLen := 0) == s[x].(totLen := 0)
  {
  }

  /** Lengths and bytes apart, the stores are the same. */
  ghost predicate SameLinks(s: Store, g: Store)
  {
    Alike(s, g) && forall p :: p in s ==> g[p].ref == s[p].ref
  }

  lemma SameLinksKeep(s: Store, g: Store, rank: map<Ptr, nat>, handles: multiset<Ptr>)
    requires Ranked(s, rank) && Counted(s, handles) && SameLinks(s, g)
    ensures Ranked(g, rank) && Counted(g, handles)
  {
    AlikeRanked(s, g, rank);
    AlikeLinks(s, g);
  }

  function SetNext(s: Store, x: Ptr, n: Ptr): Store
    requires x in s
  {
    s[x := s[x].(next := n)]
  }

  /** A link replaced: the caller now holds the old target and no longer the new one. */
  lemma SetNextCounted(s: Store, handles: multiset<Ptr>, x: Ptr, n: Ptr)
    requires Counted(s, handles) && x in s && NULL !in s && (s[x].next == NULL || s[x].next in s)
    requires n == NULL || n in handles
    ensures Counted(SetNext(s, x, n), handles + Given(s[x].next) - Given(n))
  {
    hide SetNext, Given, Links;
    var f, o := SetNext(s, x, n), s[x].next;
    var h := handles + Given(o) - Given(n);
    SetNextFacts(s, x, n);
    Relinked(s, f, x);
    HandlesMoved(handles, o, n);
    forall p | p in f
      ensures f[p].ref == |Links(f, p)| + h[p] && f[p].ref > 0
    {
      assert f[p].ref == s[p].ref;
    }
    forall p | p in h
      ensures p in f
    {
      assert p in handles || p == o;
    }
  }

  lemma HandlesMoved(handles: multiset<Ptr>, o: Ptr, n: Ptr)
    requires n == NULL || n in handles
    ensures forall p: Ptr :: p != NULL ==> (handles + Given(o) - Given(n))[p] == handles[p] + One(o == p) - One(n == p)
    ensures forall p: Ptr :: p in handles + Given(o) - Given(n) ==> p in handles || (p == o && o != NULL)
  {
  }

  lemma SetNextFacts(s: Store, x: Ptr, n: Ptr)
    requires x in s
    ensures SetNext(s, x, n).Keys == s.Keys && SetNext(s, x, n)[x].next == n
    ensures forall p :: p in s ==> SetNext(s, x, n)[p].(next := 0) == s[p].(next := 0)
    ensures forall p :: p in s && p != x ==> SetNext(s, x, n)[p] == s[p]
  {
  }

  lemma CutRanked(s: Store, rank: map<Ptr, nat>, x: Ptr)
    requires Ranked(s, rank) && x in s
    ensures Ranked(SetNext(s, x, NULL), rank)
  {
  }

  /** Ranks once `ts` comes after other chains. */
  ghost function RaisedAbove(rank: map<Ptr, nat>, ts: seq<Ptr>, d: nat): map<Ptr, nat>
  {
    map x | x in rank :: if x in ts then rank[x] else rank[x] + d
  }

  lemma LinkRanked(s: Store, rank: map<Ptr, nat>, x: Ptr, t: Ptr, ts: seq<Ptr>)
    requires Ranked(s, rank) && x in s && t in s && IsPath(s, t, ts) && x !in ts && s[x].next == NULL
    ensures Ranked(SetNext(s, x, t), RaisedAbove(rank, ts, rank[t] + 1))
  {
    var f, r := SetNext(s, x, t), RaisedAbove(rank, ts, rank[t] + 1);
    forall p | p in f
      ensures p in r && (f[p].next == NULL || (f[p].next in f && f[p].next in r && r[f[p].next] < r[p]))
    {
      if p == x {
        assert ts[0] == t && t in ts;
      } else if p in ts && s[p].next != NULL {
        NextInPath(s, rank, t, ts, p);
      }
    }
  }

  lemma NextInPath(s: Store, rank: map<Ptr, nat>, t: Ptr, ts: seq<Ptr>, p: Ptr)
    requires Ranked(s, rank) && IsPath(s, t, ts) && p in ts && p in s && s[p].next != NULL
    ensures s[p].next in ts
  {
    PathFacts(s, rank, t, ts);
    var i :| 0 <= i < |ts| && ts[i] == p;
    assert ts[i + 1] in ts;
  }

  lemma {:induction false} PathIn(s: Store, p: Ptr, ps: seq<Ptr>)
    requires IsPath(s, p, ps)
    ensures forall q :: q in ps ==> q in s
    decreases |ps|
  {
    if p in s {
      PathIn(s, s[p].next, ps[1..]);
    }
  }

  /** The chain `ps` continued by the chain `ts`. */
  lemma {:induction false} LinkedPath(s: Store, h: Ptr, ps: seq<Ptr>, t: Ptr, ts: seq<Ptr>)
    requires h in s && IsPath(s, h, ps) && IsPath(s, t, ts) && t in s && NULL !in s
    requires ps[|ps| - 1] in s && s[ps[|ps| - 1]].next == NULL && ps[|ps| - 1] !in ts
    requires forall i :: 0 <= i < |ps| - 1 ==> ps[i] != ps[|ps| - 1]
    ensures IsPath(SetNext(s, ps[|ps| - 1], t), h, ps + ts)
    decreases |ps|
  {
    var last := ps[|ps| - 1];
    var f := SetNext(s, last, t);
    assert (ps + ts)[1..] == ps[1..] + ts;
    if |ps| == 1 {
      PathIn(s, t, ts);
      PathKept(s, f, t, ts);
    } else {
      assert s[h].next in s;
      LinkedPath(s, s[h].next, ps[1..], t, ts);
    }
  }

  /** The pbufs of `ps` follow one another and differ. */
  ghost predicate Consecutive(s: Store, ps: seq<Ptr>)
  {
    && (forall i :: 0 <= i < |ps| ==> ps[i] in s)
    && (forall i :: 0 <= i < |ps| - 1 ==> s[ps[i]].next == ps[i + 1])
    && (forall i, j :: 0 <= i < j < |ps| ==> ps[i] != ps[j])
  }

  lemma PathConsecutive(s: Store, rank: map<Ptr, nat>, p: Ptr, ps: seq<Ptr>)
    requires Ranked(s, rank) && IsPath(s, p, ps)
    ensures Consecutive(s, ps) && NULL !in ps && NULL !in s && forall q :: q in ps ==> q in s
    ensures p in s ==> p in rank && ps != [] && ps[0] == p && s[ps[|ps| - 1]].next == NULL && ps[|ps| - 1] in ps
    ensures p !in s ==> ps == []
  {
    PathFacts(s, rank, p, ps);
    if p in s {
      assert |ps| > 0 && ps[0] == p && ps[|ps| - 1] in ps;
    }
  }

  ghost function TotalFrom(s: Store, p: Ptr): nat {
    if p in s then s[p].totLen else 0
  }

  lemma ModInner(d: nat, x: nat)
    ensures (d + x % U16) % U16 == (d + x) % U16
  {
  }

  /** Totals stay right when the chain gets another tail and all totals before
      it change by the difference. */
  lemma SplicedTotals(s: Store, ps: seq<Ptr>, n: Ptr, d: nat)
    requires Totals(s) && ps != [] && Consecutive(s, ps) && Headed(s, ps) && n !in ps && NULL !in s
    requires (TotalFrom(s, s[ps[|ps| - 1]].next) + d) % U16 == TotalFrom(s, n) % U16
    requires ps[|ps| - 1] in AddTotals(s, ps, d)
    ensures Totals(SetNext(AddTotals(s, ps, d), ps[|ps| - 1], n))
  {
    var g, last := AddTotals(s, ps, d), ps[|ps| - 1];
    var f := SetNext(g, last, n);
    AddTotalsNone(s, ps, d);
    forall p | p in f
      ensures TotalAt(f, p)
    {
      assert TotalAt(s, p);
      if p in ps {
        var i :| 0 <= i < |ps| && ps[i] == p;
        SplicedTotalAt(s, ps, n, d, i);
      } else {
        NextOutside(s, ps, p);
      }
    }
  }

  /** A pbuf outside `ps` that links into it. */
  ghost predicate Intrudes(s: Store, ps: seq<Ptr>, q: Ptr) {
    q in s && q !in ps && s[q].next in ps
  }

  lemma Intruder(s: Store, ps: seq<Ptr>) returns (q: Ptr)
    requires Consecutive(s, ps) && ps != [] && !Headed(s, ps) && s[ps[|ps| - 1]].next !in ps
    ensures Intrudes(s, ps, q) && s[q].next in s
  {
    var x, k :| x in s && 0 <= k < |ps| && s[x].next == ps[k] && !(k > 0 && ps[k - 1] == x);
    q := x;
    if x in ps {
      FollowsIn(s, ps, x, k);
    }
  }

  lemma FollowsIn(s: Store, ps: seq<Ptr>, x: Ptr, k: nat)
    requires Consecutive(s, ps) && x in ps && k < |ps| && x in s && s[x].next == ps[k] && s[ps[|ps| - 1]].next !in ps
    ensures k > 0 && ps[k - 1] == x
  {
    var j :| 0 <= j < |ps| && ps[j] == x;
    assert ps[k] in ps && j < |ps| - 1;
    assert ps[j + 1] == ps[k];
  }

  /** Totals are right after such a splice if and only if no pbuf outside `ps` links
      into it or nothing was added. */
  lemma SplicedTotalsIff(s: Store, ps: seq<Ptr>, n: Ptr, d: nat)
    requires Totals(s) && ps != [] && Consecutive(s, ps) && n !in ps && NULL !in s
    requires ps[|ps| - 1] in AddTotals(s, ps, d) && s[ps[|ps| - 1]].next !in ps
    requires (TotalFrom(s, s[ps[|ps| - 1]].next) + d) % U16 == TotalFrom(s, n) % U16
    ensures Totals(SetNext(AddTotals(s, ps, d), ps[|ps| - 1], n)) <==> Headed(s, ps) || d % U16 == 0
  {
    hide AddTotals, SetNext, Totals, TotalAt, Headed, Consecutive, TotalFrom;
    var f := SetNext(AddTotals(s, ps, d), ps[|ps| - 1], n);
    if Headed(s, ps) {
      SplicedTotals(s, ps, n, d);
    } else if d % U16 == 0 {
      NothingAdded(s, ps, d);
      RelinkedTotals(s, ps[|ps| - 1], n, d);
    } else {
      var q := Intruder(s, ps);
      SplicedBroken(s, ps, n, d, q);
      NotTotals(f, q);
    }
  }

  lemma NotTotals(s: Store, q: Ptr)
    requires q in s && !TotalAt(s, q)
    ensures !Totals(s)
  {
  }

  lemma NothingAdded(s: Store, ps: seq<Ptr>, d: nat)
    requires Totals(s) && d % U16 == 0
    ensures AddTotals(s, ps, d) == s
  {
    forall x | x in s
      ensures (s[x].totLen + d) % U16 == s[x].totLen
    {
      TotalSmall(s, x);
      ModInner(s[x].totLen, d);
    }
  }

  lemma RelinkedTotals(s: Store, x: Ptr, n: Ptr, d: nat)
    requires Totals(s) && x in s && d % U16 == 0 && (TotalFrom(s, s[x].next) + d) % U16 == TotalFrom(s, n) % U16
    ensures Totals(SetNext(s, x, n))
  {
    var f := SetNext(s, x, n);
    ModInner(TotalFrom(s, s[x].next), d);
    ModInner(|s[x].data|, TotalFrom(s, s[x].next));
    ModInner(|s[x].data|, TotalFrom(s, n));
    forall p | p in f
      ensures TotalAt(f, p)
    {
      assert TotalAt(s, p);
    }
  }

  /** The total of a pbuf that links into `ps` from outside is no longer right. */
  lemma SplicedBroken(s: Store, ps: seq<Ptr>, n: Ptr, d: nat, q: Ptr)
    requires Totals(s) && ps != [] && Intrudes(s, ps, q) && d % U16 != 0 && ps[|ps| - 1] in AddTotals(s, ps, d)
    requires s[q].next in s
    ensures var f := SetNext(AddTotals(s, ps, d), ps[|ps| - 1], n);
      q in f && !TotalAt(f, q)
  {
    hide AddTotals;
    var x := s[q].next;
    AddTotalsNone(s, ps, d);
    AddTotalsAt(s, ps, d, x);
    TotalSmall(s, x);
    assert TotalAt(s, q) && TotalAt(s, x);
    MovedSum(|s[q].data|, s[x].totLen, d);
  }

  /** Adding what is not a multiple of 64K changes a 16-bit sum. */
  lemma MovedSum(len: nat, tot: nat, d: nat)
    requires d % U16 != 0
    ensures (len + (tot + d) % U16) % U16 != (len + tot) % U16
  {
    ModInner(len, tot + d);
    if (len + tot + d) % U16 == (len + tot) % U16 {
      ModSame(len + tot, d);
    }
  }

  lemma ModSame(a: nat, d: nat)
    requires (a + d) % U16 == a % U16
    ensures d % U16 == 0
  {
    assert d == ((a + d) / U16 - a / U16) * U16;
  }

  lemma NextOutside(s: Store, ps: seq<Ptr>, p: Ptr)
    requires Headed(s, ps) && p in s && p !in ps
    ensures s[p].next !in ps
  {
    if s[p].next in ps {
      PrevInside(s, ps, p);
    }
  }

  lemma PrevInside(s: Store, ps: seq<Ptr>, p: Ptr)
    requires Headed(s, ps) && p in s && s[p].next in ps
    ensures p in ps
  {
    var k :| 0 <= k < |ps| && ps[k] == s[p].next;
    assert ps[k - 1] == p;
  }

  lemma SplicedTotalAt(s: Store, ps: seq<Ptr>, n: Ptr, d: nat, i: nat)
    requires ps != [] && Consecutive(s, ps) && n !in ps && i < |ps| && TotalAt(s, ps[i])
    requires (TotalFrom(s, s[ps[|ps| - 1]].next) + d) % U16 == TotalFrom(s, n) % U16
    requires ps[|ps| - 1] in AddTotals(s, ps, d)
    ensures ps[i] in AddTotals(s, ps, d) && TotalAt(SetNext(AddTotals(s, ps, d), ps[|ps| - 1], n), ps[i])
  {
    hide AddTotals, SetNext, Consecutive;
    var g, p, last := AddTotals(s, ps, d), ps[i], ps[|ps| - 1];
    var f := SetNext(g, last, n);
    ConsecutiveAt(s, ps, i);
    ConsecutiveAt(s, ps, |ps| - 1);
    AddTotalsAt(s, ps, d, p);
    SetNextFacts(g, last, n);
    if i < |ps| - 1 {
      AddTotalsAt(s, ps, d, ps[i + 1]);
      assert ps[i + 1] in ps;
      SplicedSum(s[p].totLen, |s[p].data|, s[ps[i + 1]].totLen, d);
    } else {
      AddTotalsNone(s, ps, d);
      SplicedEnd(s[p].totLen, |s[p].data|, TotalFrom(s, s[p].next), d, TotalFrom(s, n));
    }
  }

  lemma AddTotalsAt(s: Store, ps: seq<Ptr>, d: nat, p: Ptr)
    requires p in s && p in ps
    ensures p in AddTotals(s, ps, d) && AddTotals(s, ps, d)[p] == s[p].(totLen := (s[p].totLen + d) % U16)
  {
  }

  lemma SplicedSum(tot: nat, len: nat, next: nat, d: nat)
    requires tot == (len + next) % U16
    ensures (tot + d) % U16 == (len + (next + d) % U16) % U16
  {
    ModInner(d, len + next);
    ModInner(len, next + d);
  }

  lemma SplicedEnd(tot: nat, len: nat, o: nat, d: nat, n: nat)
    requires tot == (len + o) % U16 && (o + d) % U16 == n % U16
    ensures (tot + d) % U16 == (len + n) % U16
  {
    ModInner(d, len + o);
    ModInner(len, o + d);
    ModInner(len, n);
  }

  lemma {:induction false} PathSuffix(s: Store, p: Ptr, ps: seq<Ptr>, i: nat)
    requires IsPath(s, p, ps) && i < |ps|
    ensures IsPath(s, ps[i], ps[i..])
    decreases |ps|
  {
    if i > 0 {
      PathSuffix(s, s[p].next, ps[1..], i - 1);
      assert ps[1..][i - 1] == ps[i] && ps[1..][i - 1..] == ps[i..];
    }
  }

  /** A chain that does not end in the other has no pbuf of it. */
  lemma ApartPaths(s: Store, h: Ptr, hs: seq<Ptr>, t: Ptr, ts: seq<Ptr>)
    requires IsPath(s, h, hs) && IsPath(s, t, ts) && hs != [] && hs[|hs| - 1] !in ts
    ensures t !in hs
  {
    if t in hs {
      SharedEnd(s, h, hs, t, ts);
    }
  }

  lemma SharedEnd(s: Store, h: Ptr, hs: seq<Ptr>, t: Ptr, ts: seq<Ptr>)
    requires IsPath(s, h, hs) && IsPath(s, t, ts) && t in hs
    ensures hs[|hs| - 1] in ts
  {
    var i :| 0 <= i < |hs| && hs[i] == t;
    PathSuffix(s, h, hs, i);
    PathUnique(s, t, hs[i..], ts);
    assert ts[|hs| - 1 - i] == hs[|hs| - 1];
  }

  /** Adds `d` to the totals of all of `hs`, as 16 bits; returns the last of them. */
  method AddToAll(m: Pbufs, h: Ptr, d: nat, ghost hs: seq<Ptr>) returns (p: Ptr)
    requires Consecutive(m.store, hs) && hs != [] && hs[0] == h && m.store[hs[|hs| - 1]].next == NULL
    requires NULL !in m.store
    modifies m`store
    ensures p == hs[|hs| - 1] && m.store == AddTotals(old(m.store), hs, d)
  {
    hide AddTotals, Consecutive;
    p := h;
    ghost var i, s := 0, m.store;
    AddTotalsNone(s, hs, d);
    ConsecutiveAt(s, hs, 0);
    while m.store[p].next != NULL
      invariant i < |hs| && p in s && p == hs[i] && m.store == AddTotals(s, hs[..i], d)
      invariant m.store.Keys == s.Keys && m.store[p] == s[p]
      decreases |hs| - i
    {
      ConsecutiveAt(s, hs, i);
      AddTotalsStep(s, hs, i, d);
      m.store := m.store[p := m.store[p].(totLen := (m.store[p].totLen + d) % U16)];
      p := m.store[p].next;
      i := i + 1;
      ConsecutiveAt(s, hs, i);
      AddTotalsAhead(s, hs, i, d);
    }
    ConsecutiveAt(s, hs, i);
    assert i == |hs| - 1;
    AddTotalsStep(s, hs, i, d);
    m.store := m.store[p := m.store[p].(totLen := (m.store[p].totLen + d) % U16)];
    assert hs[..i + 1] == hs;
  }

  lemma ConsecutiveAt(s: Store, ps: seq<Ptr>, i: nat)
    requires Consecutive(s, ps) && i < |ps|
    ensures ps[i] in s && (i + 1 < |ps| ==> s[ps[i]].next == ps[i + 1] && ps[i + 1] in s)
    ensures forall j :: 0 <= j < i ==> ps[j] != ps[i]
  {
  }

  lemma AddTotalsAhead(s: Store, ps: seq<Ptr>, i: nat, d: nat)
    requires i < |ps| && ps[i] in s && forall j :: 0 <= j < i ==> ps[j] != ps[i]
    ensures ps[i] in AddTotals(s, ps[..i], d) && AddTotals(s, ps[..i], d)[ps[i]] == s[ps[i]]
  {
  }

  ghost predicate Joins(s: Store, hs: seq<Ptr>, t: Ptr) {
    hs != [] && t in s && hs[|hs| - 1] in s
  }

  /** The store after the chain `hs` is continued at `t`. */
  ghost function Catted(s: Store, hs: seq<Ptr>, t: Ptr): Store
    requires Joins(s, hs, t)
  {
    var g := AddTotals(s, hs, s[t].totLen);
    SetNext(g, hs[|hs| - 1], t)
  }

  lemma CattedKeeps(s: Store, rank: map<Ptr, nat>, handles: multiset<Ptr>, h: Ptr, hs: seq<Ptr>, t: Ptr, ts: seq<Ptr>)
    requires Ranked(s, rank) && Counted(s, handles) && IsPath(s, h, hs) && IsPath(s, t, ts) && h in s
    requires t in handles && t in s
    requires hs != [] && hs[|hs| - 1] in s && hs[|hs| - 1] !in ts
    ensures var f, r := Catted(s, hs, t), RaisedAbove(rank, ts, rank[t] + 1);
      Ranked(f, r) && Counted(f, handles - multiset{t}) && IsPath(f, h, hs + ts) && f.Keys == s.Keys
    ensures Flat(Catted(s, hs, t), hs + ts) == Flat(s, hs) + Flat(s, ts)
    ensures Totals(s) ==> (Totals(Catted(s, hs, t)) <==> Headed(s, hs) || s[t].totLen == 0)
  {
    hide Counted, Ranked, IsPath, AddTotals, Totals, Headed, SetNext, Given, Flat;
    var d, last := s[t].totLen, hs[|hs| - 1];
    var g := AddTotals(s, hs, d);
    PathConsecutive(s, rank, h, hs);
    PathConsecutive(s, rank, t, ts);
    AddTotalsNone(s, hs, d);
    AddedSameLinks(s, hs, d);
    SameLinksKeep(s, g, rank, handles);
    GivenNull();
    SetNextCounted(g, handles, last, t);
    assert handles + Given(NULL) - Given(t) == handles - multiset{t} by { GivenOne(handles, t); }
    PathKept(s, g, h, hs);
    PathKept(s, g, t, ts);
    LinkRanked(g, rank, last, t, ts);
    LinkedPath(g, h, hs, t, ts);
    SetNextFacts(g, last, t);
    FlatConcat(Catted(s, hs, t), hs, ts);
    FlatKept(s, Catted(s, hs, t), hs);
    FlatKept(s, Catted(s, hs, t), ts);
    ApartPaths(s, h, hs, t, ts);
    if Totals(s) {
      TotalSmall(s, t);
      SplicedTotalsIff(s, hs, t, d);
    }
  }

  lemma AddedSameLinks(s: Store, ps: seq<Ptr>, d: nat)
    ensures SameLinks(s, AddTotals(s, ps, d))
  {
  }

  lemma GivenOne(handles: multiset<Ptr>, t: Ptr)
    requires t != NULL
    ensures handles + Given(NULL) - Given(t) == handles - multiset{t}
  {
  }

  lemma TotalSmall(s: Store, p: Ptr)
    requires Totals(s) && p in s
    ensures s[p].totLen < U16 && TotalFrom(s, p) == s[p].totLen && TotalFrom(s, p) % U16 == s[p].totLen
  {
    assert TotalAt(s, p);
  }

  /** pbuf_cat: continues the chain `h` at `t`, taking over the caller's handle on `t`. */
  method Cat(m: Pbufs, h: Ptr, t: Ptr)
    requires m.Valid() && (h == NULL || h in m.store) && (t == NULL || t in m.handles)
    requires h != NULL && t != NULL ==> m.Path(h) != [] && m.Path(h)[|m.Path(h)| - 1] !in m.Path(t)
    modifies m
    ensures m.Valid()
    ensures h == NULL || t == NULL ==> m.store == old(m.store) && m.handles == old(m.handles)
    ensures h != NULL && t != NULL ==> Joins(old(m.store), old(m.Path(h)), t)
    ensures h != NULL && t != NULL ==>
      && m.store == Catted(old(m.store), old(m.Path(h)), t) && m.handles == old(m.handles) - multiset{t}
      && m.Path(h) == old(m.Path(h) + m.Path(t)) && m.Contents(h) == old(m.Contents(h) + m.Contents(t))
    ensures h != NULL && t != NULL && Totals(old(m.store)) ==>
      (Totals(m.store) <==> Headed(old(m.store), old(m.Path(h))) || old(m.store)[t].totLen == 0)
  {
    hide Counted, Ranked, IsPath, AddTotals, Totals, Headed, Given, Flat;
    if h == NULL || t == NULL {
      return;
    }
    ghost var s, r, hs, ts := m.store, m.rank, m.Path(h), m.Path(t);
    HandleLive(s, r, m.handles, t);
    PathConsecutive(s, r, h, hs);
    PathConsecutive(s, r, t, ts);
    ApartPaths(s, h, hs, t, ts);
    AddTotalsNone(s, hs, s[t].totLen);
    CattedKeeps(s, r, m.handles, h, hs, t, ts);
    var last := AddToAll(m, h, m.store[t].totLen, hs);
    m.store := m.store[last := m.store[last].(next := t)];
    m.rank := RaisedAbove(r, ts, r[t] + 1);
    m.handles := m.handles - multiset{t};
    PathUnique(m.store, h, m.Path(h), hs + ts);
  }

  /** pbuf_ref: one more handle on `p`. */
  method Ref(m: Pbufs, p: Ptr)
    requires m.Valid() && (p == NULL || (p in m.store && m.store[p].ref < 255))
    modifies m
    ensures m.Valid() && m.rank == old(m.rank) && m.handles == old(m.handles) + Given(p)
    ensures p == NULL ==> m.store == old(m.store)
    ensures p != NULL ==> m.store == old(m.store)[p := old(m.store)[p].(ref := old(m.store)[p].ref + 1)]
  {
    hide Counted, Ranked, Given;
    GivenNull();
    NoHandle(m.handles);
    if p != NULL {
      MoreRefs(m.store, m.rank, m.handles, p);
      m.store := m.store[p := m.store[p].(ref := m.store[p].ref + 1)];
      m.handles := m.handles + Given(p);
    }
  }

  lemma NoHandle(handles: multiset<Ptr>)
    ensures handles + Given(NULL) == handles
  {
  }

  lemma MoreRefs(s: Store, rank: map<Ptr, nat>, handles: multiset<Ptr>, p: Ptr)
    requires Ranked(s, rank) && Counted(s, handles) && p in s
    ensures var t := s[p := s[p].(ref := s[p].ref + 1)];
      Ranked(t, rank) && Counted(t, handles + Given(p))
  {
    var t := s[p := s[p].(ref := s[p].ref + 1)];
    AlikeLinks(s, t);
    AlikeRanked(s, t, rank);
  }

  lemma CattedFacts(s: Store, hs: seq<Ptr>, t: Ptr)
    ensures Joins(s, hs, t) ==> Catted(s, hs, t).Keys == s.Keys
    ensures Joins(s, hs, t) ==> Catted(s, hs, t)[t].ref == s[t].ref
  {
  }

  /** The store after the chain `hs` is continued at `t`, which has one more reference. */
  ghost function Chained(s: Store, hs: seq<Ptr>, t: Ptr): Store
    requires Joins(s, hs, t)
  {
    var f := Catted(s, hs, t);
    f[t := f[t].(ref := f[t].ref + 1)]
  }

  /** pbuf_chain: continues the chain `h` at `t`, of which the caller keeps its handle. */
  method Chain(m: Pbufs, h: Ptr, t: Ptr)
    requires m.Valid() && h in m.store && t in m.handles && t in m.store && m.store[t].ref < 255
    requires m.Path(h) != [] && m.Path(h)[|m.Path(h)| - 1] !in m.Path(t)
    modifies m
    ensures m.Valid() && m.handles == old(m.handles)
    ensures Joins(old(m.store), old(m.Path(h)), t) && m.store == Chained(old(m.store), old(m.Path(h)), t)
    ensures m.Path(h) == old(m.Path(h) + m.Path(t)) && m.Contents(h) == old(m.Contents(h) + m.Contents(t))
    ensures Totals(old(m.store)) ==>
      (Totals(m.store) <==> Headed(old(m.store), old(m.Path(h))) || old(m.store)[t].totLen == 0)
  {
    hide Counted, Ranked, IsPath, Totals, Headed, Given, Flat, PathOf, Catted;
    NullOutside(m.store, m.rank, m.handles);
    HandleBack(m.handles, t);
    CattedFacts(m.store, m.Path(h), t);
    Cat(m, h, t);
    ghost var s := m.store;
    Ref(m, t);
    RefKeeps(s, m.store, m.rank, h, t, s[t].ref + 1);
    GivenNull();
    OneGiven(t);
  }

  lemma OneGiven(t: Ptr)
    requires t != NULL
    ensures Given(t) == multiset{t}
  {
  }

  lemma RefKeeps(s: Store, t: Store, rank: map<Ptr, nat>, p: Ptr, x: Ptr, n: nat)
    requires Ranked(s, rank) && Ranked(t, rank) && p in s && x in s && t == s[x := s[x].(ref := n)]
    ensures PathOf(t, rank, p) == PathOf(s, rank, p) && Flat(t, PathOf(t, rank, p)) == Flat(s, PathOf(s, rank, p))
    ensures Totals(s) <==> Totals(t)
  {
    assert SameBodies(s, t) && SameBodies(t, s);
    BodiesPath(s, t, rank, p);
    if Totals(s) {
      BodiesTotals(s, t, rank);
    }
    if Totals(t) {
      BodiesTotals(t, s, rank);
    }
  }

  // ---------- Shared tails ----------

  /** A pbuf of one byte. */
  function Single(next: Ptr, tot: nat, ref: nat): Pbuf {
    Pbuf(next, [0], tot, ref, false)
  }

  /** Four pbufs apart; then 1 and 2 chained to 3. */
  function FourApart(): Store {
    map[1 := Single(NULL, 1, 1), 2 := Single(NULL, 1, 1), 3 := Single(NULL, 1, 1), 4 := Single(NULL, 1, 1)]
  }

  function OneChained(): Store {
    map[1 := Single(3, 2, 1), 2 := Single(NULL, 1, 1), 3 := Single(NULL, 1, 2), 4 := Single(NULL, 1, 1)]
  }

  function BothChained(): Store {
    map[1 := Single(3, 2, 1), 2 := Single(3, 2, 1), 3 := Single(NULL, 1, 3), 4 := Single(NULL, 1, 1)]
  }

  lemma SharedTailMade()
    ensures Joins(FourApart(), [1], 3) && Chained(FourApart(), [1], 3) == OneChained()
    ensures Joins(OneChained(), [2], 3) && Chained(OneChained(), [2], 3) == BothChained()
    ensures Totals(FourApart()) && Totals(OneChained()) && Totals(BothChained())
  {
    assert Chained(FourApart(), [1], 3) == OneChained();
    assert Chained(OneChained(), [2], 3) == BothChained();
  }

  /** Where the condition fails: two pbufs are chained to the same third one, then a
      fourth is appended to the first chain. The second chain is one byte longer too,
      but its tot_len is not. */
  lemma SharedTail()
    ensures Totals(FourApart()) && Joins(FourApart(), [1], 3)
    ensures var once := Chained(FourApart(), [1], 3);
      && Joins(once, [2], 3)
      && var twice := Chained(once, [2], 3);
      && Totals(twice) && IsPath(twice, 1, [1, 3]) && Joins(twice, [1, 3], 4)
      && var after := Catted(twice, [1, 3], 4);
      && IsPath(after, 2, [2, 3, 4]) && |Flat(after, [2, 3, 4])| == 3
      && 2 in after && after[2].totLen == 2 && !Totals(after)
  {
    SharedTailMade();
    SharedTailBroken();
  }

  lemma SharedTailBroken()
    ensures IsPath(BothChained(), 1, [1, 3]) && Joins(BothChained(), [1, 3], 4)
    ensures var after := Catted(BothChained(), [1, 3], 4);
      && IsPath(after, 2, [2, 3, 4]) && |Flat(after, [2, 3, 4])| == 3
      && 2 in after && after[2].totLen == 2 && !Totals(after)
  {
    assert IsPath(BothChained(), 3, [3]) by { assert [3][1..] == []; }
    assert [1, 3][1..] == [3];
    assert Catted(BothChained(), [1, 3], 4) == Lengthened();
    LengthenedPath();
    assert !TotalAt(Lengthened(), 2);
  }

  function Lengthened(): Store {
    map[1 := Single(3, 3, 1), 2 := Single(3, 2, 1), 3 := Single(4, 2, 3), 4 := Single(NULL, 1, 1)]
  }

  lemma LengthenedPath()
    ensures IsPath(Lengthened(), 2, [2, 3, 4]) && |Flat(Lengthened(), [2, 3, 4])| == 3
  {
    var s := Lengthened();
    assert [2, 3, 4][1..] == [3, 4] && [3, 4][1..] == [4] && [4][1..] == [];
    assert IsPath(s, 4, [4]) && IsPath(s, 3, [3, 4]);
    assert Flat(s, [4]) == [0] && Flat(s, [3, 4]) == [0, 0];
  }
}
