/** Packet buffers as records behind pointers, their chains, and the flat bytes
    a chain stands for. */
module PbufStore {
  import opened Octets

  /** Pointers; 0 is NULL. */
  type Ptr = nat

  const NULL: Ptr := 0

  /** A pbuf: `data` is the `len` bytes at its payload pointer. */
  datatype Pbuf = Pbuf(next: Ptr, data: seq<Byte>, totLen: nat, ref: nat, fin: bool)

  type Store = map<Ptr, Pbuf>

  /** Links stay inside the store and lead to lower ranks, so chains are finite. */
  ghost predicate Ranked(s: Store, rank: map<Ptr, nat>)
  {
    && NULL !in s
    && forall p :: p in s ==>
        p in rank && (s[p].next == NULL || (s[p].next in s && s[p].next in rank && rank[s[p].next] < rank[p]))
  }

  ghost function Level(s: Store, rank: map<Ptr, nat>, p: Ptr): nat {
    if p in s && p in rank then rank[p] + 1 else 0
  }

  /** The pbufs of the chain that starts at `p`. */
  ghost function PathOf(s: Store, rank: map<Ptr, nat>, p: Ptr): (ps: seq<Ptr>)
    requires Ranked(s, rank)
    ensures IsPath(s, p, ps)
    decreases Level(s, rank, p)
  {
    if p !in s then [] else [p] + PathOf(s, rank, s[p].next)
  }

  /** `ps` are the pbufs met from `p` to the end of its chain. */
  ghost predicate IsPath(s: Store, p: Ptr, ps: seq<Ptr>)
    decreases |ps|
  {
    if p !in s then ps == []
    else ps != [] && ps[0] == p && IsPath(s, s[p].next, ps[1..])
  }

  /** The bytes of the pbufs in order. */
  ghost function Flat(s: Store, ps: seq<Ptr>): seq<Byte> {
    if ps == [] then []
    else (if ps[0] in s then s[ps[0]].data else []) + Flat(s, ps[1..])
  }

  /** The pbufs that link to `p`. */
  ghost function Links(s: Store, p: Ptr): set<Ptr> {
    set q | q in s && s[q].next == p
  }

  /** Reference counts are the links to a pbuf plus the handles callers hold. */
  ghost predicate Counted(s: Store, handles: multiset<Ptr>)
  {
    && (forall p :: p in s ==> s[p].ref == |Links(s, p)| + handles[p] && s[p].ref > 0)
    && (forall p :: p in handles ==> p in s)
  }

  /** tot_len is the length from here to the end of the chain, as 16 bits. */
  ghost predicate TotalAt(s: Store, p: Ptr)
    requires p in s
  {
    && |s[p].data| < U16
    && s[p].totLen == (|s[p].data| + if s[p].next in s then s[s[p].next].totLen else 0) % U16
  }

  ghost predicate Totals(s: Store) {
    forall p :: p in s ==> TotalAt(s, p)
  }

  lemma {:induction false} PathUnique(s: Store, p: Ptr, ps: seq<Ptr>, qs: seq<Ptr>)
    requires IsPath(s, p, ps) && IsPath(s, p, qs)
    ensures ps == qs
    decreases |ps|
  {
    if p in s {
      PathUnique(s, s[p].next, ps[1..], qs[1..]);
    }
  }

  /** All pbufs of a chain are live, have lower ranks than the first, and differ. */
  lemma {:induction false} PathFacts(s: Store, rank: map<Ptr, nat>, p: Ptr, ps: seq<Ptr>)
    requires Ranked(s, rank) && IsPath(s, p, ps)
    ensures forall i :: 0 <= i < |ps| ==> ps[i] in s && ps[i] in rank
    ensures forall i, j :: 0 <= i < j < |ps| ==> rank[ps[j]] < rank[ps[i]]
    ensures forall i :: 0 <= i < |ps| - 1 ==> s[ps[i]].next == ps[i + 1]
    ensures |ps| > 0 ==> s[ps[|ps| - 1]].next == NULL
    decreases |ps|
  {
    if p in s {
      PathFacts(s, rank, s[p].next, ps[1..]);
      var qs := ps[1..];
      assert forall i :: 0 <= i < |qs| ==> qs[i] == ps[i + 1];
      forall i | 0 <= i < |ps|
        ensures ps[i] in s && ps[i] in rank && (i > 0 ==> rank[ps[i]] < rank[p])
        ensures i < |ps| - 1 ==> s[ps[i]].next == ps[i + 1]
      {
        if i > 0 {
          assert qs[i - 1] == ps[i];
          assert i > 1 ==> rank[qs[i - 1]] < rank[qs[0]];
        }
      }
      forall i, j | 0 <= i < j < |ps|
        ensures rank[ps[j]] < rank[ps[i]]
      {
        assert qs[j - 1] == ps[j];
        assert i > 0 ==> qs[i - 1] == ps[i];
      }
    }
  }

  /** The value of tot_len is the real length modulo 0x10000. */
  lemma {:induction false} TotalOfPath(s: Store, p: Ptr, ps: seq<Ptr>)
    requires IsPath(s, p, ps) && Totals(s)
    ensures p in s ==> s[p].totLen == |Flat(s, ps)| % U16
    decreases |ps|
  {
    if p in s {
      assert TotalAt(s, p);
      TotalOfPath(s, s[p].next, ps[1..]);
    }
  }

  ghost function One(b: bool): nat {
    if b then 1 else 0
  }

  /** Changing the link of `x` from one pbuf to another. */
  lemma Relinked(s: Store, t: Store, x: Ptr)
    requires x in s && t.Keys == s.Keys && forall q :: q in s && q != x ==> t[q].next == s[q].next
    ensures forall p :: |Links(t, p)| == |Links(s, p)| - One(s[x].next == p) + One(t[x].next == p)
  {
    forall p
      ensures |Links(t, p)| == |Links(s, p)| - One(s[x].next == p) + One(t[x].next == p)
    {
      RelinkedAt(s, t, x, p);
    }
  }

  lemma RelinkedAt(s: Store, t: Store, x: Ptr, p: Ptr)
    requires x in s && t.Keys == s.Keys && forall q :: q in s && q != x ==> t[q].next == s[q].next
    ensures |Links(t, p)| == |Links(s, p)| - One(s[x].next == p) + One(t[x].next == p)
  {
    var rest := Links(s, p) - {x};
    assert x in Links(s, p) <==> s[x].next == p;
    if t[x].next == p {
      assert Links(t, p) == rest + {x};
    } else {
      assert Links(t, p) == rest;
    }
  }

  /** Stores that link alike. */
  ghost predicate Alike(s: Store, t: Store) {
    t.Keys == s.Keys && forall q :: q in s ==> t[q].next == s[q].next
  }

  lemma AlikeLinks(s: Store, t: Store)
    requires Alike(s, t)
    ensures forall p :: Links(t, p) == Links(s, p)
  {
    forall p
      ensures Links(t, p) == Links(s, p)
    {
    }
  }

  lemma AlikeRanked(s: Store, t: Store, rank: map<Ptr, nat>)
    requires Alike(s, t) && Ranked(s, rank)
    ensures Ranked(t, rank)
  {
  }

  /** Removing `x` from the store. */
  lemma Unlinked(s: Store, x: Ptr)
    requires x in s
    ensures forall p :: |Links(s - {x}, p)| == |Links(s, p)| - One(s[x].next == p)
  {
    forall p
      ensures |Links(s - {x}, p)| == |Links(s, p)| - One(s[x].next == p)
    {
      assert Links(s - {x}, p) == Links(s, p) - {x};
    }
  }

  /** Links, data and reference counts elsewhere do not change a path. */
  lemma {:induction false} PathKept(s: Store, t: Store, p: Ptr, ps: seq<Ptr>)
    requires IsPath(s, p, ps)
    requires forall q :: q in ps ==> q in s && q in t && t[q].next == s[q].next
    requires p !in s ==> p !in t
    requires forall q :: q in ps && s[q].next !in s ==> s[q].next !in t
    ensures IsPath(t, p, ps)
    decreases |ps|
  {
    if p in s {
      assert p in ps;
      assert forall q :: q in ps[1..] ==> q in ps;
      PathKept(s, t, s[p].next, ps[1..]);
    }
  }

  lemma {:induction false} FlatKept(s: Store, t: Store, ps: seq<Ptr>)
    requires forall q :: q in ps ==> q in s && q in t && t[q].data == s[q].data
    ensures Flat(t, ps) == Flat(s, ps)
  {
    if ps != [] {
      assert forall q :: q in ps[1..] ==> q in ps;
      FlatKept(s, t, ps[1..]);
    }
  }

  lemma {:induction false} FlatConcat(s: Store, ps: seq<Ptr>, qs: seq<Ptr>)
    ensures Flat(s, ps + qs) == Flat(s, ps) + Flat(s, qs)
  {
    if ps == [] {
      assert ps + qs == qs;
    } else {
      FlatConcat(s, ps[1..], qs);
      assert (ps + qs)[1..] == ps[1..] + qs;
    }
  }
}
