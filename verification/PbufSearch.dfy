/** Reading, comparing and searching the bytes of a chain. */
module PbufSearch {
  import opened Octets
  import opened PbufStore
  import opened PbufRefs
  import opened PbufChains
  import opened PbufSplits
  import opened PbufSplit64k
  import opened PbufBytes

  /** pbuf_get_at: the byte at `off`, or zero behind the end. */
  method GetAt(m: Pbufs, p: Ptr, off: nat) returns (b: Byte)
    requires m.Valid() && (p == NULL || p in m.store)
    ensures b == if off < |m.Contents(p)| then m.Contents(p)[off] else 0
  {
    hide Ranked, Counted, Flat, PathOf, IsPath;
    ghost var s, ps := m.store, m.Path(p);
    var q, idx;
    ghost var i;
    q, idx, i := Skip(m, p, off, ps);
    if q != NULL && |m.store[q].data| > idx {
      FlatStep(s, ps, i);
      return m.store[q].data[idx];
    }
    return 0;
  }

  /** `n` bytes at `k` equal `s2`. */
  ghost predicate Match(c: seq<Byte>, k: nat, s2: seq<Byte>) {
    k + |s2| <= |c| && c[k..k + |s2|] == s2
  }

  /** The first position at which the bytes at `k` and `s2` differ, or the length. */
  ghost function Agree(c: seq<Byte>, k: nat, s2: seq<Byte>): nat
    requires k + |s2| <= |c|
    decreases |s2|
  {
    if s2 == [] || c[k] != s2[0] then 0 else 1 + Agree(c, k + 1, s2[1..])
  }

  lemma {:induction false} AgreeIs(c: seq<Byte>, k: nat, s2: seq<Byte>, n: nat)
    requires k + |s2| <= |c| && n <= |s2|
    requires forall j :: 0 <= j < n ==> c[k + j] == s2[j]
    requires n < |s2| ==> c[k + n] != s2[n]
    ensures Agree(c, k, s2) == n && (Match(c, k, s2) <==> n == |s2|)
    decreases n
  {
    if n == 0 {
      assert n < |s2| ==> c[k..k + |s2|][n] == c[k + n];
    } else {
      AgreeIs(c, k + 1, s2[1..], n - 1);
      assert c[k..k + |s2|] == [c[k]] + c[k + 1..k + 1 + |s2[1..]|];
      assert s2 == [s2[0]] + s2[1..];
    }
  }

  /** pbuf_memcmp: 0 if the bytes at `offset` equal `s2`, 0xffff if the chain is
      too short for that, and otherwise the position of the first difference plus one. */
  method Memcmp(m: Pbufs, p: Ptr, offset: nat, s2: seq<Byte>) returns (r: nat)
    requires m.Valid() && Totals(m.store) && p in m.store && |m.Contents(p)| < U16 && |s2| < U16
    ensures |m.Contents(p)| < offset + |s2| ==> r == 0xffff
    ensures offset + |s2| <= |m.Contents(p)| ==> (r == 0 <==> Match(m.Contents(p), offset, s2))
    ensures offset + |s2| <= |m.Contents(p)| && r != 0 ==> r == Agree(m.Contents(p), offset, s2) + 1
  {
    hide Ranked, Counted, Flat, PathOf, IsPath, Totals, Match, Agree;
    ghost var s, ps, c := m.store, m.Path(p), m.Contents(p);
    TotalOfPath(s, p, ps);
    if m.store[p].totLen < offset + |s2| {
      return 0xffff;
    }
    var q, start;
    ghost var i;
    q, start, i := Skip(m, p, offset, ps);
    RestOfPath(s, m.rank, p, ps, i, q);
    Halves(s, ps, i);
    var k := 0;
    while k < |s2|
      invariant 0 <= k <= |s2|
      invariant forall j :: 0 <= j < k ==> c[offset + j] == s2[j]
    {
      var a := GetAt(m, q, start + k);
      assert a == c[offset + k];
      var b := s2[k];
      if a != b {
        AgreeIs(c, offset, s2, k);
        return if k + 1 < 0xffff then k + 1 else 0xffff;
      }
      k := k + 1;
    }
    AgreeIs(c, offset, s2, k);
    return 0;
  }

  lemma RestOfPath(s: Store, rank: map<Ptr, nat>, p: Ptr, ps: seq<Ptr>, i: nat, q: Ptr)
    requires Ranked(s, rank) && IsPath(s, p, ps) && i <= |ps| && q == if i < |ps| then ps[i] else NULL
    ensures (q == NULL || q in s) && PathOf(s, rank, q) == ps[i..]
  {
    if i < |ps| {
      PathIn(s, p, ps);
      assert ps[i] in ps;
      PathSuffix(s, p, ps, i);
      PathUnique(s, q, PathOf(s, rank, q), ps[i..]);
    }
  }

  /** pbuf_memfind: the least index from `start` on at which `mem` occurs, or 0xffff. */
  method Memfind(m: Pbufs, p: Ptr, mem: seq<Byte>, start: nat) returns (r: nat)
    requires m.Valid() && Totals(m.store) && p in m.store && |m.Contents(p)| < U16 && |mem| < U16 && start < U16
    ensures (exists k: nat :: start <= k && Match(m.Contents(p), k, mem)) ==> start <= r && Match(m.Contents(p), r, mem)
    ensures forall k: nat :: start <= k < r ==> !Match(m.Contents(p), k, mem)
    ensures (forall k: nat :: start <= k ==> !Match(m.Contents(p), k, mem)) ==> r == 0xffff
  {
    hide Ranked, Counted, Flat, PathOf, IsPath, Totals, Match, Agree;
    ghost var c := m.Contents(p);
    TotalOfPath(m.store, p, m.Path(p));
    var maxStart := (m.store[p].totLen - |mem|) % U16;
    if m.store[p].totLen >= |mem| + start {
      var i := start;
      while i <= maxStart
        invariant start <= i <= maxStart + 1
        invariant forall k: nat :: start <= k < i ==> !Match(c, k, mem)
        decreases maxStart - i
      {
        var plus := Memcmp(m, p, i, mem);
        if plus == 0 {
          return i;
        }
        NoEmptyMatch(c, i, mem);
        i := (i + 1) % U16;
      }
    }
    NoLateMatch(c, mem);
    return 0xffff;
  }

  /** The empty sequence is found at once, so the 16-bit index never wraps around. */
  lemma NoEmptyMatch(c: seq<Byte>, i: nat, mem: seq<Byte>)
    requires i + |mem| <= |c| && !Match(c, i, mem)
    ensures |mem| > 0
  {
  }

  lemma NoLateMatch(c: seq<Byte>, mem: seq<Byte>)
    ensures forall k: nat :: k + |mem| > |c| ==> !Match(c, k, mem)
  {
  }

  /** What pbuf_take_at wrote, pbuf_copy_partial reads back. */
  method TakeThenCopy(m: Pbufs, buf: Ptr, data: seq<Byte>, offset: nat, dst: array<Byte>)
    returns (err: Err, copied: nat)
    requires m.Valid() && Totals(m.store) && buf in m.store && |data| <= dst.Length
    modifies m`store, dst
    ensures m.Valid()
    ensures |old(m.Contents(buf))| < U16 && offset < |old(m.Contents(buf))| ==>
      (err == Ok <==> offset + |data| <= |old(m.Contents(buf))|)
    ensures err == Ok ==> copied == |data| && dst[..][..copied] == data
    ensures err != Ok ==> copied == 0 && m.Contents(buf) == old(m.Contents(buf)) && dst[..] == old(dst[..])
  {
    hide Ranked, Counted, Flat, PathOf, IsPath, Totals, Overlay, Part;
    ghost var c := m.Contents(buf);
    ghost var i;
    err, i := TakeAt(m, buf, data, offset);
    if err != Ok {
      return err, 0;
    }
    OverlayPart(c, offset, data);
    copied := CopyPartial(m, buf, dst, |data|, offset);
  }

  lemma OverlayPart(c: seq<Byte>, n: nat, d: seq<Byte>)
    requires n + |d| <= |c|
    ensures |Overlay(c, n, d)| == |c| && Part(Overlay(c, n, d), n, |d|) == d
  {
  }
}
