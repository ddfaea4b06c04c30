/** Chains of packet buffers read and written as one flat sequence of bytes. */
module PbufBytes {
  import opened Octets
  import opened PbufStore
  import opened PbufRefs
  import opened PbufChains
  import opened PbufSplits
  import opened PbufSplit64k

  /** `Overrun` is a failed assertion after a write past the end of a pbuf. */
  datatype Err = Ok | Arg | Mem | Val | Overrun

  /** Stores that differ in bytes only. */
  ghost predicate SameShape(s: Store, t: Store)
  {
    && t.Keys == s.Keys
    && forall p :: p in s ==> t[p].(data := []) == s[p].(data := []) && |t[p].data| == |s[p].data|
  }

  lemma ShapeAt(s: Store, t: Store, p: Ptr)
    requires SameShape(s, t) && p in s
    ensures p in t && t[p].next == s[p].next && t[p].ref == s[p].ref && t[p].totLen == s[p].totLen
    ensures |t[p].data| == |s[p].data| && t.Keys == s.Keys
  {
    assert t[p].(data := []) == s[p].(data := []);
  }

  lemma ShapeLinks(s: Store, t: Store)
    requires SameShape(s, t)
    ensures SameLinks(s, t)
  {
    forall p | p in s
      ensures t[p].next == s[p].next && t[p].ref == s[p].ref
    {
      ShapeAt(s, t, p);
    }
  }

  lemma ShapeTotals(s: Store, t: Store)
    requires SameShape(s, t) && Totals(s)
    ensures Totals(t)
  {
    forall p | p in t
      ensures TotalAt(t, p)
    {
      assert TotalAt(s, p);
      ShapeAt(s, t, p);
      if s[p].next in s {
        ShapeAt(s, t, s[p].next);
      }
    }
  }

  /** Bytes written inside a chain change nothing but bytes. */
  lemma ShapeKeeps(s: Store, t: Store, rank: map<Ptr, nat>, handles: multiset<Ptr>)
    requires Ranked(s, rank) && Counted(s, handles) && SameShape(s, t)
    ensures Ranked(t, rank) && Counted(t, handles) && (Totals(s) ==> Totals(t))
  {
    hide Ranked, Counted, Totals, SameShape;
    ShapeLinks(s, t);
    SameLinksKeep(s, t, rank, handles);
    if Totals(s) {
      ShapeTotals(s, t);
    }
  }

  lemma {:induction false} ShapePath(s: Store, t: Store, p: Ptr, ps: seq<Ptr>)
    requires SameShape(s, t) && IsPath(s, p, ps)
    ensures IsPath(t, p, ps) && |Flat(t, ps)| == |Flat(s, ps)|
    decreases |ps|
  {
    if p in s {
      assert t[p].(data := []) == s[p].(data := []);
      ShapePath(s, t, s[p].next, ps[1..]);
    }
  }

  lemma ShapeTwice(s: Store, t: Store, u: Store)
    requires SameShape(s, t) && SameShape(t, u)
    ensures SameShape(s, u)
  {
  }

  lemma ShapeSelf(s: Store)
    ensures SameShape(s, s)
  {
  }

  /** Pbufs outside `ps` are as they were. */
  ghost predicate Elsewhere(s: Store, t: Store, ps: seq<Ptr>) {
    forall x :: x in s && x !in ps ==> x in t && t[x] == s[x]
  }

  lemma ElsewhereTwice(s: Store, t: Store, u: Store, ps: seq<Ptr>)
    requires Elsewhere(s, t, ps) && Elsewhere(t, u, ps)
    ensures Elsewhere(s, u, ps)
  {
  }

  lemma ElsewhereSelf(s: Store, ps: seq<Ptr>)
    ensures Elsewhere(s, s, ps)
  {
  }

  lemma SetDataElsewhere(s: Store, ps: seq<Ptr>, p: Ptr, d: seq<Byte>)
    requires p in s && p in ps
    ensures Elsewhere(s, SetData(s, p, d), ps)
  {
  }

  function SetData(s: Store, p: Ptr, d: seq<Byte>): Store
    requires p in s
  {
    s[p := s[p].(data := d)]
  }

  lemma SetDataShape(s: Store, p: Ptr, d: seq<Byte>)
    requires p in s && |d| == |s[p].data|
    ensures SameShape(s, SetData(s, p, d))
  {
  }

  /** Rewriting one pbuf of a chain rewrites its part of the flat bytes. */
  lemma SetDataFlat(s: Store, ps: seq<Ptr>, i: nat, d: seq<Byte>)
    requires Consecutive(s, ps) && i < |ps| && ps[i] in s
    ensures Flat(SetData(s, ps[i], d), ps) == Flat(s, ps[..i]) + (d + Flat(s, ps[i + 1..]))
    ensures Flat(SetData(s, ps[i], d), ps[..i]) == Flat(s, ps[..i])
  {
    hide Flat, SetData;
    var t := SetData(s, ps[i], d);
    SetDataFacts(s, ps[i], d);
    BeforeApart(s, ps, i);
    AfterApart(s, ps, i);
    FlatKept(s, t, ps[..i]);
    FlatKept(s, t, ps[i + 1..]);
    FlatStep(t, ps, i);
  }

  lemma SetDataFacts(s: Store, p: Ptr, d: seq<Byte>)
    requires p in s
    ensures SetData(s, p, d).Keys == s.Keys && SetData(s, p, d)[p].data == d
    ensures forall q :: q in s && q != p ==> SetData(s, p, d)[q] == s[q]
  {
  }

  lemma AfterApart(s: Store, ps: seq<Ptr>, i: nat)
    requires Consecutive(s, ps) && i < |ps|
    ensures forall q :: q in ps[i + 1..] ==> q in s && q != ps[i]
  {
  }

  /** `d` written over `c` at `n`. */
  function Overlay(c: seq<Byte>, n: nat, d: seq<Byte>): seq<Byte>
    requires n + |d| <= |c|
  {
    c[..n] + d + c[n + |d|..]
  }

  /** pbuf_skip: the pbuf that holds the byte at `off`, and where in it. */
  method Skip(m: Pbufs, p: Ptr, off: nat, ghost ps: seq<Ptr>) returns (q: Ptr, left: nat, ghost i: nat)
    requires Ranked(m.store, m.rank) && IsPath(m.store, p, ps) && (p == NULL || p in m.store)
    ensures i <= |ps| && q == if i < |ps| then ps[i] else NULL
    ensures left == off - |Flat(m.store, ps[..i])|
    ensures q == NULL <==> off >= |Flat(m.store, ps)|
    ensures q != NULL ==> q in m.store && left < |m.store[q].data|
  {
    hide Ranked, IsPath, Flat, Consecutive;
    ghost var s := m.store;
    PathConsecutive(s, m.rank, p, ps);
    FlatNone(s, ps);
    q, left, i := p, off, 0;
    while q != NULL && |m.store[q].data| <= left
      invariant i <= |ps| && q == (if i < |ps| then ps[i] else NULL) && (q != NULL ==> q in s)
      invariant left == off - |Flat(s, ps[..i])|
      decreases |ps| - i
    {
      FlatStep(s, ps, i);
      left := left - |m.store[q].data|;
      i := i + 1;
      NextOf(s, m.rank, p, ps, i);
      q := m.store[q].next;
      NullPast(s, m.rank, p, ps, i, q);
    }
    NullPast(s, m.rank, p, ps, i, q);
    Halves(s, ps, i);
    Whole(s, ps);
    if q != NULL {
      FlatStep(s, ps, i);
    }
  }

  /** MEMCPY into a plain buffer. */
  method Blit(dst: array<Byte>, at: nat, src: seq<Byte>)
    requires at + |src| <= dst.Length
    modifies dst
    ensures dst[..] == Overlay(old(dst[..]), at, src)
  {
    forall i | 0 <= i < |src| {
      dst[at + i] := src[i];
    }
  }

  /** `n` bytes of `c` from `a` on. */
  function Part(c: seq<Byte>, a: nat, n: nat): seq<Byte> {
    if a + n <= |c| then c[a..a + n] else []
  }

  lemma PartGrows(c: seq<Byte>, a: nat, n: nat, before: seq<Byte>, data: seq<Byte>, after: seq<Byte>, off: nat, k: nat)
    requires c == before + (data + after) && |before| + off == a + n && off + k <= |data| && (n > 0 ==> a + n <= |c|)
    ensures a + (n + k) <= |c| && Part(c, a, n) + data[off..off + k] == Part(c, a, n + k)
  {
    assert c[a + n..a + n + k] == data[off..off + k];
    assert c[a..a + n] + c[a + n..a + n + k] == c[a..a + n + k];
  }

  lemma OverlayFront(c: seq<Byte>, n: nat, d: seq<Byte>)
    requires n + |d| <= |c|
    ensures Overlay(c, n, d)[..n + |d|] == c[..n] + d && Overlay(c, n, d)[n + |d|..] == c[n + |d|..]
  {
  }

  lemma Sliced(after: seq<Byte>, now: seq<Byte>, before: seq<Byte>, k: nat, n: nat)
    requires |after| == |now| == |before| && k + n <= |now| && now[k..] == before[k..] && after[k + n..] == now[k + n..]
    ensures after[k + n..] == before[k + n..]
  {
    assert now[k..][n..] == now[k + n..] && before[k..][n..] == before[k + n..];
  }

  /** What copying `len` bytes from `offset` on delivers. */
  function Available(total: nat, len: nat, offset: nat): nat {
    if offset >= total then 0 else if len <= total - offset then len else total - offset
  }

  /** pbuf_copy_partial: copies out the bytes from `offset` on, as many as there are up to `len`. */
  method CopyPartial(m: Pbufs, buf: Ptr, dst: array<Byte>, len: nat, offset: nat) returns (copied: nat)
    requires m.Valid() && (buf == NULL || buf in m.store) && len <= dst.Length
    modifies dst
    ensures copied == Available(|m.Contents(buf)|, len, offset) && copied <= dst.Length
    ensures copied == if offset >= |m.Contents(buf)| then 0
                      else if offset + len <= |m.Contents(buf)| then len else |m.Contents(buf)| - offset
    ensures dst[..][..copied] == Part(m.Contents(buf), offset, copied)
    ensures dst[..][copied..] == old(dst[..])[copied..]
  {
    hide Ranked, Counted, IsPath, Flat, PathOf, Consecutive, Overlay, Part;
    ghost var s, ps, c, i := m.store, m.Path(buf), m.Contents(buf), 0;
    PathConsecutive(s, m.rank, buf, ps);
    NullOutside(s, m.rank, m.handles);
    FlatNone(s, ps);
    Whole(s, ps);
    NullPath(s, m.rank);
    PartNone(c, offset);
    copied := 0;
    ghost var before := dst[..];
    var p, off: nat, left: nat := buf, offset, len;
    while left != 0 && p != NULL
      invariant i <= |ps| && p == (if i < |ps| then ps[i] else NULL) && (p != NULL ==> p in s)
      invariant left + copied == len && (copied > 0 ==> offset + copied <= |c|) && (off > 0 ==> copied == 0)
      invariant left > 0 ==> |Flat(s, ps[..i])| + off == offset + copied
      invariant dst[..][..copied] == Part(c, offset, copied)
      invariant dst[..][copied..] == before[copied..]
      decreases |ps| - i
    {
      FlatStep(s, ps, i);
      var data := m.store[p].data;
      if off != 0 && off >= |data| {
        off := off - |data|;
      } else {
        var n: nat := |data| - off;
        if n > left {
          n := left;
        }
        PartGrows(c, offset, copied, Flat(s, ps[..i]), data, Flat(s, ps[i + 1..]), off, n);
        ghost var now := dst[..];
        OverlayFront(now, copied, data[off..off + n]);
        Blit(dst, copied, data[off..off + n]);
        Sliced(dst[..], now, before, copied, n);
        copied := copied + n;
        left := left - n;
        off := 0;
      }
      i := i + 1;
      NextOf(s, m.rank, buf, ps, i);
      p := m.store[p].next;
      NullPast(s, m.rank, buf, ps, i, p);
    }
    NullPast(s, m.rank, buf, ps, i, p);
  }

  lemma PartNone(c: seq<Byte>, a: nat)
    ensures Part(c, a, 0) == []
  {
  }

  /** Writing `d` at `o` inside the `i`-th pbuf of a chain. */
  lemma WrittenAt(s: Store, ps: seq<Ptr>, i: nat, o: nat, d: seq<Byte>)
    requires Consecutive(s, ps) && i < |ps| && ps[i] in s && o + |d| <= |s[ps[i]].data|
    ensures |Flat(s, ps[..i])| + o + |d| <= |Flat(s, ps)|
    ensures var t := SetData(s, ps[i], Overlay(s[ps[i]].data, o, d));
      && SameShape(s, t) && Flat(t, ps) == Overlay(Flat(s, ps), |Flat(s, ps[..i])| + o, d)
      && |Flat(t, ps[..i + 1])| == |Flat(s, ps[..i])| + |s[ps[i]].data| && Consecutive(t, ps) && Elsewhere(s, t, ps)
  {
    hide Flat, SetData, Overlay, Consecutive, SameShape, Elsewhere;
    assert ps[i] in ps;
    SetDataElsewhere(s, ps, ps[i], Overlay(s[ps[i]].data, o, d));
    var c := s[ps[i]].data;
    var e := Overlay(c, o, d);
    OverlayLength(c, o, d);
    SetDataFlat(s, ps, i, e);
    SetDataShape(s, ps[i], e);
    SetDataFacts(s, ps[i], e);
    FlatStep(s, ps, i);
    FlatStep(SetData(s, ps[i], e), ps, i);
    OverlayInside(Flat(s, ps[..i]), c, Flat(s, ps[i + 1..]), o, d);
    ShapeConsecutive(s, SetData(s, ps[i], e), ps);
  }

  lemma OverlayLength(c: seq<Byte>, n: nat, d: seq<Byte>)
    requires n + |d| <= |c|
    ensures |Overlay(c, n, d)| == |c|
  {
  }

  lemma OverlayInside(a: seq<Byte>, c: seq<Byte>, b: seq<Byte>, o: nat, d: seq<Byte>)
    requires o + |d| <= |c|
    ensures a + (Overlay(c, o, d) + b) == Overlay(a + (c + b), |a| + o, d)
  {
  }

  lemma OverlayTwice(c: seq<Byte>, n: nat, d: seq<Byte>, k: nat, j: nat)
    requires k + j <= |d| && n + |d| <= |c|
    ensures |Overlay(c, n, d[..k])| == |c|
    ensures Overlay(Overlay(c, n, d[..k]), n + k, d[k..k + j]) == Overlay(c, n, d[..k + j])
  {
  }

  lemma OverlayNone(c: seq<Byte>, n: nat, d: seq<Byte>)
    requires n <= |c|
    ensures Overlay(c, n, d[..0]) == c && d[..|d|] == d
  {
  }

  lemma ShapeConsecutive(s: Store, t: Store, ps: seq<Ptr>)
    requires Consecutive(s, ps) && SameShape(s, t)
    ensures Consecutive(t, ps)
  {
    forall i | 0 <= i < |ps|
      ensures ps[i] in t && t[ps[i]].next == s[ps[i]].next
    {
      ShapeAt(s, t, ps[i]);
    }
  }

  /** The chain `ps` of which `buf` is the `i`-th pbuf, or the end. */
  ghost predicate StandsAt(s: Store, ps: seq<Ptr>, i: nat, buf: Ptr)
  {
    && Consecutive(s, ps) && NULL !in ps && i <= |ps| && buf == (if i < |ps| then ps[i] else NULL)
    && (|ps| > 0 ==> s[ps[|ps| - 1]].next == NULL)
  }

  lemma StandsNext(s: Store, ps: seq<Ptr>, i: nat, buf: Ptr)
    requires StandsAt(s, ps, i, buf) && buf != NULL
    ensures buf in s && i < |ps| && buf == ps[i] && StandsAt(s, ps, i + 1, s[buf].next)
  {
  }

  lemma StandsShape(s: Store, t: Store, ps: seq<Ptr>, i: nat, buf: Ptr)
    requires StandsAt(s, ps, i, buf) && SameShape(s, t)
    ensures StandsAt(t, ps, i, buf)
  {
    ShapeConsecutive(s, t, ps);
    if |ps| > 0 {
      ShapeAt(s, t, ps[|ps| - 1]);
    }
  }

  lemma StandsFirst(s: Store, rank: map<Ptr, nat>, p: Ptr, ps: seq<Ptr>)
    requires Ranked(s, rank) && IsPath(s, p, ps) && (p == NULL || p in s)
    ensures StandsAt(s, ps, 0, p)
  {
    PathConsecutive(s, rank, p, ps);
  }

  lemma StandsEnd(s: Store, ps: seq<Ptr>, i: nat, buf: Ptr)
    requires StandsAt(s, ps, i, buf)
    ensures Consecutive(s, ps) && i <= |ps| && (buf == NULL ==> i == |ps|)
  {
  }

  /** One pbuf filled with what is not yet copied, as far as it goes. */
  method FillPiece(m: Pbufs, p: Ptr, data: seq<Byte>, copied: nat, ghost c: seq<Byte>, ghost n0: nat,
                   ghost ps: seq<Ptr>, ghost i: nat)
    returns (n: nat)
    requires StandsAt(m.store, ps, i, p) && p != NULL && i <= |ps| && copied <= |data| && n0 + |data| <= |c|
    requires Flat(m.store, ps) == Overlay(c, n0, data[..copied]) && |Flat(m.store, ps[..i])| == n0 + copied
    modifies m`store
    ensures SameShape(old(m.store), m.store) && Elsewhere(old(m.store), m.store, ps) && n <= |data| - copied
    ensures i < |ps| && p in m.store && StandsAt(m.store, ps, i + 1, m.store[p].next)
    ensures Flat(m.store, ps) == Overlay(c, n0, data[..copied + n])
    ensures n < |data| - copied ==> |Flat(m.store, ps[..i + 1])| == n0 + copied + n
  {
    hide StandsAt, Flat, Overlay, SameShape, SetData, Consecutive, Elsewhere;
    ghost var t := m.store;
    Halves(t, ps, i);
    OverlayTwice(c, n0, data, copied, 0);
    StandsNext(t, ps, i, p);
    n := |data| - copied;
    if n > |m.store[p].data| {
      n := |m.store[p].data|;
    }
    WrittenAt(t, ps, i, 0, data[copied..copied + n]);
    OverlayTwice(c, n0, data, copied, n);
    m.store := SetData(m.store, p, Overlay(m.store[p].data, 0, data[copied..copied + n]));
    StandsShape(t, m.store, ps, i, p);
    StandsNext(m.store, ps, i, p);
  }

  /** The copying loop of pbuf_take. */
  method Fill(m: Pbufs, buf: Ptr, data: seq<Byte>, ghost ps: seq<Ptr>, ghost i0: nat)
    requires StandsAt(m.store, ps, i0, buf) && i0 <= |ps|
    requires |Flat(m.store, ps[..i0])| + |data| <= |Flat(m.store, ps)|
    modifies m`store
    ensures SameShape(old(m.store), m.store) && Elsewhere(old(m.store), m.store, ps)
    ensures Flat(m.store, ps) == Overlay(old(Flat(m.store, ps)), old(|Flat(m.store, ps[..i0])|), data)
  {
    hide StandsAt, Flat, Overlay, SameShape, SetData, Consecutive, Elsewhere;
    ElsewhereSelf(m.store, ps);
    ghost var s, c, n0, i := m.store, Flat(m.store, ps), |Flat(m.store, ps[..i0])|, i0;
    var p, left: nat, copied: nat := buf, |data|, 0;
    ShapeSelf(s);
    OverlayNone(c, n0, data);
    while left != 0
      invariant i <= |ps| && StandsAt(m.store, ps, i, p) && SameShape(s, m.store) && Elsewhere(s, m.store, ps)
      invariant copied + left == |data| && Flat(m.store, ps) == Overlay(c, n0, data[..copied])
      invariant left > 0 ==> |Flat(m.store, ps[..i])| == n0 + copied
      decreases |ps| - i
    {
      StandsEnd(m.store, ps, i, p);
      Halves(m.store, ps, i);
      Whole(m.store, ps);
      OverlayTwice(c, n0, data, copied, 0);
      ghost var t := m.store;
      var n := FillPiece(m, p, data, copied, c, n0, ps, i);
      ShapeTwice(s, t, m.store);
      ElsewhereTwice(s, t, m.store, ps);
      left := left - n;
      copied := copied + n;
      p := m.store[p].next;
      i := i + 1;
    }
  }

  /** pbuf_take: writes `data` from the start of the chain at `buf`, which is the
      rest of the chain `ps` from its `i`-th pbuf on. */
  method Take(m: Pbufs, buf: Ptr, data: seq<Byte>, ghost ps: seq<Ptr>, ghost i: nat) returns (err: Err)
    requires m.Valid() && Totals(m.store) && StandsAt(m.store, ps, i, buf) && i <= |ps|
    modifies m`store
    ensures m.Valid() && Totals(m.store) && SameShape(old(m.store), m.store) && Elsewhere(old(m.store), m.store, ps)
    ensures buf == NULL ==> err == Arg
    ensures buf != NULL ==> buf in m.store && err == if |data| <= old(m.store)[buf].totLen then Ok else Mem
    ensures err != Ok ==> m.store == old(m.store)
    ensures err == Ok ==> |old(Flat(m.store, ps[..i]))| + |data| <= |old(Flat(m.store, ps))|
    ensures err == Ok ==> Flat(m.store, ps) == Overlay(old(Flat(m.store, ps)), old(|Flat(m.store, ps[..i])|), data)
  {
    hide Ranked, Counted, StandsAt, Flat, Overlay, SameShape, Totals, Consecutive, Elsewhere;
    ghost var s := m.store;
    ShapeSelf(s);
    ElsewhereSelf(s, ps);
    if buf == NULL {
      return Arg;
    }
    StandsNext(s, ps, i, buf);
    if m.store[buf].totLen < |data| {
      return Mem;
    }
    NullOutside(s, m.rank, m.handles);
    StandsPath(s, ps, i, buf);
    TotalOfPath(s, buf, ps[i..]);
    Halves(s, ps, i);
    AtMost(s, ps, i, buf);
    Fill(m, buf, data, ps, i);
    ShapeKeeps(s, m.store, m.rank, m.handles);
    ShapeAt(s, m.store, buf);
    err := Ok;
  }

  lemma AtMost(s: Store, ps: seq<Ptr>, i: nat, buf: Ptr)
    requires i < |ps| && buf in s && s[buf].totLen == |Flat(s, ps[i..])| % U16
    ensures s[buf].totLen <= |Flat(s, ps[i..])|
  {
  }

  lemma {:induction false} StandsPath(s: Store, ps: seq<Ptr>, i: nat, buf: Ptr)
    requires StandsAt(s, ps, i, buf) && NULL !in s
    ensures IsPath(s, buf, ps[i..])
    decreases |ps| - i
  {
    if i < |ps| {
      StandsNext(s, ps, i, buf);
      StandsPath(s, ps, i + 1, s[buf].next);
      assert ps[i..][1..] == ps[i + 1..];
    }
  }

  /** pbuf_take_at: writes `data` at `offset`, or nothing if it does not fit into what follows
      from the pbuf there on, the `i`-th, by its length in 16 bits. */
  method TakeAt(m: Pbufs, buf: Ptr, data: seq<Byte>, offset: nat) returns (err: Err, ghost i: nat)
    requires m.Valid() && Totals(m.store) && (buf == NULL || buf in m.store)
    modifies m`store
    ensures m.Valid() && Totals(m.store) && SameShape(old(m.store), m.store) && m.Path(buf) == old(m.Path(buf))
    ensures Elsewhere(old(m.store), m.store, m.Path(buf))
    ensures OffsetIn(old(m.store), old(m.Path(buf)), i, offset)
    ensures err == if offset < |old(m.Contents(buf))| && offset + |data| <= RoomFrom(old(m.store), old(m.Path(buf)), i)
                   then Ok else Mem
    ensures |old(m.Contents(buf))| < U16 ==>
      err == if offset < |old(m.Contents(buf))| && offset + |data| <= |old(m.Contents(buf))| then Ok else Mem
    ensures err == Ok ==> offset + |data| <= |old(m.Contents(buf))|
    ensures m.Contents(buf) == if err == Ok then Overlay(old(m.Contents(buf)), offset, data) else old(m.Contents(buf))
  {
    hide Ranked, Counted, StandsAt, Flat, Overlay, SameShape, Totals, Consecutive, PathOf, IsPath, SetData,
      Elsewhere, TotalAt, RoomFrom;
    ElsewhereSelf(m.store, m.Path(buf));
    ghost var s, ps, c := m.store, m.Path(buf), m.Contents(buf);
    ShapeSelf(s);
    var q, target;
    q, target, i := Skip(m, buf, offset, ps);
    NullOutside(s, m.rank, m.handles);
    StandsFirst(s, m.rank, buf, ps);
    Halves(s, ps, i);
    if q == NULL {
      return Mem, i;
    }
    StandsSkip(s, ps, i, buf, q);
    PathSuffix(s, buf, ps, i);
    TotalOfPath(s, q, ps[i..]);
    AtMost(s, ps, i, q);
    FlatStep(s, ps, i);
    RoomIs(s, ps, i);
    if m.store[q].totLen < target + |data| {
      return Mem, i;
    }
    WriteFrom(m, q, target, data, ps, i);
    ShapePath(s, m.store, buf, ps);
    PathUnique(m.store, buf, m.Path(buf), ps);
    err := Ok;
  }

  /** Writes into the pbuf from `at` on, and the rest into those behind it. */
  method WriteFrom(m: Pbufs, q: Ptr, at: nat, data: seq<Byte>, ghost ps: seq<Ptr>, ghost i: nat)
    requires m.Valid() && Totals(m.store) && StandsAt(m.store, ps, i, q) && i < |ps| && q in m.store
    requires at < |m.store[q].data| && at + |data| <= m.store[q].totLen
    requires |Flat(m.store, ps[..i])| + at + |data| <= |Flat(m.store, ps)|
    modifies m`store
    ensures m.Valid() && Totals(m.store) && SameShape(old(m.store), m.store) && Elsewhere(old(m.store), m.store, ps)
    ensures Flat(m.store, ps) == Overlay(old(Flat(m.store, ps)), old(|Flat(m.store, ps[..i])|) + at, data)
  {
    hide Ranked, Counted, StandsAt, Flat, Overlay, SameShape, Totals, Consecutive, IsPath, SetData, Elsewhere, TotalAt;
    ghost var s, c, offset := m.store, Flat(m.store, ps), |Flat(m.store, ps[..i])| + at;
    NullOutside(s, m.rank, m.handles);
    StandsHere(s, ps, i, q);
    FlatStep(s, ps, i);
    var first: nat := if |m.store[q].data| - at < |data| then |m.store[q].data| - at else |data|;
    WrittenAt(s, ps, i, at, data[..first]);
    m.store := SetData(m.store, q, Overlay(m.store[q].data, at, data[..first]));
    ghost var t := m.store;
    ShapeKeeps(s, t, m.rank, m.handles);
    StandsShape(s, t, ps, i, q);
    StandsNext(t, ps, i, q);
    OverlayTwice(c, offset, data, first, |data| - first);
    OverlayNone(c, offset, data);
    if |data| - first > 0 {
      ShapeAt(s, t, q);
      NextTotal(t, ps, i, q, first + at, |data| - first);
      assert data[first..first + (|data| - first)] == data[first..];
      var _ := Take(m, m.store[q].next, data[first..], ps, i + 1);
      ElsewhereTwice(s, t, m.store, ps);
      ShapeTwice(s, t, m.store);
    }
  }

  lemma StandsHere(s: Store, ps: seq<Ptr>, i: nat, q: Ptr)
    requires StandsAt(s, ps, i, q) && i < |ps|
    ensures q == ps[i] && Consecutive(s, ps)
  {
  }

  /** The `i`-th pbuf of the chain holds the byte at `offset`, or the chain is too short. */
  ghost predicate OffsetIn(s: Store, ps: seq<Ptr>, i: nat, offset: nat) {
    && i <= |ps| && |Flat(s, ps[..i])| <= offset
    && if i < |ps| then offset < |Flat(s, ps[..i + 1])| else |Flat(s, ps)| <= offset
  }

  /** The end of the chain for the total of its `i`-th pbuf. */
  ghost function RoomFrom(s: Store, ps: seq<Ptr>, i: nat): nat {
    if i <= |ps| then |Flat(s, ps[..i])| + |Flat(s, ps[i..])| % U16 else 0
  }

  lemma RoomIs(s: Store, ps: seq<Ptr>, i: nat)
    requires i <= |ps| && |Flat(s, ps)| == |Flat(s, ps[..i])| + |Flat(s, ps[i..])|
    ensures RoomFrom(s, ps, i) == |Flat(s, ps[..i])| + |Flat(s, ps[i..])| % U16 <= |Flat(s, ps)|
    ensures |Flat(s, ps)| < U16 ==> RoomFrom(s, ps, i) == |Flat(s, ps)|
  {
  }

  /** What the rest of a chain has room for. */
  lemma NextTotal(s: Store, ps: seq<Ptr>, i: nat, q: Ptr, used: nat, n: nat)
    requires StandsAt(s, ps, i, q) && q != NULL && Totals(s) && NULL !in s
    requires q in s && used == |s[q].data| && s[q].totLen >= used + n && n > 0
    ensures s[q].next in s && s[s[q].next].totLen >= n
  {
    TotalHere(s, q);
    if s[q].next in s {
      TotalSmall(s, s[q].next);
    }
  }

  lemma StandsSkip(s: Store, ps: seq<Ptr>, i: nat, buf: Ptr, q: Ptr)
    requires StandsAt(s, ps, 0, buf) && i < |ps| && q == ps[i]
    ensures StandsAt(s, ps, i, q) && Consecutive(s, ps) && q in s
  {
  }
}
