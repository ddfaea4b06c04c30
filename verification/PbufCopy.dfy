/** Copying one chain into another that is cut into different pieces. */
module PbufCopy {
  import opened Octets
  import opened PbufStore
  import opened PbufRefs
  import opened PbufChains
  import opened PbufSplits
  import opened PbufSplit64k
  import opened PbufBytes

  /** Byte `o` of the pbuf `p`, the `i`-th of the chain `ps`, is byte `pos` of the flat bytes. */
  ghost predicate Cursor(s: Store, ps: seq<Ptr>, i: nat, p: Ptr, o: nat, pos: nat)
  {
    && StandsAt(s, ps, i, p) && i <= |ps| && pos == |Flat(s, ps[..i])| + o
    && (if p == NULL then o == 0 else p in s && o <= |s[p].data|)
  }

  /** What a cursor before the end tells about the flat bytes. */
  lemma CursorHere(s: Store, ps: seq<Ptr>, i: nat, p: Ptr, o: nat, pos: nat)
    requires Cursor(s, ps, i, p, o, pos)
    ensures o <= pos <= |Flat(s, ps)| && (pos < |Flat(s, ps)| ==> p != NULL) && i <= |ps| && (p != NULL ==> i < |ps|)
    ensures p != NULL ==> p in s && o <= |s[p].data| && pos - o + |s[p].data| <= |Flat(s, ps)|
    ensures p != NULL ==> s[p].data[o..] == Flat(s, ps)[pos..pos - o + |s[p].data|]
    ensures p != NULL && o == |s[p].data| ==> Cursor(s, ps, i + 1, s[p].next, 0, pos)
  {
    hide Flat, StandsAt;
    StandsEnd(s, ps, i, p);
    Halves(s, ps, i);
    Whole(s, ps);
    if p != NULL {
      StandsNext(s, ps, i, p);
      FlatStep(s, ps, i);
      if o == |s[p].data| && s[p].next != NULL {
        StandsNext(s, ps, i + 1, s[p].next);
      }
      StandsEnd(s, ps, i + 1, s[p].next);
    }
  }

  lemma CursorShape(s: Store, t: Store, ps: seq<Ptr>, i: nat, p: Ptr, o: nat, pos: nat)
    requires Cursor(s, ps, i, p, o, pos) && SameShape(s, t)
    ensures Cursor(t, ps, i, p, o, pos)
  {
    hide Flat, StandsAt;
    StandsShape(s, t, ps, i, p);
    ShapeLength(s, t, ps[..i]);
    if p != NULL {
      ShapeAt(s, t, p);
    }
  }

  lemma {:induction false} ShapeLength(s: Store, t: Store, ps: seq<Ptr>)
    requires SameShape(s, t)
    ensures |Flat(t, ps)| == |Flat(s, ps)|
  {
    if ps != [] {
      ShapeLength(s, t, ps[1..]);
    }
  }

  /** MEMCPY from the pbuf under one cursor to the pbuf under another. */
  method Move(m: Pbufs, ghost ts: seq<Ptr>, ghost j: nat, q: Ptr, ot: nat, ghost fs: seq<Ptr>, p: Ptr, of: nat, n: nat,
              ghost pos: nat)
    requires Cursor(m.store, ts, j, q, ot, pos) && q != NULL && q in m.store && ot + n <= |m.store[q].data|
    requires p in m.store && of + n <= |m.store[p].data|
    requires forall x :: x in fs ==> x in m.store && x !in ts
    modifies m`store
    ensures SameShape(old(m.store), m.store) && Flat(m.store, fs) == old(Flat(m.store, fs))
    ensures Elsewhere(old(m.store), m.store, ts)
    ensures pos + n <= |old(Flat(m.store, ts))|
    ensures Flat(m.store, ts) == Overlay(old(Flat(m.store, ts)), pos, old(m.store)[p].data[of..of + n])
  {
    hide Flat, StandsAt, SetData, SameShape, Overlay, Elsewhere;
    ghost var s := m.store;
    var chunk := m.store[p].data[of..of + n];
    CursorHere(s, ts, j, q, ot, pos);
    StandsNext(s, ts, j, q);
    StandsEnd(s, ts, j, q);
    WrittenAt(s, ts, j, ot, chunk);
    m.store := SetData(m.store, q, Overlay(m.store[q].data, ot, chunk));
    SetDataFacts(s, q, Overlay(s[q].data, ot, chunk));
    assert q in ts;
    FlatKept(s, m.store, fs);
  }

  /** No pbuf but the last looks like the end of a packet. */
  ghost predicate OnePacket(s: Store, ps: seq<Ptr>)
  {
    forall i :: 0 <= i < |ps| - 1 && ps[i] in s ==> s[ps[i]].totLen != |s[ps[i]].data|
  }

  ghost predicate QueueAt(s: Store, p: Ptr)
  {
    p in s && s[p].totLen == |s[p].data| && s[p].next != NULL
  }

  lemma NoQueue(s: Store, t: Store, ps: seq<Ptr>, i: nat, p: Ptr)
    requires StandsAt(s, ps, i, p) && OnePacket(s, ps) && SameShape(s, t) && NULL !in s
    ensures !QueueAt(t, p)
  {
    if p != NULL && p in s {
      ShapeAt(s, t, p);
      assert ps[i] == p;
      assert i < |ps| - 1 ==> s[ps[i]].totLen != |s[ps[i]].data|;
    }
  }

  lemma Started(s: Store, rank: map<Ptr, nat>, p: Ptr, ps: seq<Ptr>, o: nat)
    requires Ranked(s, rank) && IsPath(s, p, ps) && p in s && o <= |s[p].data|
    ensures Cursor(s, ps, 0, p, o, o) && ps != []
  {
    StandsFirst(s, rank, p, ps);
    FlatNone(s, ps);
  }

  lemma AtMostAll(s: Store, rank: map<Ptr, nat>, p: Ptr, ps: seq<Ptr>)
    requires Ranked(s, rank) && IsPath(s, p, ps) && p in s && Totals(s)
    ensures s[p].totLen <= |Flat(s, ps)|
  {
    TotalOfPath(s, p, ps);
    AtMostMod(|Flat(s, ps)|);
  }

  lemma AtMostMod(n: nat)
    ensures n % U16 <= n
  {
  }

  /** The bytes behind a cursor are the next ones of the flat bytes. */
  lemma ChunkIs(c: seq<Byte>, data: seq<Byte>, o: nat, pos: nat, n: nat, len: nat)
    requires o <= |data| && o <= pos && pos - o + |data| <= |c| && data[o..] == c[pos..pos - o + |data|]
    requires o + n <= |data| && pos + n <= len <= |c|
    ensures data[o..o + n] == c[..len][pos..pos + n]
  {
    assert data[o..o + n] == data[o..][..n];
    assert c[..len][pos..pos + n] == c[pos..pos - o + |data|][..n];
  }

  lemma FsApart(s: Store, t: Store, fs: seq<Ptr>, ts: seq<Ptr>)
    requires SameShape(s, t) && forall x :: x in fs ==> x in s && x !in ts
    ensures forall x :: x in fs ==> x in t && x !in ts
  {
  }

  lemma CursorMoved(s: Store, t: Store, ps: seq<Ptr>, i: nat, p: Ptr, o: nat, pos: nat, n: nat)
    requires Cursor(s, ps, i, p, o, pos) && SameShape(s, t) && p in s && p != NULL && o + n <= |s[p].data|
    ensures Cursor(t, ps, i, p, o + n, pos + n) && p in t && |t[p].data| == |s[p].data|
  {
    hide Flat, StandsAt, SameShape;
    CursorShape(s, t, ps, i, p, o, pos);
    ShapeAt(s, t, p);
  }

  lemma Queues(s: Store, t: Store, ps: seq<Ptr>, i: nat, p: Ptr, o: nat, pos: nat)
    requires Cursor(t, ps, i, p, o, pos) && SameShape(s, t) && NULL !in s
    ensures OnePacket(s, ps) ==> !QueueAt(t, p)
    ensures p != NULL ==> p in t
    ensures p != NULL && |t[p].data| == t[p].totLen && t[p].next != NULL ==> QueueAt(t, p)
  {
    hide Flat, OnePacket, SameShape;
    if OnePacket(s, ps) {
      StandsBack(s, t, ps, i, p);
      NoQueue(s, t, ps, i, p);
    }
  }

  lemma StandsBack(s: Store, t: Store, ps: seq<Ptr>, i: nat, p: Ptr)
    requires StandsAt(t, ps, i, p) && SameShape(s, t)
    ensures StandsAt(s, ps, i, p)
  {
    forall k | 0 <= k < |ps|
      ensures ps[k] in s && s[ps[k]].next == t[ps[k]].next
    {
      ShapeAt(s, t, ps[k]);
    }
  }

  /** The rest of the state after bytes were written in chains. */
  lemma Finished(m: Pbufs, s: Store, rk: map<Ptr, nat>, from: Ptr, to: Ptr, fs: seq<Ptr>, ts: seq<Ptr>)
    requires Ranked(s, rk) && Counted(s, m.handles) && Totals(s) && SameShape(s, m.store) && m.rank == rk
    requires IsPath(s, from, fs) && IsPath(s, to, ts)
    ensures m.Valid() && Totals(m.store) && m.Path(from) == fs && m.Path(to) == ts
  {
    hide Ranked, Counted, Totals, IsPath, SameShape, PathOf;
    ShapeKeeps(s, m.store, rk, m.handles);
    ShapePath(s, m.store, from, fs);
    ShapePath(s, m.store, to, ts);
    PathUnique(m.store, from, m.Path(from), fs);
    PathUnique(m.store, to, m.Path(to), ts);
  }

  /** The difference of a length and an offset as a size_t, of which there are `range` values:
      below zero it wraps around. */
  function Room(range: nat, len: nat, o: nat): nat
    requires o - len <= range
  {
    if o <= len then len - o else range - (o - len)
  }

  /** How much one round copies. */
  function PieceLength(range: nat, toLen: nat, ot: nat, fromLen: nat, of: nat, left: nat): nat
    requires ot - toLen <= range && of - fromLen <= range
  {
    var n := if Room(range, toLen, ot) >= Room(range, fromLen, of) then Room(range, fromLen, of)
             else Room(range, toLen, ot);
    if left < n then left else n
  }

  /** A round stays inside the pbuf it writes if and only if it starts inside it. With an
      offset behind its end the room left wraps around, and as much is written as the other
      pbuf holds. */
  lemma WritesInside(range: nat, toLen: nat, ot: nat, fromLen: nat, of: nat, left: nat)
    requires range >= 2 * U16 && toLen < U16 && fromLen < U16 && ot < U16 && of <= fromLen
    ensures var n := PieceLength(range, toLen, ot, fromLen, of, left);
      && (ot + n <= toLen <==> ot <= toLen) && n <= fromLen - of && n <= left
      && (n == left || n == fromLen - of || (ot <= toLen && n == toLen - ot))
      && (ot > toLen ==> n == if left < fromLen - of then left else fromLen - of)
  {
  }

  /** A chain of one byte and four more, and one of three bytes. */
  function OneAndFour(): Store {
    map[1 := Pbuf(2, [0], 5, 1, false), 2 := Pbuf(NULL, [0, 0, 0, 0], 4, 1, false),
        3 := Pbuf(NULL, [1, 2, 3], 3, 1, false)]
  }

  /** Three bytes copied to offset 2 of the first chain, which holds five: the arguments are
      accepted, and all three are written behind the first pbuf. */
  lemma WritesOutside()
    ensures var s := OneAndFour();
      && Totals(s) && IsPath(s, 1, [1, 2]) && IsPath(s, 3, [3])
      && s[1].totLen >= 2 + 3 && s[3].totLen >= 3
      && PieceLength(0x1_0000_0000, |s[1].data|, 2, |s[3].data|, 0, 3) == 3 && 2 + 3 > |s[1].data|
  {
    assert [1, 2][1..] == [2] && [2][1..] == [] && [3][1..] == [];
    assert IsPath(OneAndFour(), 2, [2]);
  }

  /** Copies what fits of the rest of one pbuf into the rest of another. Behind the end of
      that one the bytes go to memory that holds anything. */
  method Piece(m: Pbufs, ghost cf: seq<Byte>, ghost ct: seq<Byte>, ghost len: nat, ghost offset: nat,
               ghost ts: seq<Ptr>, ghost j: nat, q: Ptr, ot: nat, ghost fs: seq<Ptr>, ghost i: nat, p: Ptr, of: nat,
               left: nat, ghost done: nat, range: nat)
    returns (n: nat)
    requires range >= 2 * U16 && p in m.store && q in m.store && ot < U16 && of <= |m.store[p].data|
    requires |m.store[p].data| < U16 && |m.store[q].data| < U16
    requires ot <= |m.store[q].data| ==> Under(m.store, cf, ct, len, offset, ts, j, q, ot, fs, i, p, of, left, done)
    modifies m`store
    ensures n == PieceLength(range, |old(m.store)[q].data|, ot, |old(m.store)[p].data|, of, left)
    ensures n == 0 ==> m.store == old(m.store) || ot <= |old(m.store)[q].data|
    ensures ot <= |old(m.store)[q].data| ==>
      && SameShape(old(m.store), m.store) && n <= left && p in m.store && q in m.store
      && Elsewhere(old(m.store), m.store, ts)
      && Under(m.store, cf, ct, len, offset, ts, j, q, ot + n, fs, i, p, of + n, left - n, done + n)
      && (n > 0 || left == 0 || of == |m.store[p].data| || ot == |m.store[q].data|)
  {
    hide StandsAt, Flat, Overlay, SameShape, Cursor, Elsewhere, PieceLength;
    ghost var t := m.store;
    WritesInside(range, |t[q].data|, ot, |t[p].data|, of, left);
    n := PieceLength(range, |m.store[q].data|, ot, |m.store[p].data|, of, left);
    if ot + n > |m.store[q].data| {
      if n > 0 {
        m.store := *;
      }
      return;
    }
    ghost var cl := cf[..len];
    CursorHere(t, fs, i, p, of, done);
    CursorHere(t, ts, j, q, ot, offset + done);
    ChunkIs(cf, t[p].data, of, done, n, len);
    Move(m, ts, j, q, ot, fs, p, of, n, offset + done);
    OverlayTwice(ct, offset, cl, done, n);
    CursorMoved(t, m.store, fs, i, p, of, done, n);
    CursorMoved(t, m.store, ts, j, q, ot, offset + done, n);
    FsApart(t, m.store, fs, ts);
  }

  /** Both cursors have gone `done` bytes, which are copied, and `left` are to go. */
  ghost predicate Under(s: Store, cf: seq<Byte>, ct: seq<Byte>, len: nat, offset: nat, ts: seq<Ptr>, j: nat, q: Ptr,
                        ot: nat, fs: seq<Ptr>, i: nat, p: Ptr, of: nat, left: int, done: nat)
  {
    && Cursor(s, fs, i, p, of, done) && Cursor(s, ts, j, q, ot, offset + done)
    && p != NULL && q != NULL && done + left == len <= |cf| && 0 <= left && offset + len <= |ct|
    && Flat(s, fs) == cf && Flat(s, ts) == Overlay(ct, offset, cf[..len][..done])
    && forall x :: x in fs ==> x in s && x !in ts
  }

  /** On to the next pbuf of a chain once the current one is used up. */
  method NextPiece(m: Pbufs, ghost ps: seq<Ptr>, ghost i: nat, p: Ptr, o: nat, ghost pos: nat)
    returns (p': Ptr, o': nat, ghost i': nat)
    requires Cursor(m.store, ps, i, p, o, pos) && p != NULL && p in m.store
    ensures Cursor(m.store, ps, i', p', o', pos)
    ensures if o == |m.store[p].data| then i' == i + 1 else i' == i && p' == p && o' == o
  {
    hide StandsAt, Flat, Cursor;
    CursorHere(m.store, ps, i, p, o, pos);
    if o >= |m.store[p].data| {
      p', o', i' := m.store[p].next, 0, i + 1;
    } else {
      p', o', i' := p, o, i;
    }
  }

  /** Both chains on to the next pbuf where the current one is used up, and the test for
      packet queues. */
  method Onward(m: Pbufs, ghost s: Store, ghost cf: seq<Byte>, ghost ct: seq<Byte>, ghost len: nat, ghost offset: nat,
                ghost ts: seq<Ptr>, ghost j: nat, q: Ptr, ot: nat, ghost fs: seq<Ptr>, ghost i: nat, p: Ptr, of: nat,
                left: nat, ghost done: nat)
    returns (p': Ptr, of': nat, ghost i': nat, q': Ptr, ot': nat, ghost j': nat, queue: bool)
    requires Under(m.store, cf, ct, len, offset, ts, j, q, ot, fs, i, p, of, left, done)
    requires SameShape(s, m.store) && NULL !in s && p in m.store && q in m.store
    ensures left > 0 ==> Under(m.store, cf, ct, len, offset, ts, j', q', ot', fs, i', p', of', left, done)
    ensures left == 0 ==> Flat(m.store, fs) == cf && offset + len <= |ct| && len <= |cf| && done == len
    ensures left == 0 ==> Flat(m.store, ts) == Overlay(ct, offset, cf[..len])
    ensures if of == |m.store[p].data| then i' == i + 1 else i' == i && p' == p && of' == of
    ensures if ot == |m.store[q].data| then j' == j + 1 else j' == j && q' == q && ot' == ot
    ensures i' <= |fs| && j' <= |ts|
    ensures OnePacket(s, fs) && OnePacket(s, ts) ==> !queue
    ensures queue <==>
      || (p' in m.store && m.store[p'].totLen == |m.store[p'].data| && m.store[p'].next != NULL)
      || (q' in m.store && m.store[q'].totLen == |m.store[q'].data| && m.store[q'].next != NULL)
  {
    hide StandsAt, Flat, Overlay, SameShape, Cursor, OnePacket, QueueAt;
    CursorHere(m.store, fs, i, p, of, done);
    CursorHere(m.store, ts, j, q, ot, offset + done);
    p', of', i' := NextPiece(m, fs, i, p, of, done);
    q', ot', j' := NextPiece(m, ts, j, q, ot, offset + done);
    CursorHere(m.store, fs, i', p', of', done);
    CursorHere(m.store, ts, j', q', ot', offset + done);
    FlatFull(m.store, ts, ct, offset, cf, len, done);
    Queues(s, m.store, fs, i', p', of', done);
    Queues(s, m.store, ts, j', q', ot', offset + done);
    assert NULL !in m.store by { ShapeAtNull(s, m.store); }
    if left == 0 {
      assert cf[..len][..done] == cf[..len];
    }
    queue := (p' != NULL && |m.store[p'].data| == m.store[p'].totLen && m.store[p'].next != NULL)
          || (q' != NULL && |m.store[q'].data| == m.store[q'].totLen && m.store[q'].next != NULL);
  }

  lemma ShapeAtNull(s: Store, t: Store)
    requires SameShape(s, t) && NULL !in s
    ensures NULL !in t
  {
  }

  lemma FlatFull(s: Store, ts: seq<Ptr>, ct: seq<Byte>, offset: nat, cf: seq<Byte>, len: nat, done: nat)
    requires done <= len <= |cf| && offset + len <= |ct| && Flat(s, ts) == Overlay(ct, offset, cf[..len][..done])
    ensures |Flat(s, ts)| == |ct|
  {
    hide Flat;
  }

  lemma DataSize(s: Store, p: Ptr)
    requires Totals(s) && p in s
    ensures |s[p].data| < U16 && s[p].totLen < U16
  {
    assert TotalAt(s, p);
  }

  lemma StartUnder(s: Store, rank: map<Ptr, nat>, to: Ptr, from: Ptr, ts: seq<Ptr>, fs: seq<Ptr>, len: nat, offset: nat)
    requires Ranked(s, rank) && Totals(s) && IsPath(s, to, ts) && IsPath(s, from, fs) && to in s && from in s
    requires len <= s[from].totLen && offset + len <= s[to].totLen && offset <= |s[to].data|
    requires forall x :: x in fs ==> x in s && x !in ts
    ensures Under(s, Flat(s, fs), Flat(s, ts), len, offset, ts, 0, to, offset, fs, 0, from, 0, len, 0)
  {
    hide Ranked, StandsAt, Flat, Overlay, Totals, IsPath, Cursor;
    Started(s, rank, from, fs, 0);
    Started(s, rank, to, ts, offset);
    AtMostAll(s, rank, from, fs);
    AtMostAll(s, rank, to, ts);
    OverlayNone(Flat(s, ts), offset, Flat(s, fs)[..len]);
    NullOut(s, rank);
  }

  lemma NullOut(s: Store, rank: map<Ptr, nat>)
    requires Ranked(s, rank)
    ensures NULL !in s
  {
  }

  /** pbuf_copy_partial_pbuf: copies the first `len` bytes of the chain `from` over
      those of the chain `to` from `offset` on. With an offset behind the first pbuf the
      first round writes `past` bytes behind its end, and the assertion after that fails;
      nothing can be said of the memory from then on. */
  method CopyPartialPbuf(m: Pbufs, to: Ptr, from: Ptr, len: nat, offset: nat, range: nat)
    returns (err: Err, ghost past: nat)
    requires m.Valid() && Totals(m.store) && (to == NULL || to in m.store) && (from == NULL || from in m.store)
    requires range >= 2 * U16 && forall x :: x in m.Path(from) ==> x !in m.Path(to)
    modifies m`store
    ensures err != Overrun || past == 0 ==>
      && m.Valid() && Totals(m.store) && SameShape(old(m.store), m.store)
      && Elsewhere(old(m.store), m.store, old(m.Path(to)))
    ensures err == Overrun <==> err != Arg && to != NULL && offset > |old(m.store)[to].data|
    ensures err == Overrun ==>
      from != NULL && past == (if len < |old(m.store)[from].data| then len else |old(m.store)[from].data|)
    ensures err == Overrun && past == 0 ==> m.store == old(m.store)
    ensures err == Arg <==>
      from == NULL || old(m.store)[from].totLen < len || to == NULL || old(m.store)[to].totLen < offset + len
    ensures err == Arg ==> m.store == old(m.store)
    ensures err != Mem && (err != Overrun ==> m.Contents(from) == old(m.Contents(from)))
    ensures err == Ok ==> len <= |old(m.Contents(from))| && offset + len <= |old(m.Contents(to))|
    ensures err == Ok ==> m.Contents(to) == Overlay(old(m.Contents(to)), offset, old(m.Contents(from))[..len])
    ensures OnePacket(old(m.store), old(m.Path(from))) && OnePacket(old(m.store), old(m.Path(to))) ==> err != Val
  {
    hide Ranked, Counted, StandsAt, Flat, Overlay, SameShape, Totals, Consecutive, PathOf, IsPath, Cursor, OnePacket,
      QueueAt;
    hide Elsewhere, PieceLength;
    ghost var s, rk := m.store, m.rank;
    ghost var fs, ts, cf, ct := m.Path(from), m.Path(to), m.Contents(from), m.Contents(to);
    past := 0;
    ShapeSelf(s);
    ElsewhereSelf(s, ts);
    NullOutside(s, rk, m.handles);
    if from == NULL || m.store[from].totLen < len {
      return Arg, 0;
    }
    if to == NULL || m.store[to].totLen < offset + len {
      return Arg, 0;
    }
    PathConsecutive(s, rk, from, fs);
    var p, q, left: nat, ot: nat, of: nat := from, to, len, offset, 0;
    ghost var i: nat, j: nat, done: nat := 0, 0, 0;
    ghost var inside := offset <= |s[to].data|;
    if inside {
      StartUnder(s, rk, to, from, ts, fs, len, offset);
    }
    while true
      invariant inside ==> SameShape(s, m.store) && done + left == len && Elsewhere(s, m.store, ts)
      invariant inside ==> Under(m.store, cf, ct, len, offset, ts, j, q, ot, fs, i, p, of, left, done)
      invariant inside ==> i <= |fs| && j <= |ts|
      invariant !inside ==> m.store == s && p == from && q == to && left == len && ot == offset && of == 0
      decreases left, |fs| - i, |ts| - j
    {
      ghost var t := m.store;
      if inside {
        CursorHere(t, fs, i, p, of, done);
        CursorHere(t, ts, j, q, ot, offset + done);
        ShapeTotals(s, t);
      }
      DataSize(t, p);
      DataSize(t, q);
      var room := |m.store[q].data|;
      var n := Piece(m, cf, ct, len, offset, ts, j, q, ot, fs, i, p, of, left, done, range);
      WritesInside(range, room, ot, |t[p].data|, of, left);
      if ot + n > room {
        past := n;
        return Overrun, n;
      }
      ShapeTwice(s, t, m.store);
      ElsewhereTwice(s, t, m.store, ts);
      left := left - n;
      done := done + n;
      var queue;
      p, of, i, q, ot, j, queue :=
        Onward(m, s, cf, ct, len, offset, ts, j, q, ot + n, fs, i, p, of + n, left, done);
      if queue {
        Finished(m, s, rk, from, to, fs, ts);
        return Val, 0;
      }
      if left == 0 {
        break;
      }
    }
    Finished(m, s, rk, from, to, fs, ts);
    return Ok, 0;
  }

  /** Chains of non-empty pbufs of less than 64K are single packets. */
  lemma NonEmptyPacket(s: Store, rank: map<Ptr, nat>, p: Ptr, ps: seq<Ptr>)
    requires Ranked(s, rank) && Totals(s) && IsPath(s, p, ps) && |Flat(s, ps)| < U16
    requires forall x :: x in ps && x in s ==> s[x].data != []
    ensures OnePacket(s, ps)
  {
    PathConsecutive(s, rank, p, ps);
    forall i | 0 <= i < |ps| - 1 && ps[i] in s
      ensures s[ps[i]].totLen != |s[ps[i]].data|
    {
      ExactTotals(s, p, ps, i);
      ExactTotals(s, p, ps, i + 1);
      FlatStep(s, ps, i);
      FlatStep(s, ps, i + 1);
      assert ps[i + 1] in ps;
    }
  }

  /** pbuf_copy: the whole of one chain over the start of another. */
  method Copy(m: Pbufs, to: Ptr, from: Ptr, range: nat) returns (err: Err)
    requires m.Valid() && Totals(m.store) && (to == NULL || to in m.store) && (from == NULL || from in m.store)
    requires |m.Contents(from)| < U16 && |m.Contents(to)| < U16 && range >= 2 * U16
    requires forall x :: x in m.Path(from) ==> x !in m.Path(to)
    requires forall x :: x in m.Path(from) + m.Path(to) && x in m.store ==> m.store[x].data != []
    modifies m`store
    ensures m.Valid() && Totals(m.store) && SameShape(old(m.store), m.store)
    ensures Elsewhere(old(m.store), m.store, old(m.Path(to)))
    ensures err == if from == NULL || to == NULL || |old(m.Contents(to))| < |old(m.Contents(from))| then Arg else Ok
    ensures err == Ok ==> m.Contents(to) == old(m.Contents(from)) + old(m.Contents(to))[|old(m.Contents(from))|..]
    ensures err == Arg ==> m.store == old(m.store)
  {
    hide Ranked, Counted, StandsAt, Flat, SameShape, Totals, PathOf, IsPath, OnePacket, Elsewhere;
    ShapeSelf(m.store);
    ElsewhereSelf(m.store, m.Path(to));
    if from == NULL {
      return Arg;
    }
    ghost var s, fs, ts := m.store, m.Path(from), m.Path(to);
    NonEmptyPacket(s, m.rank, from, fs);
    NonEmptyPacket(s, m.rank, to, ts);
    TotalOfPath(s, from, fs);
    TotalOfPath(s, to, ts);
    ghost var past;
    err, past := CopyPartialPbuf(m, to, from, m.store[from].totLen, 0, range);
  }
}
