/** The block list of the lwIP heap as a map from header offsets to headers.
    A header that is merged away leaves the map, because its bytes then belong
    to a data area: looking it up would be a stale dereference. */
module MemBlocks {
  datatype Header = Header(next: nat, prev: nat, used: bool)

  type Heads = map<nat, Header>

  /** MIN_SIZE_ALIGNED, with MEM_ALIGNMENT being 4. */
  const MIN_SIZE := 12

  /** No header lies strictly between `p` and `n`. */
  ghost predicate Clear(h: Heads, p: nat, n: nat)
  {
    forall q :: q in h ==> q <= p || n <= q
  }

  /** The link of the block at `p` in a heap of `size` bytes whose headers take `hdr` bytes:
      it ends where the next one starts, and both neighbours point back. */
  ghost predicate LinkedAt(h: Heads, p: nat, size: nat, hdr: nat)
    requires p in h
  {
    && p % 4 == 0 && h[p].next in h && h[p].next <= size && p + hdr + MIN_SIZE <= h[p].next
    && Clear(h, p, h[p].next)
    && (h[p].next < size ==> h[h[p].next].prev == p)
    && (if p == 0 then h[p].prev == 0 else h[p].prev in h && h[p].prev < p && h[h[p].prev].next == p)
  }

  /** Blocks tile the heap from offset 0 to the end header, linked both ways. */
  ghost predicate Linked(h: Heads, size: nat, hdr: nat)
  {
    && 0 < size && size % 4 == 0 && 0 < hdr && hdr % 4 == 0
    && 0 in h && size in h && h[size] == Header(size, size, true)
    && forall p :: p in h && p != size ==> LinkedAt(h, p, size, hdr)
  }

  /** Neighbouring blocks are not both free. */
  ghost predicate Coalesced(h: Heads)
  {
    forall p :: p in h && h[p].next in h ==> h[p].used || h[h[p].next].used
  }

  /** Every two free neighbours have `p` among them. */
  ghost predicate CoalescedBut(h: Heads, p: nat)
  {
    forall q :: q in h && h[q].next in h && q != p && h[q].next != p ==> h[q].used || h[h[q].next].used
  }

  ghost predicate IsFree(h: Heads, p: nat)
  {
    p in h && !h[p].used
  }

  ghost predicate IsUsed(h: Heads, p: nat, size: nat)
  {
    p in h && h[p].used && p != size
  }

  /** The block at `p` is free and has at least `n` bytes of data. */
  ghost predicate Fits(h: Heads, p: nat, n: nat, hdr: nat)
  {
    IsFree(h, p) && h[p].next >= p + hdr + n
  }

  ghost predicate HasRoom(h: Heads, n: nat, hdr: nat)
  {
    exists p :: Fits(h, p, n, hdr)
  }

  ghost predicate FirstFit(h: Heads, p: nat, n: nat, hdr: nat)
  {
    Fits(h, p, n, hdr) && forall q: nat :: q < p ==> !Fits(h, q, n, hdr)
  }

  /** The bytes the used block at `p` takes, header included. */
  ghost function Weight(h: Heads, p: nat): int
  {
    if p in h && h[p].used then h[p].next - p else 0
  }

  ghost function UsedBelow(h: Heads, k: nat): int
  {
    if k == 0 then 0 else UsedBelow(h, k - 1) + Weight(h, k - 1)
  }

  /** Changing the weight of one offset changes the total by as much. */
  lemma {:induction false} WeightChanged(h: Heads, g: Heads, p: nat, k: nat)
    requires forall q: nat :: q < k && q != p ==> Weight(g, q) == Weight(h, q)
    ensures UsedBelow(g, k) - UsedBelow(h, k) == if p < k then Weight(g, p) - Weight(h, p) else 0
  {
    if k == 0 {
    } else {
      WeightChanged(h, g, p, k - 1);
    }
  }

  /** Absorbs the block after `p` into `p`. */
  ghost function Join(h: Heads, p: nat, size: nat): Heads
    requires p in h && h[p].next in h
  {
    var n := h[p].next;
    var e := h[n].next;
    var g := h[p := h[p].(next := e)];
    (if e != size && e in h then g[e := h[e].(prev := p)] else g) - {n}
  }

  /** Cuts the block at `p` at `n`; the upper part is free. */
  ghost function Cut(h: Heads, p: nat, n: nat, size: nat): Heads
    requires p in h
  {
    var e := h[p].next;
    var g := h[n := Header(e, p, false)][p := h[p].(next := n)];
    if e != size && e in h then g[e := h[e].(prev := n)] else g
  }

  /** The header `x` of `q` once `p` is followed by `n` and `e` preceded by `m`. */
  ghost function Relinked(x: Header, q: nat, p: nat, n: nat, e: nat, m: nat, size: nat): Header {
    Header(if q == p then n else x.next, if q == e != size then m else x.prev, x.used)
  }

  lemma JoinLookup(h: Heads, p: nat, n: nat, e: nat, size: nat)
    requires p in h && n in h && e in h && h[p].next == n && h[n].next == e && p != n && n != e && p != e
    ensures Join(h, p, size).Keys == h.Keys - {n}
    ensures forall q :: q in Join(h, p, size) ==> Join(h, p, size)[q] == Relinked(h[q], q, p, e, e, p, size)
  {
  }

  lemma CutLookup(h: Heads, p: nat, n: nat, e: nat, size: nat)
    requires p in h && n !in h && h[p].next == e && e != p
    ensures Cut(h, p, n, size).Keys == h.Keys + {n} && Cut(h, p, n, size)[n] == Header(e, p, false)
    ensures forall q :: q in h ==> Cut(h, p, n, size)[q] == Relinked(h[q], q, p, n, e, n, size)
  {
  }

  lemma JoinLinked(h: Heads, p: nat, size: nat, hdr: nat)
    requires Linked(h, size, hdr) && p in h && p != size && h[p].next != size
    ensures h[p].next in h && p < h[p].next < h[h[p].next].next <= size
    ensures Linked(Join(h, p, size), size, hdr)
    ensures Join(h, p, size).Keys == h.Keys - {h[p].next}
    ensures Join(h, p, size)[p] == h[p].(next := h[h[p].next].next)
    ensures forall q :: q in h && q != p && q != h[p].next ==>
      Join(h, p, size)[q].next == h[q].next && Join(h, p, size)[q].used == h[q].used
  {
    hide Clear, Join;
    assert LinkedAt(h, p, size, hdr);
    var n := h[p].next;
    assert LinkedAt(h, n, size, hdr);
    var e, g := h[n].next, Join(h, p, size);
    JoinLookup(h, p, n, e, size);
    assert e in h;
    JoinClear(h, g, p, n, e);
    forall q | q in g && q != size
      ensures LinkedAt(g, q, size, hdr)
    {
      JoinLinkedAt(h, g, p, q, size, hdr);
    }
  }

  lemma JoinLinkedAt(h: Heads, g: Heads, p: nat, q: nat, size: nat, hdr: nat)
    requires Linked(h, size, hdr) && p in h && p != size && h[p].next in h && h[p].next != size
    requires g.Keys == h.Keys - {h[p].next} && size in g && q in g && q != size
    requires var e := h[h[p].next].next;
      Clear(g, p, e) && forall i :: i in g ==> g[i] == Relinked(h[i], i, p, e, e, p, size)
    ensures LinkedAt(g, q, size, hdr)
  {
    hide Clear, Linked;
    LinkedHere(h, p, size, hdr);
    LinkedHere(h, h[p].next, size, hdr);
    LinkedHere(h, q, size, hdr);
    NextDistinct(h, q, p, size, hdr);
    NextDistinct(h, q, h[p].next, size, hdr);
    ClearKept(h, g, q, h[q].next);
  }

  lemma LinkedHere(h: Heads, q: nat, size: nat, hdr: nat)
    requires Linked(h, size, hdr) && q in h && q != size
    ensures LinkedAt(h, q, size, hdr)
  {
  }

  /** Only one block ends at a given offset. */
  lemma NextDistinct(h: Heads, q: nat, p: nat, size: nat, hdr: nat)
    requires Linked(h, size, hdr) && p in h && q in h && q != size && p != size
    ensures q != p ==> h[q].next != h[p].next
  {
    assert LinkedAt(h, p, size, hdr) && LinkedAt(h, q, size, hdr);
  }

  lemma JoinClear(h: Heads, g: Heads, p: nat, n: nat, e: nat)
    requires Clear(h, p, n) && Clear(h, n, e) && g.Keys == h.Keys - {n}
    ensures Clear(g, p, e)
  {
  }

  lemma ClearKept(h: Heads, g: Heads, p: nat, n: nat)
    requires Clear(h, p, n) && g.Keys <= h.Keys
    ensures Clear(g, p, n)
  {
  }

  lemma ClearOf(h: Heads, p: nat, n: nat, e: nat)
    requires Clear(h, p, e) && p < n < e
    ensures n !in h
  {
  }

  lemma CutClear(h: Heads, g: Heads, p: nat, n: nat, e: nat)
    requires Clear(h, p, e) && g.Keys == h.Keys + {n} && p < n < e
    ensures n !in h && Clear(g, p, n) && Clear(g, n, e)
    ensures forall q: nat, m: nat :: Clear(h, q, m) && (n <= q || m <= n) ==> Clear(g, q, m)
  {
  }

  lemma CutLinked(h: Heads, p: nat, n: nat, size: nat, hdr: nat)
    requires Linked(h, size, hdr) && p in h && p != size
    requires n % 4 == 0 && p + hdr + MIN_SIZE <= n && n + hdr + MIN_SIZE <= h[p].next
    ensures n !in h && n < size
    ensures Linked(Cut(h, p, n, size), size, hdr)
    ensures Cut(h, p, n, size).Keys == h.Keys + {n}
    ensures Cut(h, p, n, size)[p] == h[p].(next := n)
    ensures Cut(h, p, n, size)[n] == Header(h[p].next, p, false)
    ensures forall q :: q in h && q != p ==>
      Cut(h, p, n, size)[q].next == h[q].next && Cut(h, p, n, size)[q].used == h[q].used
  {
    hide Clear, Cut;
    assert LinkedAt(h, p, size, hdr);
    var e, g := h[p].next, Cut(h, p, n, size);
    assert e != size ==> LinkedAt(h, e, size, hdr);
    ClearOf(h, p, n, e);
    CutLookup(h, p, n, e, size);
    CutClear(h, g, p, n, e);
    forall q | q in g && q != size
      ensures LinkedAt(g, q, size, hdr)
    {
      if q != n && q != p {
        CutLinkedAt(h, g, p, n, q, size, hdr);
      }
    }
  }

  lemma CutLinkedAt(h: Heads, g: Heads, p: nat, n: nat, q: nat, size: nat, hdr: nat)
    requires Linked(h, size, hdr) && p in h && p != size && n !in h && p < n < h[p].next
    requires g.Keys == h.Keys + {n} && q in h && q != size && q != p && g[n].prev == p && g[n].next == h[p].next
    requires forall i :: i in h ==> g[i] == Relinked(h[i], i, p, n, h[p].next, n, size)
    requires forall a: nat, b: nat :: Clear(h, a, b) && (n <= a || b <= n) ==> Clear(g, a, b)
    ensures LinkedAt(g, q, size, hdr)
  {
    hide Clear, Linked;
    LinkedHere(h, p, size, hdr);
    LinkedHere(h, q, size, hdr);
    NextDistinct(h, q, p, size, hdr);
    Apart(h, p, q, size, hdr);
  }

  /** Two blocks do not overlap. */
  lemma Apart(h: Heads, p: nat, q: nat, size: nat, hdr: nat)
    requires Linked(h, size, hdr) && p in h && q in h && p != q && p != size && q != size
    ensures h[p].next <= q || h[q].next <= p
  {
    assert LinkedAt(h, p, size, hdr) && LinkedAt(h, q, size, hdr);
  }

  lemma MarkLinked(h: Heads, p: nat, used: bool, size: nat, hdr: nat)
    requires Linked(h, size, hdr) && p in h && p != size
    ensures Linked(h[p := h[p].(used := used)], size, hdr)
  {
    hide Clear;
    var g := h[p := h[p].(used := used)];
    forall q | q in g && q != size
      ensures LinkedAt(g, q, size, hdr)
    {
      LinkedAlike(h, g, q, size, hdr);
    }
  }

  lemma LinkedAlike(h: Heads, g: Heads, q: nat, size: nat, hdr: nat)
    requires Linked(h, size, hdr) && q in h && q != size && g.Keys == h.Keys
    requires forall i :: i in h ==> g[i].next == h[i].next && g[i].prev == h[i].prev
    ensures LinkedAt(g, q, size, hdr)
  {
    hide Clear, Linked;
    LinkedHere(h, q, size, hdr);
    ClearKept(h, g, q, h[q].next);
  }

  /** The used blocks of both lists are the same. */
  ghost predicate SameUsed(h: Heads, g: Heads, size: nat)
  {
    forall q: nat :: (IsUsed(h, q, size) <==> IsUsed(g, q, size)) && (IsUsed(h, q, size) ==> g[q].next == h[q].next)
  }

  /** Whatever fits into `h` fits into `g`. */
  ghost predicate Roomier(h: Heads, g: Heads, hdr: nat)
  {
    forall n: nat :: HasRoom(h, n, hdr) ==> HasRoom(g, n, hdr)
  }

  /** Every free offset of `g` was free in `h`. */
  ghost predicate FreeWithin(h: Heads, g: Heads)
  {
    forall q: nat :: IsFree(g, q) ==> IsFree(h, q)
  }

  lemma {:induction false} SameUsedSum(h: Heads, g: Heads, size: nat, k: nat)
    requires SameUsed(h, g, size) && k <= size
    ensures UsedBelow(g, k) == UsedBelow(h, k)
  {
    if k == 0 {
    } else {
      assert IsUsed(h, k - 1, size) <==> IsUsed(g, k - 1, size);
      SameUsedSum(h, g, size, k - 1);
    }
  }

  /** Joining two free blocks keeps the used ones and loses no room. */
  lemma JoinFree(h: Heads, p: nat, size: nat, hdr: nat)
    requires Linked(h, size, hdr) && IsFree(h, p) && p != size && IsFree(h, h[p].next)
    ensures h[p].next != size
    ensures SameUsed(h, Join(h, p, size), size) && FreeWithin(h, Join(h, p, size)) && IsFree(Join(h, p, size), p)
    ensures Roomier(h, Join(h, p, size), hdr)
  {
    hide Join, Linked;
    LinkedEnd(h, size, hdr);
    JoinLinked(h, p, size, hdr);
    var g, n := Join(h, p, size), h[p].next;
    forall m: nat | HasRoom(h, m, hdr)
      ensures HasRoom(g, m, hdr)
    {
      var q :| Fits(h, q, m, hdr);
      assert Fits(g, if q == n then p else q, m, hdr);
    }
  }

  lemma LinkedEnd(h: Heads, size: nat, hdr: nat)
    requires Linked(h, size, hdr)
    ensures size in h && 0 in h && h[size] == Header(size, size, true) && 0 < size
  {
  }

  /** The block after `p` absorbed if it is free. */
  ghost function Forward(h: Heads, p: nat, size: nat): Heads
    requires p in h && h[p].next in h
  {
    if h[h[p].next].used then h else Join(h, p, size)
  }

  ghost function Backward(h: Heads, p: nat, size: nat): Heads
    requires p in h && h[p].prev in h && h[h[p].prev].next in h
  {
    if h[p].prev == p || h[h[p].prev].used then h else Join(h, h[p].prev, size)
  }

  /** `g` is `h` with neighbouring free blocks merged. */
  ghost predicate Merged(h: Heads, g: Heads, size: nat, hdr: nat)
  {
    Linked(g, size, hdr) && SameUsed(h, g, size) && FreeWithin(h, g) && Roomier(h, g, hdr)
  }

  lemma ForwardMerges(h: Heads, p: nat, size: nat, hdr: nat)
    requires Linked(h, size, hdr) && IsFree(h, p) && p != size && CoalescedBut(h, p)
    ensures h[p].next in h && IsFree(Forward(h, p, size), p)
    ensures Merged(h, Forward(h, p, size), size, hdr) && CoalescedBut(Forward(h, p, size), p)
    ensures var g := Forward(h, p, size); g[p].next in g && g[g[p].next].used && g[p].prev == h[p].prev
  {
    hide Join, Linked;
    LinkedEnd(h, size, hdr);
    LinkedHere(h, p, size, hdr);
    var n := h[p].next;
    if !h[n].used {
      JoinFree(h, p, size, hdr);
      JoinLinked(h, p, size, hdr);
      LinkedHere(h, n, size, hdr);
      assert CoalescedBut(Join(h, p, size), p);
    }
  }

  lemma BackwardMerges(h: Heads, p: nat, size: nat, hdr: nat)
    requires Linked(h, size, hdr) && IsFree(h, p) && p != size && CoalescedBut(h, p)
    requires h[p].next in h && h[h[p].next].used
    ensures h[p].prev in h && h[h[p].prev].next in h
    ensures Merged(h, Backward(h, p, size), size, hdr) && Coalesced(Backward(h, p, size))
  {
    hide Join, Linked;
    LinkedEnd(h, size, hdr);
    LinkedHere(h, p, size, hdr);
    var m := h[p].prev;
    PrevOnly(h, p, size, hdr);
    if p == 0 {
      assert Coalesced(h);
    } else {
      LinkedHere(h, m, size, hdr);
      if h[m].used {
        assert Coalesced(h);
      } else {
        JoinFree(h, m, size, hdr);
        JoinLinked(h, m, size, hdr);
        assert Coalesced(Join(h, m, size));
      }
    }
  }

  /** Only the block before `p` ends at `p`. */
  lemma PrevOnly(h: Heads, p: nat, size: nat, hdr: nat)
    requires Linked(h, size, hdr) && p in h && p != size
    ensures forall q :: q in h && h[q].next == p ==> q == h[p].prev
  {
    forall q | q in h && h[q].next == p
      ensures q == h[p].prev
    {
      assert LinkedAt(h, q, size, hdr);
      assert LinkedAt(h, p, size, hdr);
    }
  }

  /** Every used block but `p` keeps its place. */
  ghost predicate SameOthers(h: Heads, g: Heads, p: nat, size: nat)
  {
    forall q: nat :: q != p ==>
      (IsUsed(h, q, size) <==> IsUsed(g, q, size)) && (IsUsed(h, q, size) ==> g[q].next == h[q].next)
  }

  lemma OthersSum(h: Heads, g: Heads, p: nat, size: nat, hdr: nat)
    requires Linked(h, size, hdr) && Linked(g, size, hdr) && SameOthers(h, g, p, size) && p < size
    ensures UsedBelow(g, size) == UsedBelow(h, size) + Weight(g, p) - Weight(h, p)
  {
    hide Linked;
    forall q: nat | q < size && q != p
      ensures Weight(g, q) == Weight(h, q)
    {
      assert IsUsed(h, q, size) <==> IsUsed(g, q, size);
    }
    WeightChanged(h, g, p, size);
  }

  ghost function Mark(h: Heads, p: nat, used: bool): Heads
    requires p in h
  {
    h[p := h[p].(used := used)]
  }

  /** Taking a free block leaves no new pair of free neighbours. */
  lemma MarkUsed(h: Heads, p: nat, size: nat, hdr: nat)
    requires Linked(h, size, hdr) && Coalesced(h) && IsFree(h, p) && p != size
    ensures Linked(Mark(h, p, true), size, hdr) && Coalesced(Mark(h, p, true))
    ensures SameOthers(h, Mark(h, p, true), p, size)
    ensures forall q: nat :: IsFree(Mark(h, p, true), q) <==> IsFree(h, q) && q != p
    ensures h[p].next in h && Mark(h, p, true)[h[p].next].used
    ensures UsedBelow(Mark(h, p, true), size) == UsedBelow(h, size) + h[p].next - p
  {
    hide Linked;
    LinkedHere(h, p, size, hdr);
    MarkLinked(h, p, true, size, hdr);
    OthersSum(h, Mark(h, p, true), p, size, hdr);
  }

  lemma MarkFree(h: Heads, p: nat, size: nat, hdr: nat)
    requires Linked(h, size, hdr) && Coalesced(h) && IsUsed(h, p, size)
    ensures Linked(Mark(h, p, false), size, hdr) && CoalescedBut(Mark(h, p, false), p)
    ensures SameOthers(h, Mark(h, p, false), p, size)
    ensures forall q: nat :: IsFree(Mark(h, p, false), q) <==> IsFree(h, q) || q == p
    ensures Roomier(h, Mark(h, p, false), hdr)
    ensures UsedBelow(Mark(h, p, false), size) == UsedBelow(h, size) - (h[p].next - p)
  {
    hide Linked;
    LinkedHere(h, p, size, hdr);
    MarkLinked(h, p, false, size, hdr);
    OthersSum(h, Mark(h, p, false), p, size, hdr);
    var g := Mark(h, p, false);
    forall m: nat | HasRoom(h, m, hdr)
      ensures HasRoom(g, m, hdr)
    {
      var q :| Fits(h, q, m, hdr);
      assert Fits(g, q, m, hdr);
    }
  }

  /** Cutting a used block that a used one follows. */
  lemma CutUsed(h: Heads, p: nat, n: nat, size: nat, hdr: nat)
    requires Linked(h, size, hdr) && Coalesced(h) && IsUsed(h, p, size) && h[p].next in h && h[h[p].next].used
    requires n % 4 == 0 && p + hdr + MIN_SIZE <= n && n + hdr + MIN_SIZE <= h[p].next
    ensures Linked(Cut(h, p, n, size), size, hdr) && Coalesced(Cut(h, p, n, size))
    ensures SameOthers(h, Cut(h, p, n, size), p, size)
    ensures IsUsed(Cut(h, p, n, size), p, size) && Cut(h, p, n, size)[p].next == n
    ensures forall q: nat :: IsFree(Cut(h, p, n, size), q) <==> IsFree(h, q) || q == n
    ensures Roomier(h, Cut(h, p, n, size), hdr)
    ensures UsedBelow(Cut(h, p, n, size), size) == UsedBelow(h, size) - (h[p].next - n)
  {
    hide Linked, Cut;
    CutLinked(h, p, n, size, hdr);
    LinkedHere(h, p, size, hdr);
    LinkedEnd(h, size, hdr);
    var g := Cut(h, p, n, size);
    forall q | q in g && g[q].next in g
      ensures g[q].used || g[g[q].next].used
    {
      if q != size && q != p && q != n && g[q].next == n {
        LinkedHere(h, q, size, hdr);
      }
    }
    assert SameOthers(h, g, p, size);
    OthersSum(h, g, p, size, hdr);
    forall m: nat | HasRoom(h, m, hdr)
      ensures HasRoom(g, m, hdr)
    {
      var q :| Fits(h, q, m, hdr);
      assert Fits(g, q, m, hdr);
    }
  }

  /** The free block after the used block at `p` moved down to `n`. */
  ghost function Moved(h: Heads, p: nat, n: nat, size: nat): Heads
    requires p in h && h[p].next in h && h[p].next != p
  {
    Cut(Join(h, p, size), p, n, size)
  }

  lemma MoveFree(h: Heads, p: nat, n: nat, size: nat, hdr: nat)
    requires Linked(h, size, hdr) && Coalesced(h) && IsUsed(h, p, size) && IsFree(h, h[p].next) && h[p].next != p
    requires n % 4 == 0 && p + hdr + MIN_SIZE <= n < h[p].next
    ensures Linked(Moved(h, p, n, size), size, hdr) && Coalesced(Moved(h, p, n, size))
    ensures SameOthers(h, Moved(h, p, n, size), p, size)
    ensures IsUsed(Moved(h, p, n, size), p, size) && Moved(h, p, n, size)[p].next == n
    ensures forall q: nat :: IsFree(Moved(h, p, n, size), q) <==> (IsFree(h, q) && q != h[p].next) || q == n
    ensures Roomier(h, Moved(h, p, n, size), hdr)
    ensures UsedBelow(Moved(h, p, n, size), size) == UsedBelow(h, size) - (h[p].next - n)
  {
    hide Linked, Cut, Join;
    var j, m := Join(h, p, size), h[p].next;
    LinkedEnd(h, size, hdr);
    LinkedHere(h, m, size, hdr);
    JoinUsed(h, p, size, hdr);
    CutUsed(j, p, n, size, hdr);
    CutLinked(j, p, n, size, hdr);
    JoinLinked(h, p, size, hdr);
    var g := Cut(j, p, n, size);
    forall k: nat | HasRoom(h, k, hdr)
      ensures HasRoom(g, k, hdr)
    {
      var q :| Fits(h, q, k, hdr);
      assert Fits(g, if q == m then n else q, k, hdr);
    }
  }

  lemma JoinUsed(h: Heads, p: nat, size: nat, hdr: nat)
    requires Linked(h, size, hdr) && Coalesced(h) && IsUsed(h, p, size) && IsFree(h, h[p].next)
    ensures Linked(Join(h, p, size), size, hdr) && Coalesced(Join(h, p, size))
    ensures SameOthers(h, Join(h, p, size), p, size) && IsUsed(Join(h, p, size), p, size)
    ensures var e := h[h[p].next].next;
      Join(h, p, size)[p].next == e && e in Join(h, p, size) && Join(h, p, size)[e].used
    ensures forall q: nat :: IsFree(Join(h, p, size), q) <==> IsFree(h, q) && q != h[p].next
    ensures UsedBelow(Join(h, p, size), size) == UsedBelow(h, size) + h[h[p].next].next - h[p].next
  {
    hide Linked, Join;
    LinkedEnd(h, size, hdr);
    LinkedHere(h, p, size, hdr);
    JoinLinked(h, p, size, hdr);
    LinkedHere(h, h[p].next, size, hdr);
    var g := Join(h, p, size);
    assert Coalesced(g);
    OthersSum(h, g, p, size, hdr);
  }
}
