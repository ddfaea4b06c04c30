/** The heap allocator of lwIP: first fit over the block list, with a cursor to
    the lowest free block. Other contexts may free and trim whenever an
    allocation drops its protection. */
module MemHeap {
  import opened MemBlocks

  datatype Pointer = Null | At(offset: int)

  /** What another context does to a block it holds. */
  datatype Action = Release(at: nat) | Shrink(at: nat, bytes: nat)

  class Heap {
    /** MEM_SIZE_ALIGNED, SIZEOF_STRUCT_MEM and the number of mem_size_t values. */
    const size: nat
    const hdr: nat
    const range: nat
    var heads: Heads
    var lfree: nat
    var freeCount: nat
    var usedStat: int
    var illegal: nat
    /** What callers hold: offset of the block to the number of bytes asked for. */
    ghost var owned: map<nat, nat>

    ghost predicate Config()
    {
      && size % 4 == 0 && hdr % 4 == 0 && range % 4 == 0 && 0 < hdr
      && hdr + MIN_SIZE <= size && size + hdr + MIN_SIZE < range
    }

    /** The heap is sound while the blocks in `busy` are taken but not handed out. */
    ghost predicate Sound(busy: set<nat>)
      reads this
    {
      && Config() && Linked(heads, size, hdr) && Coalesced(heads)
      && Lowest(heads, lfree) && (lfree == size || IsFree(heads, lfree) || lfree in busy)
      && Holding(heads, owned, busy)
      && usedStat == UsedBelow(heads, size)
    }

    /** At rest nothing is between the heap and its callers. */
    ghost predicate Valid()
      reads this
    {
      Sound({})
    }

    /** `owned` and `busy` are the used blocks, each large enough for its owner. */
    ghost predicate Holding(h: Heads, o: map<nat, nat>, busy: set<nat>)
    {
      && (forall p: nat :: IsUsed(h, p, size) <==> p in o || p in busy)
      && (forall p :: p in o ==> p !in busy && p + hdr + o[p] <= h[p].next)
    }

    /** The size a request needs: a multiple of the alignment, at least the minimum. */
    function Need(n: nat): (k: nat)
      ensures k % 4 == 0 && n <= k && 12 <= k && (k == 12 || k < n + 4)
    {
      var up := (n + 3) / 4 * 4;
      if up < MIN_SIZE then MIN_SIZE else up
    }

    /** LWIP_MEM_ALIGN_SIZE cast to mem_size_t, which may wrap around, raised to the minimum. */
    function Padded(n: nat): (size: nat)
      requires Config() && n < range
      ensures this.size < size || size < n <==> this.size < Need(n)
      ensures Need(n) <= this.size ==> size == Need(n)
    {
      var up := (n + 3) / 4 * 4;
      var a := if up < range then up else up - range;
      if a < MIN_SIZE then MIN_SIZE else a
    }

    /** The whole heap is one free block. */
    constructor (size: nat, hdr: nat, range: nat)
      requires size % 4 == 0 && hdr % 4 == 0 && range % 4 == 0 && 0 < hdr
      requires hdr + MIN_SIZE <= size && size + hdr + MIN_SIZE < range
      ensures Valid() && owned == map[] && usedStat == 0 && illegal == 0
      ensures this.size == size && this.hdr == hdr && this.range == range
      ensures heads == map[0 := Header(size, 0, false), size := Header(size, size, true)]
    {
      this.size, this.hdr, this.range := size, hdr, range;
      heads := map[0 := Header(size, 0, false), size := Header(size, size, true)];
      lfree, freeCount, usedStat, illegal, owned := 0, 0, 0, 0, map[];
      new;
      assert LinkedAt(heads, 0, size, hdr);
      NothingUsed(heads, size, size);
    }

    /** Makes the block at `p` end where the next one does. */
    method Absorb(p: nat)
      requires Linked(heads, size, hdr) && p in heads && p != size && heads[p].next != size
      modifies this`heads
      ensures old(heads)[p].next in old(heads) && heads == Join(old(heads), p, size)
    {
      LinkedHere(heads, p, size, hdr);
      LinkedHere(heads, heads[p].next, size, hdr);
      var n := heads[p].next;
      heads := heads[p := heads[p].(next := heads[n].next)];
      var e := heads[n].next;
      if e != size {
        heads := heads[e := heads[e].(prev := p)];
      }
      heads := heads - {n};
    }

    /** Combines a block just freed with its free neighbours. */
    method PlugHoles(mem: nat)
      requires Config() && Linked(heads, size, hdr) && CoalescedBut(heads, mem)
      requires IsFree(heads, mem) && mem != size && lfree in heads
      modifies this`heads, this`lfree
      ensures Merged(old(heads), heads, size, hdr) && Coalesced(heads)
      ensures lfree in heads && (Lowest(old(heads), old(lfree)) ==> lfree == old(lfree))
    {
      hide Linked, Config, Join, CoalescedBut, Coalesced, SameUsed, Roomier, FreeWithin, Lowest;
      ghost var h := heads;
      LinkedEnd(h, size, hdr);
      LinkedHere(h, mem, size, hdr);
      ForwardMerges(h, mem, size, hdr);
      LowestAt(h, lfree, mem);
      var nmem := heads[mem].next;
      if mem != nmem && !heads[nmem].used && nmem != size {
        JoinLinked(h, mem, size, hdr);
        if lfree == nmem {
          lfree := mem;
        }
        Absorb(mem);
      }
      ghost var g := heads;
      assert g == Forward(h, mem, size);
      BackwardMerges(g, mem, size, hdr);
      LinkedHere(g, mem, size, hdr);
      var pmem := heads[mem].prev;
      if pmem != mem && !heads[pmem].used {
        JoinLinked(g, pmem, size, hdr);
        LowestAt(h, old(lfree), pmem);
        if lfree == mem {
          lfree := pmem;
        }
        Absorb(pmem);
      }
      MergedTwice(h, g, heads, size, hdr);
    }

    /** mem_link_valid: the neighbours point back. */
    function LinkValid(p: nat): bool
      requires Linked(heads, size, hdr) && p in heads && p != size
      reads this
      ensures LinkValid(p)
    {
      LinkedHere(heads, p, size, hdr);
      var n, q := heads[p].next, heads[p].prev;
      !(n > size || q > size || (q != p && heads[q].next != p) || (n != size && heads[n].prev != p))
    }

    /** What callers hold passes the range checks; of the headers that pass
        them, those in use are the ones callers hold. */
    lemma OwnedReaches(p: nat, busy: set<nat>)
      requires Sound(busy)
      ensures p in owned ==> p in heads && Reaches(p + hdr) && heads[p].used
      ensures Reaches(p + hdr) && p in heads && p !in busy ==> p != size && (heads[p].used <==> p in owned)
    {
      hide Coalesced, Lowest, Linked;
      assert IsUsed(heads, p, size) <==> p in owned || p in busy;
      if p in heads && p != size {
        LinkedHere(heads, p, size, hdr);
        LinkedEnd(heads, size, hdr);
      }
    }

    /** Dropping `p` from both the used blocks and the owned ones. */
    lemma FreedHolding(h: Heads, g: Heads, f: Heads, o: map<nat, nat>, busy: set<nat>, p: nat)
      requires Holding(h, o, busy) && SameOthers(h, g, p, size) && IsFree(g, p) && p in o && p !in busy
      requires SameUsed(g, f, size)
      ensures Holding(f, o - {p}, busy) && SameOthers(h, f, p, size)
    {
      assert forall q: nat :: IsUsed(g, q, size) <==> IsUsed(f, q, size);
      assert forall q: nat :: q != p ==> (IsUsed(h, q, size) <==> IsUsed(g, q, size));
      assert !IsUsed(g, p, size);
      forall q | q in o - {p}
        ensures q + hdr + (o - {p})[q] <= f[q].next
      {
        assert IsUsed(h, q, size);
      }
    }

    /** A pointer that passes the range checks and so has its header read. */
    ghost predicate Reaches(x: int)
    {
      x % 4 == 0 && 0 <= x - hdr && x + MIN_SIZE <= size
    }

    /** Accepts exactly the blocks in use, and gives the block back. */
    method Free(rmem: Pointer, ghost busy: set<nat>)
      requires Sound(busy)
      requires rmem.At? && Reaches(rmem.offset) ==> rmem.offset - hdr in heads && rmem.offset - hdr !in busy
      modifies this
      ensures Sound(busy)
      ensures rmem.At? && rmem.offset - hdr in old(owned) ==>
        && owned == old(owned) - {rmem.offset - hdr} && illegal == old(illegal) && freeCount == 1
        && SameOthers(old(heads), heads, rmem.offset - hdr, size) && Roomier(old(heads), heads, hdr)
        && rmem.offset - hdr in old(heads)
        && usedStat == old(usedStat) - (old(heads)[rmem.offset - hdr].next - (rmem.offset - hdr))
      ensures !(rmem.At? && rmem.offset - hdr in old(owned)) ==>
        && heads == old(heads) && lfree == old(lfree) && owned == old(owned)
        && freeCount == old(freeCount) && illegal == old(illegal) + if rmem.At? then 1 else 0
    {
      hide Linked, Coalesced, CoalescedBut, SameUsed, FreeWithin, SameOthers, Roomier, Lowest, Holding;
      if rmem.Null? {
        return;
      }
      var x := rmem.offset;
      if x >= hdr {
        OwnedReaches(x - hdr, busy);
      }
      if x % 4 != 0 {
        illegal := illegal + 1;
        return;
      }
      if x - hdr < 0 || x + MIN_SIZE > size {
        illegal := illegal + 1;
        return;
      }
      var mem := x - hdr;
      if !heads[mem].used || !LinkValid(mem) {
        illegal := illegal + 1;
        return;
      }
      ghost var h := heads;
      MarkFree(h, mem, size, hdr);
      LowestMarked(h, lfree, mem);
      heads := heads[mem := heads[mem].(used := false)];
      if mem < lfree {
        lfree := mem;
      }
      usedStat := usedStat - (heads[mem].next - mem);
      ghost var g := heads;
      PlugHoles(mem);
      LowestMerged(g, heads, lfree, size, hdr);
      RoomierTwice(h, g, heads, size, hdr);
      FreedHolding(h, g, heads, owned, busy, mem);
      MergedSum(g, heads, size, hdr);
      owned := owned - {mem};
      freeCount := 1;
    }

    lemma HeldUsed(p: nat, busy: set<nat>)
      requires Sound(busy) && p in owned
      ensures IsUsed(heads, p, size) && LinkedAt(heads, p, size, hdr) && p < size
    {
      hide Linked, Coalesced, Lowest;
      assert IsUsed(heads, p, size);
      LinkedHere(heads, p, size, hdr);
    }

    /** Trimming leaves every caller with enough. */
    lemma TrimHolding(h: Heads, g: Heads, o: map<nat, nat>, busy: set<nat>, p: nat, n: nat)
      requires Holding(h, o, busy) && SameOthers(h, g, p, size) && IsUsed(g, p, size) && p in o
      requires p + hdr + n <= g[p].next
      ensures Holding(g, o[p := n], busy)
    {
      assert forall q: nat :: q != p ==> (IsUsed(h, q, size) <==> IsUsed(g, q, size));
      assert IsUsed(g, p, size);
      forall q | q in o[p := n]
        ensures q !in busy && q + hdr + o[p := n][q] <= g[q].next
      {
        assert IsUsed(h, q, size);
      }
    }

    /** Where the block at `p` ends once trimmed to `need` bytes. */
    ghost function TrimmedEnd(h: Heads, p: nat, need: nat): nat
      requires p in h && h[p].next in h
    {
      var e := h[p].next;
      if !h[e].used || p + hdr + need + hdr + MIN_SIZE <= e then p + hdr + need else e
    }

    /** The assertions of mem_trim: it only shrinks, and the last block is not split. */
    predicate TrimAsserts(p: nat, n: nat)
      requires p in heads
      reads this
    {
      && (Need(n) <= size ==> p + hdr + Need(n) <= heads[p].next)
      && (heads[p].next == size ==> size < p + hdr + Need(n) + hdr + MIN_SIZE)
    }

    /** Creates a header at `n` inside the block at `p`, for a free upper part. */
    method SplitOff(p: nat, n: nat)
      requires Linked(heads, size, hdr) && p in heads && p != size && p < n < heads[p].next
      modifies this`heads
      ensures heads == Cut(old(heads), p, n, size) && n in heads && old(heads).Keys <= heads.Keys
    {
      hide Linked, Cut;
      CutCode(heads, p, n, size, hdr);
      var e := heads[p].next;
      heads := heads[n := Header(e, p, false)];
      heads := heads[p := heads[p].(next := n)];
      if e != size {
        heads := heads[e := heads[e].(prev := n)];
      }
    }

    /** Moves the free block behind the used block at `p` down to `n`. */
    method MoveNext(p: nat, n: nat)
      requires Linked(heads, size, hdr) && Coalesced(heads) && IsUsed(heads, p, size) && Lowest(heads, lfree)
      requires n % 4 == 0 && p + hdr + MIN_SIZE <= n < heads[p].next && IsFree(heads, heads[p].next)
      modifies this`heads, this`lfree
      ensures old(heads[p].next) in old(heads) && heads == Moved(old(heads), p, n, size)
      ensures Lowest(heads, lfree) && lfree == if old(lfree) == old(heads[p].next) then n else old(lfree)
    {
      hide Linked, Coalesced, SameOthers, Roomier, Lowest, Moved;
      ghost var h := heads;
      LinkedEnd(h, size, hdr);
      LinkedHere(h, p, size, hdr);
      MoveFree(h, p, n, size, hdr);
      MoveCode(h, p, n, size, hdr);
      var mem2 := heads[p].next;
      var next := heads[mem2].next;
      if lfree == mem2 {
        lfree := n;
      }
      heads := heads - {mem2};
      heads := heads[n := Header(next, p, false)];
      heads := heads[p := heads[p].(next := n)];
      if next != size {
        heads := heads[next := heads[next].(prev := n)];
      }
      LowestMoved(h, heads, old(lfree), mem2, n);
    }

    /** Shrinks a block that a caller holds. */
    method Trim(p: nat, n: nat, ghost busy: set<nat>) returns (r: Pointer)
      requires Sound(busy) && n < range && p in owned && p in heads && TrimAsserts(p, n)
      modifies this
      ensures Sound(busy) && illegal == old(illegal)
      ensures Need(n) > size ==> r == Null && owned == old(owned) && heads == old(heads)
      ensures Need(n) <= size ==> r == At(p + hdr) && owned == old(owned)[p := n]
      ensures p in heads && old(heads)[p].next in old(heads)
      ensures Need(n) <= size ==> heads[p].next == TrimmedEnd(old(heads), p, Need(n))
      ensures Need(n) <= size ==>
        var e, m := old(heads)[p].next, p + hdr + Need(n);
        heads[p].next == if !old(heads)[e].used || m + hdr + 12 <= e then m else e
      ensures usedStat == old(usedStat) - (old(heads)[p].next - heads[p].next)
      ensures SameOthers(old(heads), heads, p, size) && Roomier(old(heads), heads, hdr)
      ensures freeCount == 1 || (freeCount == old(freeCount) && heads == old(heads) && lfree == old(lfree))
    {
      hide Linked, Coalesced, SameOthers, Roomier, Lowest, Holding, Join, Cut;
      SameHeads(heads, p, size, hdr);
      HeldUsed(p, busy);
      var newsize := Padded(n);
      if newsize > size || newsize < n {
        return Null;
      }
      var room := heads[p].next - p - hdr;
      r := At(p + hdr);
      if newsize == room {
        TrimHolding(heads, heads, owned, busy, p, n);
        owned := owned[p := n];
        return;
      }
      ghost var h := heads;
      var mem2 := heads[p].next;
      var ptr2 := p + hdr + newsize;
      if !heads[mem2].used {
        MoveFree(h, p, ptr2, size, hdr);
        MoveNext(p, ptr2);
        usedStat := usedStat - (room - newsize);
      } else if newsize + hdr + MIN_SIZE <= room {
        CutUsed(h, p, ptr2, size, hdr);
        if ptr2 < lfree {
          lfree := ptr2;
        }
        SplitOff(p, ptr2);
        LowestCut(h, heads, old(lfree), ptr2);
        usedStat := usedStat - (room - newsize);
      }
      TrimHolding(h, heads, owned, busy, p, n);
      owned := owned[p := n];
      freeCount := 1;
    }

    /** The rest state but for what callers hold, which follows `owned`. */
    twostate predicate Untouched()
      reads this
    {
      heads == old(heads) && lfree == old(lfree) && owned == old(owned) && usedStat == old(usedStat)
    }

    lemma SoundParts(busy: set<nat>)
      requires Sound(busy)
      ensures Config() && Linked(heads, size, hdr) && Coalesced(heads) && Lowest(heads, lfree)
      ensures Holding(heads, owned, busy)
      ensures size in heads && heads[size] == Header(size, size, true)
    {
    }

    lemma NothingYet(busy: set<nat>, script: seq<Action>)
      requires Sound(busy)
      ensures Yielded(heads, owned, heads, owned, busy, script) && Roomier(heads, heads, hdr)
    {
      hide Linked, Coalesced, Lowest;
      forall q | q in owned
        ensures q in heads
      {
        assert IsUsed(heads, q, size);
      }
    }

    /** A change to one block not in `busy` is something another context may do. */
    lemma YieldedOthers(h: Heads, o: map<nat, nat>, g: Heads, o2: map<nat, nat>, busy: set<nat>, script: seq<Action>,
                        p: nat)
      requires Holding(h, o, busy) && SameOthers(h, g, p, size) && p !in busy && Kept(o, o2, script)
      requires p in o2 ==> p in h && p in g && g[p].next <= h[p].next && (g[p].next == h[p].next || Shrunk(p, script))
      ensures Yielded(h, o, g, o2, busy, script)
    {
      forall q: nat | q in o || q in busy
        ensures IsUsed(h, q, size) && (q != p ==> IsUsed(g, q, size) && g[q].next == h[q].next)
      {
        assert IsUsed(h, q, size);
      }
    }

    /** Other contexts run: some of the `quota` actions of the script that are left. */
    method Interrupt(busy: set<nat>, script: seq<Action>, quota: nat) returns (left: nat)
      requires Sound(busy) && quota <= |script|
      modifies this
      ensures Sound(busy) && left <= quota && illegal == old(illegal)
      ensures Yielded(old(heads), old(owned), heads, owned, busy, script) && Roomier(old(heads), heads, hdr)
      ensures freeCount == 0 ==> heads == old(heads) && lfree == old(lfree)
      ensures left == quota ==> Untouched() && freeCount == old(freeCount)
      ensures forall j :: |script| - quota <= j < |script| - left && script[j].Release? ==> script[j].at !in owned
    {
      hide Linked, Coalesced, Lowest, Sound, Yielded, Roomier, SameOthers, TrimmedEnd;
      left := quota;
      NothingYet(busy, script);
      while left > 0
        invariant Sound(busy) && left <= quota && illegal == old(illegal)
        invariant Yielded(old(heads), old(owned), heads, owned, busy, script) && Roomier(old(heads), heads, hdr)
        invariant freeCount == 0 ==> heads == old(heads) && lfree == old(lfree)
        invariant left == quota ==> Untouched() && freeCount == old(freeCount)
        invariant forall j :: |script| - quota <= j < |script| - left && script[j].Release? ==> script[j].at !in owned
      {
        if * {
          break;
        }
        ghost var h, o := heads, owned;
        InterruptOnce(busy, script, script[|script| - left]);
        left := left - 1;
        YieldedTwice(old(heads), old(owned), h, o, heads, owned, busy, script, hdr);
      }
    }

    /** One action of another context, if it holds the block. */
    method InterruptOnce(busy: set<nat>, ghost script: seq<Action>, a: Action)
      requires Sound(busy) && a in script
      modifies this
      ensures Sound(busy) && illegal == old(illegal)
      ensures Yielded(old(heads), old(owned), heads, owned, busy, script) && Roomier(old(heads), heads, hdr)
      ensures freeCount == 1 || (freeCount == old(freeCount) && heads == old(heads) && lfree == old(lfree))
      ensures owned.Keys <= old(owned).Keys && (a.Release? ==> a.at !in owned)
    {
      hide Linked, Coalesced, Lowest, Sound, Yielded, Roomier, SameOthers;
      HeldHere(a.at, busy);
      ghost var h, o := heads, owned;
      NothingYet(busy, script);
      SoundParts(busy);
      var p := a.at;
      if p in heads && p != size && heads[p].used && p !in busy {
        HeldUsed(p, busy);
        match a
        case Release(_) =>
          Free(At(p + hdr), busy);
          YieldedOthers(h, o, heads, owned, busy, script, p);
        case Shrink(_, n) =>
          if n < range && TrimAsserts(p, n) {
            var _ := Trim(p, n, busy);
            YieldedOthers(h, o, heads, owned, busy, script, p);
          }
      }
    }

    lemma HeldHere(p: nat, busy: set<nat>)
      requires Sound(busy)
      ensures p in owned ==> p in heads && p != size && heads[p].used && p !in busy
    {
      hide Linked, Coalesced, Lowest;
      if p in owned {
        assert IsUsed(heads, p, size);
      }
    }

    /** Takes the free block at `ptr`, split if the rest can be a block. */
    method Carve(ptr: nat, need: nat)
      requires Linked(heads, size, hdr) && Coalesced(heads) && Fits(heads, ptr, need, hdr)
      requires need % 4 == 0 && MIN_SIZE <= need && hdr % 4 == 0 && ptr != size
      modifies this`heads, this`usedStat
      ensures heads == Carved(old(heads), ptr, need, size, hdr)
      ensures usedStat == old(usedStat) + heads[ptr].next - ptr
    {
      hide Linked, Coalesced;
      ghost var h := heads;
      MarkUsed(h, ptr, size, hdr);
      LinkedHere(h, ptr, size, hdr);
      if heads[ptr].next - (ptr + hdr) >= need + hdr + MIN_SIZE {
        var ptr2 := ptr + hdr + need;
        heads := heads[ptr := heads[ptr].(used := true)];
        SplitOff(ptr, ptr2);
        CutLinked(Mark(h, ptr, true), ptr, ptr2, size, hdr);
        usedStat := usedStat + (need + hdr);
      } else {
        heads := heads[ptr := heads[ptr].(used := true)];
        usedStat := usedStat + (heads[ptr].next - ptr);
      }
    }

    /** The block at `p` is out of the free ones but not yet a caller's. */
    lemma CarvedSound(h: Heads, p: nat, need: nat, script: seq<Action>)
      requires Sound({}) && h == heads && Fits(h, p, need, hdr) && p != size && need % 4 == 0 && MIN_SIZE <= need
      ensures var g := Carved(h, p, need, size, hdr);
        && Linked(g, size, hdr) && Coalesced(g) && Holding(g, owned, {p}) && Lowest(g, lfree)
        && (lfree == size || IsFree(g, lfree) || lfree == p)
        && UsedBelow(g, size) == UsedBelow(h, size) + g[p].next - p
        && Yielded(h, owned, g, owned, {}, script) && p !in owned
    {
      hide Linked, Coalesced, Sound, Holding, SameOthers, Yielded, Lowest, Roomier;
      SoundParts({});
      CarvedBlocks(h, p, need, size, hdr);
      var g := Carved(h, p, need, size, hdr);
      LowestCarved(h, g, lfree, p);
      CarvedHolding(h, g, p);
      YieldedOthers(h, owned, g, owned, {}, script, p);
      assert lfree == size || IsFree(h, lfree) by { CursorFree(); }
    }

    lemma CursorFree()
      requires Sound({})
      ensures lfree == size || IsFree(heads, lfree)
    {
      hide Linked, Coalesced, Lowest, Holding;
    }

    lemma CarvedHolding(h: Heads, g: Heads, p: nat)
      requires Holding(h, owned, {}) && SameOthers(h, g, p, size) && IsUsed(g, p, size) && IsFree(h, p)
      ensures Holding(g, owned, {p}) && p !in owned
    {
      assert !IsUsed(h, p, size);
      forall q | q in owned
        ensures q != p && q + hdr + owned[q] <= g[q].next
      {
        assert IsUsed(h, q, size);
      }
      assert forall q: nat :: q != p ==> (IsUsed(h, q, size) <==> IsUsed(g, q, size));
    }

    /** Walks from the block just taken to the next free one, or stops because
        other contexts changed the heap. */
    method NextFree(mem: nat, script: seq<Action>, quota: nat) returns (cur: nat, restart: bool, left: nat)
      requires Sound({mem}) && lfree == mem && quota <= |script|
      modifies this
      ensures Sound({mem}) && left <= quota && illegal == old(illegal) && (restart ==> left < quota)
      ensures !restart ==> Lowest(heads, cur) && (cur == size || IsFree(heads, cur))
      ensures Yielded(old(heads), old(owned), heads, owned, {mem}, script) && Roomier(old(heads), heads, hdr)
      ensures left == quota ==> Untouched()
    {
      hide Linked, Coalesced, Lowest, Yielded, Roomier, Holding;
      cur, restart, left := lfree, false, quota;
      SoundParts({mem});
      NothingYet({mem}, script);
      LowestIn(heads, cur);
      while heads[cur].used && cur != size
        invariant Sound({mem}) && left <= quota && illegal == old(illegal) && cur in heads && Lowest(heads, cur)
        invariant Yielded(old(heads), old(owned), heads, owned, {mem}, script) && Roomier(old(heads), heads, hdr)
        invariant left == quota ==> Untouched()
        decreases size - cur
      {
        freeCount := 0;
        ghost var h, o := heads, owned;
        left := Interrupt({mem}, script, left);
        YieldedTwice(old(heads), old(owned), h, o, heads, owned, {mem}, script, hdr);
        if freeCount != 0 {
          restart := true;
          return;
        }
        LinkedHere(heads, cur, size, hdr);
        LowestNext(heads, cur, size, hdr);
        cur := heads[cur].next;
      }
    }

    /** Moves the cursor on from the block just taken, if it stands there. */
    method AdjustLfree(mem: nat, script: seq<Action>, quota: nat) returns (left: nat)
      requires Sound({mem}) && quota <= |script|
      modifies this
      ensures Sound({mem}) && left <= quota && illegal == old(illegal)
      ensures lfree == size || IsFree(heads, lfree)
      ensures Yielded(old(heads), old(owned), heads, owned, {mem}, script) && Roomier(old(heads), heads, hdr)
      ensures left == quota ==> heads == old(heads) && owned == old(owned) && usedStat == old(usedStat)
    {
      hide Linked, Coalesced, Lowest, Yielded, Roomier, Holding;
      left := quota;
      NothingYet({mem}, script);
      var again := true;
      while again
        invariant Sound({mem}) && left <= quota && illegal == old(illegal)
        invariant Yielded(old(heads), old(owned), heads, owned, {mem}, script) && Roomier(old(heads), heads, hdr)
        invariant left == quota ==> heads == old(heads) && owned == old(owned) && usedStat == old(usedStat)
        invariant !again ==> lfree == size || IsFree(heads, lfree)
        decreases left, again
      {
        again := false;
        if mem == lfree {
          ghost var h, o := heads, owned;
          var cur;
          cur, again, left := NextFree(mem, script, left);
          YieldedTwice(old(heads), old(owned), h, o, heads, owned, {mem}, script, hdr);
          if !again {
            lfree := cur;
          }
        }
      }
    }

    /** One pass over the block list from the cursor. */
    method Scan(need: nat, script: seq<Action>, quota: nat) returns (found: Pointer, disturbed: bool, left: nat)
      requires Valid() && need <= size && quota <= |script|
      modifies this
      ensures Valid() && left <= quota && illegal == old(illegal) && (disturbed ==> left < quota)
      ensures found.At? ==> found.offset >= 0 && found.offset != size && FirstFit(heads, found.offset, need, hdr)
      ensures found.Null? && !disturbed ==> !HasRoom(heads, need, hdr)
      ensures Yielded(old(heads), old(owned), heads, owned, {}, script) && Roomier(old(heads), heads, hdr)
      ensures left == quota ==> Untouched()
    {
      hide Linked, Coalesced, Lowest, Yielded, Roomier, Holding, HasRoom, Fits;
      found, disturbed, left := Null, false, quota;
      SoundParts({});
      NothingYet({}, script);
      var ptr := lfree;
      NoFitBelow(heads, ptr, need, hdr);
      while ptr < size - need
        invariant Valid() && left <= quota && illegal == old(illegal) && ptr in heads
        invariant forall q: nat :: q < ptr ==> !Fits(heads, q, need, hdr)
        invariant Yielded(old(heads), old(owned), heads, owned, {}, script) && Roomier(old(heads), heads, hdr)
        invariant left == quota ==> Untouched()
        decreases size - ptr
      {
        freeCount := 0;
        ghost var h, o := heads, owned;
        left := Interrupt({}, script, left);
        YieldedTwice(old(heads), old(owned), h, o, heads, owned, {}, script, hdr);
        if freeCount != 0 {
          disturbed := true;
          return;
        }
        LinkedHere(heads, ptr, size, hdr);
        FitsHere(heads, ptr, need, hdr);
        if !heads[ptr].used && heads[ptr].next - (ptr + hdr) >= need {
          return At(ptr), false, left;
        }
        NoFitNext(heads, ptr, need, size, hdr);
        ptr := heads[ptr].next;
      }
      NoFitAbove(heads, ptr, need, size, hdr);
    }

    /** The block at `p` is the caller's: it was free and the first that fits
        when it was chosen, and it still ends where it was cut. */
    ghost predicate HandedOut(seen: Heads, p: int, n: nat)
      reads this
    {
      && p >= 0 && p in owned && owned[p] == n && FirstFit(seen, p, Need(n), hdr)
      && p in heads && p in seen
      && heads[p].next == (if seen[p].next >= p + hdr + Need(n) + hdr + 12 then p + hdr + Need(n) else seen[p].next)
      && p + hdr + Need(n) <= heads[p].next && (p + hdr) % 4 == 0
      && !seen[p].used && seen[p].next >= p + hdr + Need(n)
      && forall q :: q in seen && q < p && !seen[q].used ==> seen[q].next < q + hdr + Need(n)
    }

    /** What the block at `p` does not need of the free one it was, if a block fits there, is
        free; the rest counts as used. */
    ghost predicate RestFree(seen: Heads, p: int, n: nat, stat: int)
      reads this
    {
      && p in seen && p in heads && usedStat == stat + heads[p].next - p
      && var e, m := seen[p].next, p + hdr + Need(n);
      e >= m + hdr + 12 ==> m in heads && heads[m] == Header(e, p, false)
    }

    /** The block list is `seen` with the block at `p` cut to size. */
    ghost predicate CutFrom(seen: Heads, p: int, n: nat)
      reads this
    {
      p in seen && heads == Carved(seen, p, Need(n), size, hdr)
    }

    /** Takes the block at `p`, moves the cursor on and hands the block out. */
    method Take(n: nat, p: nat, script: seq<Action>, quota: nat) returns (r: Pointer)
      requires Valid() && n > 0 && FirstFit(heads, p, Need(n), hdr) && p != size && quota <= |script|
      modifies this
      ensures Valid() && illegal == old(illegal) && p !in old(owned)
      ensures r == At(p + hdr) && HandedOut(old(heads), p, n)
      ensures Yielded(old(heads), old(owned), heads, owned - {p}, {}, script)
      ensures quota == 0 ==> owned == old(owned)[p := n] && CutFrom(old(heads), p, n)
      ensures quota == 0 ==> RestFree(old(heads), p, n, old(usedStat))
    {
      hide Linked, Coalesced, Lowest, Yielded, Roomier, Holding, FirstFit, Fits, Carved, HandedOut, RestFree;
      ghost var h, o := heads, owned;
      SoundParts({});
      FirstFits(h, p, Need(n), hdr);
      CarvedSound(h, p, Need(n), script);
      Carve(p, Need(n));
      ghost var g := heads;
      CarvedBlocks(h, p, Need(n), size, hdr);
      CarvedEnds(h, p, Need(n), size, hdr);
      var _ := AdjustLfree(p, script, quota);
      SoundParts({p});
      YieldedRest(h, o, g, heads, owned, script, p);
      HoldingGiven(heads, owned, p, n);
      assert owned == owned[p := n] - {p};
      owned := owned[p := n];
      r := At(p + hdr);
      Handed(h, p, n);
      if quota == 0 {
        RestIs(h, p, n, old(usedStat));
      }
    }

    lemma Handed(h: Heads, p: nat, n: nat)
      requires Valid() && FirstFit(h, p, Need(n), hdr) && p in owned && owned[p] == n
      requires p in heads && p != size && p in h
      requires h[p].next >= p + hdr + Need(n) + hdr + 12 ==> heads[p].next == p + hdr + Need(n)
      requires h[p].next < p + hdr + Need(n) + hdr + 12 ==> heads[p].next == h[p].next
      requires p + hdr + Need(n) <= heads[p].next
      ensures HandedOut(h, p, n)
    {
      hide Sound, Need, Fits, FirstFit, Carved;
      FirstFits(h, p, Need(n), hdr);
      FirstTells(h, p, Need(n), hdr);
      DataAligned(p);
    }

    lemma RestIs(h: Heads, p: nat, n: nat, stat: int)
      requires Linked(h, size, hdr) && Fits(h, p, Need(n), hdr) && p != size
      requires p in h && heads == Carved(h, p, Need(n), size, hdr) && p in heads
      requires usedStat == stat + heads[p].next - p
      ensures RestFree(h, p, n, stat)
    {
      hide Linked, Fits, Carved;
      CarvedEnds(h, p, Need(n), size, hdr);
    }

    lemma DataAligned(p: nat)
      requires Valid() && p in heads && p != size
      ensures (p + hdr) % 4 == 0
    {
      hide Linked, Coalesced, Lowest, Holding, UsedBelow;
      LinkedHere(heads, p, size, hdr);
    }

    /** Handing out the block in `busy`. */
    lemma HoldingGiven(h: Heads, o: map<nat, nat>, p: nat, n: nat)
      requires Holding(h, o, {p}) && p in h && p + hdr + n <= h[p].next
      ensures Holding(h, o[p := n], {}) && p !in o
    {
      assert IsUsed(h, p, size);
    }

    /** mem_malloc: the lowest free block that is large enough, or null if none is. Whenever
        it drops its protection other contexts may go on in the script. `seen` and `seenOwned`
        are the heap at the moment of the choice, which came of the heap at the call by
        releases and shrinkings of the script; of it, nobody held the block. */
    method Malloc(n: nat, script: seq<Action>) returns (r: Pointer, ghost seen: Heads, ghost seenOwned: map<nat, nat>)
      requires Valid() && n < range
      modifies this
      ensures Valid() && illegal == old(illegal)
      ensures n == 0 ==> r == Null
      ensures n > 0 && r == Null ==> !HasRoom(heads, Need(n), hdr)
      ensures n > 0 && HasRoom(old(heads), Need(n), hdr) ==> r.At?
      ensures r == Null ==> Yielded(old(heads), old(owned), heads, owned, {}, script)
      ensures Linked(seen, size, hdr) && Coalesced(seen) && Holding(seen, seenOwned, {})
      ensures Yielded(old(heads), old(owned), seen, seenOwned, {}, script)
      ensures r.At? ==> HandedOut(seen, r.offset - hdr, n) && r.offset - hdr !in seenOwned
      ensures r.At? ==> Yielded(seen, seenOwned, heads, owned - {r.offset - hdr}, {}, script)
      ensures r.At? && script == [] ==> seen == old(heads) && owned == old(owned)[r.offset - hdr := n]
      ensures r.At? && script == [] ==> CutFrom(seen, r.offset - hdr, n)
      ensures r.At? && script == [] ==> RestFree(seen, r.offset - hdr, n, old(usedStat))
      ensures n > 0 && r == Null ==> forall q :: q in heads && !heads[q].used ==> heads[q].next < q + hdr + Need(n)
      ensures forall q :: n > 0 && q in old(heads) && !old(heads)[q].used && old(heads)[q].next >= q + hdr + Need(n) ==>
        r.At?
      ensures r == Null && script == [] ==> Untouched()
      ensures forall q :: q in old(owned) && Release(q) !in script ==> q in owned && r != At(q + hdr)
    {
      hide Linked, Coalesced, Lowest, Yielded, Roomier, Holding, HasRoom, Fits, Carved, HandedOut, RestFree, CutFrom;
      seen, seenOwned := heads, owned;
      NothingYet({}, script);
      SoundParts({});
      StillHeld(heads, owned, heads, owned, script);
      if n == 0 {
        return Null, seen, seenOwned;
      }
      var need := Padded(n);
      if need > size || need < n {
        NoFitAbove(heads, 0, Need(n), size, hdr);
        RoomTells(heads, Need(n), hdr);
        return Null, seen, seenOwned;
      }
      var left: nat := |script|;
      var disturbed := true;
      while disturbed
        invariant Valid() && left <= |script| && illegal == old(illegal)
        invariant Yielded(old(heads), old(owned), heads, owned, {}, script) && Roomier(old(heads), heads, hdr)
        invariant script == [] ==> Untouched()
        invariant !disturbed ==> !HasRoom(heads, Need(n), hdr)
        decreases left, disturbed
      {
        var found;
        ghost var h, o := heads, owned;
        found, disturbed, left := Scan(need, script, left);
        YieldedTwice(old(heads), old(owned), h, o, heads, owned, {}, script, hdr);
        if found.At? {
          seen, seenOwned := heads, owned;
          SoundParts({});
          r := Take(n, found.offset, script, left);
          YieldedOn(old(heads), old(owned), seen, seenOwned, heads, owned - {found.offset}, {}, script);
          StillHeld(old(heads), old(owned), seen, seenOwned, script);
          StillHeld(old(heads), old(owned), heads, owned - {found.offset}, script);
          return;
        }
      }
      RoomierAt(old(heads), heads, need, hdr);
      RoomTells(old(heads), Need(n), hdr);
      RoomTells(heads, Need(n), hdr);
      StillHeld(old(heads), old(owned), heads, owned, script);
      return Null, seen, seenOwned;
    }

    /** After an allocation from a heap with a block for two, some block has room for the other. */
    lemma RoomLeft(seen: Heads, p: int, a: nat, b: nat, q: nat) returns (m: nat)
      requires Linked(seen, size, hdr) && HandedOut(seen, p, a) && CutFrom(seen, p, a)
      requires exists stat: int :: RestFree(seen, p, a, stat)
      requires q in seen && !seen[q].used && seen[q].next >= q + hdr + Need(a) + hdr + Need(b)
      ensures m in heads && !heads[m].used && heads[m].next >= m + hdr + Need(b)
    {
      hide Linked, Carved, FirstFit;
      LinkedEnd(seen, size, hdr);
      m := q;
      if p == q {
        m := p + hdr + Need(a);
      } else {
        FirstFits(seen, p, Need(a), hdr);
        CarvedKeeps(seen, p, Need(a), size, hdr, q);
      }
    }

    lemma UsedOwned(p: nat)
      requires Valid() && IsUsed(heads, p, size)
      ensures p in owned
    {
      hide Linked, Coalesced, Lowest;
    }

    /** Live allocations lie inside the heap and do not overlap. */
    lemma OwnedApart(p: nat, q: nat)
      requires Valid() && p in owned
      ensures p + hdr + owned[p] <= size
      ensures q in owned && q != p ==> p + hdr + owned[p] <= q || q + hdr + owned[q] <= p
    {
      hide Linked, Coalesced, Lowest;
      HeldUsed(p, {});
      if q in owned && q != p {
        HeldUsed(q, {});
        Apart(heads, p, q, size, hdr);
      }
    }

    /** Once everything is given back, the heap is as mem_init left it. */
    lemma AllFreed()
      requires Valid() && owned == map[]
      ensures heads == map[0 := Header(size, 0, false), size := Header(size, size, true)]
      ensures usedStat == 0 && lfree == 0
    {
      hide Linked, Coalesced, Lowest;
      LinkedEnd(heads, size, hdr);
      LinkedHere(heads, 0, size, hdr);
      NothingUsed(heads, size, size);
      NoneUsed(heads, size, hdr);
      LowestFree(heads, lfree, 0);
    }
  }

  /** A free block large enough for two requests serves both of them. */
  method ServesBoth(heap: Heap, a: nat, b: nat, ghost q: nat) returns (x: Pointer, y: Pointer)
    requires heap.Valid() && 0 < a < heap.range && 0 < b < heap.range
    requires q in heap.heads && !heap.heads[q].used
    requires heap.heads[q].next >= q + heap.hdr + heap.Need(a) + heap.hdr + heap.Need(b)
    modifies heap
    ensures heap.Valid() && x.At? && y.At? && x != y
    ensures x.offset - heap.hdr in heap.owned && y.offset - heap.hdr in heap.owned
  {
    hide Linked, Coalesced, Lowest, Yielded, Roomier, HasRoom, Fits, Carved, FirstFit, Heap.CutFrom,
      Heap.RestFree, Heap.HandedOut, UsedBelow;
    ghost var seen, held;
    heap.SoundParts({});
    x, seen, held := heap.Malloc(a, []);
    ghost var p := x.offset - heap.hdr;
    assert p in heap.owned && p >= 0;
    ghost var m := heap.RoomLeft(seen, p, a, b, q);
    y, seen, held := heap.Malloc(b, []);
    assert Release(p) !in [];
  }

  /** A request: an allocation and what other contexts do meanwhile, or an action. */
  datatype Request = Alloc(bytes: nat, script: seq<Action>) | Act(action: Action)

  /** Any run of requests on blocks in use keeps the heap valid and has none rejected. */
  method Run(heap: Heap, requests: seq<Request>)
    requires heap.Valid()
    modifies heap
    ensures heap.Valid() && heap.illegal == old(heap.illegal)
    ensures var n := |requests| - 1;
      n >= 0 && requests[n].Act? && requests[n].action.Release? ==> requests[n].action.at !in heap.owned
  {
    hide Linked, Coalesced, Lowest, Yielded, Roomier, SameOthers, HasRoom;
    for i := 0 to |requests|
      invariant heap.Valid() && heap.illegal == old(heap.illegal)
      invariant i > 0 && requests[i - 1].Act? && requests[i - 1].action.Release? ==>
        requests[i - 1].action.at !in heap.owned
    {
      if requests[i].Act? {
        heap.HeldHere(requests[i].action.at, {});
      }
      match requests[i]
      case Alloc(n, script) =>
        if n < heap.range {
          var _, _, _ := heap.Malloc(n, script);
        }
      case Act(Release(p)) =>
        if p in heap.heads && p != heap.size && heap.heads[p].used {
          heap.UsedOwned(p);
          heap.Free(At(p + heap.hdr), {});
        }
      case Act(Shrink(p, n)) =>
        if p in heap.heads && p != heap.size && heap.heads[p].used && n < heap.range && heap.TrimAsserts(p, n) {
          heap.UsedOwned(p);
          var _ := heap.Trim(p, n, {});
        }
    }
  }

  /** Some action of the script shrinks the block. */
  ghost predicate Shrunk(q: nat, script: seq<Action>) {
    exists b: nat :: Shrink(q, b) in script
  }

  /** What the actions of a script may leave of what callers hold: a block that is not
      released stays, and stays the same if it is not shrunk. */
  ghost predicate Kept(o: map<nat, nat>, o2: map<nat, nat>, script: seq<Action>)
  {
    && (forall q :: q in o2 ==> q in o && (o2[q] == o[q] || Shrink(q, o2[q]) in script))
    && (forall q :: q in o && Release(q) !in script ==> q in o2)
  }

  /** What other contexts may have done between two moments by actions of the script: given
      blocks back and shrunk others, but nothing to the blocks in `busy`. A block that is
      not shrunk ends where it did. */
  ghost predicate Yielded(h: Heads, o: map<nat, nat>, g: Heads, o2: map<nat, nat>, busy: set<nat>, script: seq<Action>)
  {
    && Kept(o, o2, script)
    && (forall q :: q in o2 ==> q in g && q in h && g[q].next <= h[q].next)
    && (forall q :: q in o2 && !Shrunk(q, script) ==> g[q].next == h[q].next)
    && (forall q :: q in busy && q in h ==> q in g && g[q].next == h[q].next && g[q].used == h[q].used)
  }

  lemma StillHeld(h: Heads, o: map<nat, nat>, g: Heads, o2: map<nat, nat>, script: seq<Action>)
    requires Yielded(h, o, g, o2, {}, script)
    ensures forall q :: q in o && Release(q) !in script ==> q in o2
  {
  }

  /** The block at `p` taken for `need` bytes. */
  ghost function Carved(h: Heads, p: nat, need: nat, size: nat, hdr: nat): Heads
    requires p in h
  {
    var g := Mark(h, p, true);
    if h[p].next >= p + hdr + need + hdr + MIN_SIZE then Cut(g, p, p + hdr + need, size) else g
  }

  lemma CarvedBlocks(h: Heads, p: nat, need: nat, size: nat, hdr: nat)
    requires Linked(h, size, hdr) && Coalesced(h) && Fits(h, p, need, hdr) && p != size
    requires need % 4 == 0 && MIN_SIZE <= need && hdr % 4 == 0
    ensures var g := Carved(h, p, need, size, hdr);
      && Linked(g, size, hdr) && Coalesced(g) && SameOthers(h, g, p, size) && IsUsed(g, p, size)
      && p + hdr + need <= g[p].next <= h[p].next && h.Keys <= g.Keys
      && UsedBelow(g, size) == UsedBelow(h, size) + g[p].next - p
      && (forall q: nat :: IsFree(g, q) ==> IsFree(h, q) || p < q)
      && (forall q: nat :: IsFree(h, q) && q != p ==> IsFree(g, q))
  {
    hide Linked, Coalesced, Cut;
    MarkUsed(h, p, size, hdr);
    LinkedHere(h, p, size, hdr);
    var m := Mark(h, p, true);
    if h[p].next >= p + hdr + need + hdr + MIN_SIZE {
      CutUsed(m, p, p + hdr + need, size, hdr);
      CutLinked(m, p, p + hdr + need, size, hdr);
    }
  }

  /** Where the block taken ends, and what is left behind it. */
  lemma CarvedEnds(h: Heads, p: nat, need: nat, size: nat, hdr: nat)
    requires Linked(h, size, hdr) && Fits(h, p, need, hdr) && p != size && 0 < need
    ensures p in h && p in Carved(h, p, need, size, hdr)
    ensures var g, e, m := Carved(h, p, need, size, hdr), h[p].next, p + hdr + need;
      && g[p].next == (if e >= m + hdr + 12 then m else e)
      && (e >= m + hdr + 12 ==> m in g && g[m] == Header(e, p, false))
  {
    hide Linked;
    LinkedHere(h, p, size, hdr);
  }

  /** Other blocks are where they were. */
  lemma CarvedKeeps(h: Heads, p: nat, need: nat, size: nat, hdr: nat, q: nat)
    requires Linked(h, size, hdr) && Fits(h, p, need, hdr) && p != size && 0 < need && q in h && q != p
    ensures var g := Carved(h, p, need, size, hdr); q in g && g[q].next == h[q].next && g[q].used == h[q].used
  {
    hide Linked;
    LinkedHere(h, p, size, hdr);
    assert LinkedAt(h, p, size, hdr);
  }

  /** What it means that some block has room, or none. */
  lemma RoomTells(h: Heads, n: nat, hdr: nat)
    ensures HasRoom(h, n, hdr) <==> exists q :: q in h && !h[q].used && h[q].next >= q + hdr + n
  {
    if q :| q in h && !h[q].used && h[q].next >= q + hdr + n {
      assert Fits(h, q, n, hdr);
    }
  }

  lemma FirstTells(h: Heads, p: nat, n: nat, hdr: nat)
    requires FirstFit(h, p, n, hdr)
    ensures p in h && !h[p].used && h[p].next >= p + hdr + n
    ensures forall q :: q in h && q < p && !h[q].used ==> h[q].next < q + hdr + n
  {
    forall q | q in h && q < p && !h[q].used
      ensures h[q].next < q + hdr + n
    {
      assert !Fits(h, q, n, hdr);
    }
  }

  lemma LowestCarved(h: Heads, g: Heads, l: nat, p: nat)
    requires Lowest(h, l) && h.Keys <= g.Keys && IsFree(h, p)
    requires forall q: nat :: IsFree(g, q) ==> IsFree(h, q) || p < q
    ensures Lowest(g, l)
  {
    assert l <= p;
  }

  lemma YieldedOn(h: Heads, o: map<nat, nat>, g: Heads, o2: map<nat, nat>, f: Heads, o3: map<nat, nat>, busy: set<nat>,
                  script: seq<Action>)
    requires Yielded(h, o, g, o2, busy, script) && Yielded(g, o2, f, o3, busy, script)
    ensures Yielded(h, o, f, o3, busy, script)
  {
  }

  /** What happened to the heap after `p` was cut, seen from before. */
  lemma YieldedRest(h: Heads, o: map<nat, nat>, g: Heads, f: Heads, o2: map<nat, nat>, script: seq<Action>, p: nat)
    requires Yielded(h, o, g, o, {}, script) && Yielded(g, o, f, o2, {p}, script) && p in g
    ensures Yielded(h, o, f, o2, {}, script) && p in f && f[p].next == g[p].next
  {
  }

  lemma LowestIn(h: Heads, l: nat)
    requires Lowest(h, l)
    ensures l in h
  {
  }

  lemma LowestNext(h: Heads, p: nat, size: nat, hdr: nat)
    requires Linked(h, size, hdr) && Lowest(h, p) && p in h && h[p].used && p != size
    ensures Lowest(h, h[p].next)
  {
    hide Linked;
    LinkedHere(h, p, size, hdr);
  }

  lemma FitsHere(h: Heads, p: nat, n: nat, hdr: nat)
    ensures Fits(h, p, n, hdr) <==> p in h && !h[p].used && h[p].next - (p + hdr) >= n
  {
  }

  lemma LowestFree(h: Heads, l: nat, p: nat)
    requires Lowest(h, l) && IsFree(h, p)
    ensures l <= p
  {
  }

  /** With no used block the heap is a single free one. */
  lemma NoneUsed(h: Heads, size: nat, hdr: nat)
    requires Linked(h, size, hdr) && Coalesced(h) && forall q: nat :: !IsUsed(h, q, size)
    ensures h == map[0 := Header(size, 0, false), size := Header(size, size, true)]
  {
    hide Linked;
    LinkedEnd(h, size, hdr);
    LinkedHere(h, 0, size, hdr);
    assert !IsUsed(h, h[0].next, size) && !IsUsed(h, 0, size);
    forall q | q in h
      ensures q == 0 || q == size
    {
      if q != size {
        LinkedHere(h, q, size, hdr);
      }
    }
  }

  /** The used blocks determine the whole list: free blocks are exactly the gaps. */
  lemma {:induction false} Determined(h: Heads, g: Heads, p: nat, size: nat, hdr: nat)
    requires Linked(h, size, hdr) && Linked(g, size, hdr) && Coalesced(h) && Coalesced(g)
    requires SameUsed(h, g, size) && p in h
    ensures p in g && h[p] == g[p]
    decreases p
  {
    hide Linked, Coalesced, SameUsed;
    LinkedEnd(h, size, hdr);
    LinkedEnd(g, size, hdr);
    if p != size {
      LinkedHere(h, p, size, hdr);
    }
    if p == 0 {
      LinkedHere(g, p, size, hdr);
      SameNext(h, g, p, size, hdr);
    } else {
      var m := PrevOf(h, p, size, hdr);
      Determined(h, g, m, size, hdr);
      if p != size {
        LinkedHere(g, m, size, hdr);
        SameNext(h, g, p, size, hdr);
      }
    }
  }

  /** The block that ends at `p`. */
  lemma PrevOf(h: Heads, p: nat, size: nat, hdr: nat) returns (m: nat)
    requires Linked(h, size, hdr) && p in h && p != 0
    ensures m in h && m < p && h[m].next == p && m != size && (p != size ==> m == h[p].prev)
  {
    if p == size {
      m := EndOf(h, 0, size, hdr);
    } else {
      assert LinkedAt(h, p, size, hdr);
      m := h[p].prev;
    }
  }

  lemma {:induction false} EndOf(h: Heads, p: nat, size: nat, hdr: nat) returns (m: nat)
    requires Linked(h, size, hdr) && p in h && p != size
    ensures m in h && m < size && h[m].next == size
    decreases size - p
  {
    assert LinkedAt(h, p, size, hdr);
    if h[p].next == size {
      m := p;
    } else {
      m := EndOf(h, h[p].next, size, hdr);
    }
  }

  /** A block both lists have ends at the same place in both. */
  lemma SameNext(h: Heads, g: Heads, p: nat, size: nat, hdr: nat)
    requires Linked(h, size, hdr) && Linked(g, size, hdr) && Coalesced(h) && Coalesced(g)
    requires SameUsed(h, g, size) && p in h && p in g && p != size
    ensures h[p].next == g[p].next && h[p].used == g[p].used
  {
    hide Linked;
    LinkedEnd(h, size, hdr);
    LinkedEnd(g, size, hdr);
    LinkedHere(h, p, size, hdr);
    LinkedHere(g, p, size, hdr);
    assert IsUsed(h, p, size) <==> IsUsed(g, p, size);
    var a, b := h[p].next, g[p].next;
    assert IsUsed(h, a, size) <==> IsUsed(g, a, size);
    assert IsUsed(h, b, size) <==> IsUsed(g, b, size);
  }

  lemma FirstFits(h: Heads, p: nat, n: nat, hdr: nat)
    requires FirstFit(h, p, n, hdr)
    ensures Fits(h, p, n, hdr) && p in h
  {
  }

  lemma NoFitBelow(h: Heads, l: nat, n: nat, hdr: nat)
    requires Lowest(h, l)
    ensures l in h && forall q: nat :: q < l ==> !Fits(h, q, n, hdr)
  {
  }

  lemma NoFitNext(h: Heads, p: nat, n: nat, size: nat, hdr: nat)
    requires Linked(h, size, hdr) && p in h && p != size && !Fits(h, p, n, hdr)
    requires forall q: nat :: q < p ==> !Fits(h, q, n, hdr)
    ensures forall q: nat :: q < h[p].next ==> !Fits(h, q, n, hdr)
  {
    hide Linked;
    LinkedHere(h, p, size, hdr);
  }

  /** No block that starts too near the end fits. */
  lemma NoFitAbove(h: Heads, p: nat, n: nat, size: nat, hdr: nat)
    requires Linked(h, size, hdr) && size <= p + n
    requires forall q: nat :: q < p ==> !Fits(h, q, n, hdr)
    ensures !HasRoom(h, n, hdr)
  {
    forall q: nat
      ensures !Fits(h, q, n, hdr)
    {
      if q >= p && Fits(h, q, n, hdr) {
        LinkedEnd(h, size, hdr);
        LinkedHere(h, q, size, hdr);
      }
    }
  }

  lemma RoomierAt(h: Heads, g: Heads, n: nat, hdr: nat)
    requires Roomier(h, g, hdr)
    ensures HasRoom(h, n, hdr) ==> HasRoom(g, n, hdr)
  {
  }

  lemma YieldedTwice(h: Heads, o: map<nat, nat>, g: Heads, o2: map<nat, nat>, f: Heads, o3: map<nat, nat>,
                     busy: set<nat>, script: seq<Action>, hdr: nat)
    requires Yielded(h, o, g, o2, busy, script) && Yielded(g, o2, f, o3, busy, script)
    requires Roomier(h, g, hdr) && Roomier(g, f, hdr)
    ensures Yielded(h, o, f, o3, busy, script) && Roomier(h, f, hdr)
  {
    hide HasRoom;
  }

  /** The assignments that cut a block make up `Cut`. */
  lemma CutCode(h: Heads, p: nat, n: nat, size: nat, hdr: nat)
    requires Linked(h, size, hdr) && p in h && p != size && p < n < h[p].next
    ensures h[p].next in h && n !in h
    ensures var e := h[p].next;
      var g := h[n := Header(e, p, false)][p := h[p].(next := n)];
      Cut(h, p, n, size) == if e != size then g[e := h[e].(prev := n)] else g
  {
    hide Linked;
    LinkedHere(h, p, size, hdr);
    ClearOf(h, p, n, h[p].next);
  }

  /** The assignments that move a free block down make up `Moved`. */
  lemma MoveCode(h: Heads, p: nat, n: nat, size: nat, hdr: nat)
    requires Linked(h, size, hdr) && p in h && p != size && p < n < h[p].next != size
    ensures var m := h[p].next;
        m in h && h[m].next in h && n !in h && h[m].next != n && h[m].next != m && h[m].next != p
    ensures var m := h[p].next; var e := h[m].next;
      var g := (h - {m})[n := Header(e, p, false)][p := h[p].(next := n)];
      Moved(h, p, n, size) == if e != size then g[e := h[e].(prev := n)] else g
  {
    hide Linked;
    LinkedHere(h, p, size, hdr);
    var m := h[p].next;
    LinkedHere(h, m, size, hdr);
    ClearOf(h, p, n, m);
    var e := h[m].next;
    assert Moved(h, p, n, size) == var g := (h - {m})[n := Header(e, p, false)][p := h[p].(next := n)];
      if e != size then g[e := h[e].(prev := n)] else g;
  }

  /** Cutting off a free block moves the cursor down if it lies below. */
  lemma LowestCut(h: Heads, g: Heads, l: nat, n: nat)
    requires Lowest(h, l) && n in g && h.Keys <= g.Keys
    requires forall q: nat :: IsFree(g, q) <==> IsFree(h, q) || q == n
    ensures Lowest(g, if n < l then n else l) && (IsFree(h, l) ==> IsFree(g, l)) && IsFree(g, n)
  {
    assert IsFree(g, n);
  }

  /** The cursor follows a free block that moves down behind a used one. */
  lemma LowestMoved(h: Heads, g: Heads, l: nat, m: nat, n: nat)
    requires Lowest(h, l) && IsFree(h, m) && n in g && n < m && h.Keys - {m} <= g.Keys
    requires forall q: nat :: q in h && q < m ==> q < n
    requires forall q: nat :: IsFree(g, q) <==> (IsFree(h, q) && q != m) || q == n
    ensures Lowest(g, if l == m then n else l) && IsFree(g, n) && (IsFree(h, l) && l != m ==> IsFree(g, l))
  {
    assert IsFree(g, n);
  }

  lemma SameHeads(h: Heads, p: nat, size: nat, hdr: nat)
    ensures SameOthers(h, h, p, size) && Roomier(h, h, hdr)
  {
  }

  lemma LowestAt(h: Heads, l: nat, p: nat)
    ensures Lowest(h, l) && IsFree(h, p) ==> l <= p && l in h
  {
  }

  /** Freeing a block below the cursor moves the cursor. */
  lemma LowestMarked(h: Heads, l: nat, p: nat)
    requires Lowest(h, l) && p in h
    ensures Lowest(Mark(h, p, false), if p < l then p else l)
  {
    forall q: nat | IsFree(Mark(h, p, false), q)
      ensures p <= q || l <= q
    {
      assert q != p ==> IsFree(h, q);
    }
  }

  lemma MergedSum(h: Heads, g: Heads, size: nat, hdr: nat)
    requires Merged(h, g, size, hdr)
    ensures UsedBelow(g, size) == UsedBelow(h, size)
  {
    hide Linked;
    SameUsedSum(h, g, size, size);
  }

  lemma RoomierTwice(h: Heads, g: Heads, f: Heads, size: nat, hdr: nat)
    requires Roomier(h, g, hdr) && Merged(g, f, size, hdr)
    ensures Roomier(h, f, hdr) && SameUsed(g, f, size)
  {
    hide Linked, HasRoom;
  }

  /** Merging removes no block at or below the lowest free one. */
  lemma LowestMerged(h: Heads, g: Heads, l: nat, size: nat, hdr: nat)
    requires Lowest(h, l) && Merged(h, g, size, hdr) && l in g
    ensures Lowest(g, l) && (IsFree(h, l) && l != size ==> IsFree(g, l))
  {
    hide Linked, Roomier;
    assert IsUsed(g, l, size) <==> IsUsed(h, l, size);
  }

  lemma MergedTwice(h: Heads, g: Heads, f: Heads, size: nat, hdr: nat)
    requires Merged(h, g, size, hdr) && Merged(g, f, size, hdr)
    ensures Merged(h, f, size, hdr)
  {
    hide Linked, HasRoom;
    assert SameUsed(h, f, size);
  }

  /** `p` is a block and no free one lies below it. */
  ghost predicate Lowest(h: Heads, p: nat)
  {
    p in h && forall q: nat :: IsFree(h, q) ==> p <= q
  }

  lemma {:induction false} NothingUsed(h: Heads, size: nat, k: nat)
    requires forall q: nat :: q < k ==> !IsUsed(h, q, size)
    requires k <= size
    ensures UsedBelow(h, k) == 0
  {
    if k == 0 {
    } else {
      assert !IsUsed(h, k - 1, size);
      NothingUsed(h, size, k - 1);
    }
  }
}
