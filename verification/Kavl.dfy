/** The intrusive AVL tree: search, rotations, insertion and removal, all by
    loops over an explicit path and without recursion. */
module Kavl {
  import opened Elements
  import opened AvlTrees
  import opened Prefixes

  type Comparator = (Key, Key) -> int

  /** Where a search ends: at the element of the given rank, or in the gap
      before that rank. */
  datatype Place = Found(at: nat) | Absent(at: nat)
  {
    function Shift(n: nat): Place {
      if Found? then Found(at + n) else Absent(at + n)
    }
  }

  ghost function Locate(cmp: Comparator, x: Key, t: Tree): Place {
    match t
    case Leaf => Absent(0)
    case Fork(l, n, r) =>
      var c := cmp(x, n.key);
      if c == 0 then Found(Count(l))
      else if c < 0 then Locate(cmp, x, l)
      else Locate(cmp, x, r).Shift(Count(l) + 1)
  }

  /** Along the sequence the comparison with `x` is first positive, then zero
      on a contiguous run, then negative. */
  ghost predicate Monotone(cmp: Comparator, x: Key, s: seq<Elem>) {
    forall i, j :: 0 <= i < j < |s| ==> Sign(cmp(x, s[i].key)) >= Sign(cmp(x, s[j].key))
  }

  lemma {:induction false} LocateInRange(cmp: Comparator, x: Key, t: Tree)
    ensures var at := Locate(cmp, x, t);
            && (at.Found? ==> at.at < |InOrder(t)| && cmp(x, InOrder(t)[at.at].key) == 0)
            && (at.Absent? ==> at.at <= |InOrder(t)|)
  {
    if t.Fork? {
      LocateInRange(cmp, x, t.l);
      LocateInRange(cmp, x, t.r);
      InOrderFacts(t.l);
      InOrderFacts(t.r);
    }
  }

  lemma MonotoneParts(cmp: Comparator, x: Key, a: seq<Elem>, n: Elem, b: seq<Elem>)
    requires Monotone(cmp, x, a + [n] + b)
    ensures Monotone(cmp, x, a) && Monotone(cmp, x, b)
    ensures forall i :: 0 <= i < |a| ==> Sign(cmp(x, a[i].key)) >= Sign(cmp(x, n.key))
    ensures forall i :: 0 <= i < |b| ==> Sign(cmp(x, n.key)) >= Sign(cmp(x, b[i].key))
  {
    var s := a + [n] + b;
    assert s[|a|] == n && a == s[..|a|] && b == s[|a| + 1..];
    MonotoneSlice(cmp, x, s, 0, |a|);
    MonotoneSlice(cmp, x, s, |a| + 1, |s|);
  }

  lemma MonotoneSlice(cmp: Comparator, x: Key, s: seq<Elem>, lo: nat, hi: nat)
    requires Monotone(cmp, x, s) && lo <= hi <= |s|
    ensures Monotone(cmp, x, s[lo..hi])
  {
    hide Sign;
    var u := s[lo..hi];
    forall i, j | 0 <= i < j < |u|
      ensures Sign(cmp(x, u[i].key)) >= Sign(cmp(x, u[j].key))
    {
      assert u[i] == s[lo + i] && u[j] == s[lo + j];
    }
  }

  /** `at` is the gap of `s` with everything larger than `x` after it and
      everything smaller before it. */
  ghost predicate IsGap(cmp: Comparator, x: Key, s: seq<Elem>, at: nat) {
    && at <= |s|
    && (forall i :: 0 <= i < at ==> cmp(x, s[i].key) > 0)
    && (forall i :: at <= i < |s| ==> cmp(x, s[i].key) < 0)
  }

  /** On a monotone sequence the search finds an equal element whenever there
      is one, and otherwise the one gap that separates smaller from larger. */
  lemma {:induction false} LocateComplete(cmp: Comparator, x: Key, t: Tree)
    requires Monotone(cmp, x, InOrder(t))
    ensures Locate(cmp, x, t).Absent? ==> IsGap(cmp, x, InOrder(t), Locate(cmp, x, t).at)
  {
    if t.Fork? {
      var a, b := InOrder(t.l), InOrder(t.r);
      InOrderFacts(t.l);
      MonotoneParts(cmp, x, a, t.n, b);
      LocateComplete(cmp, x, t.l);
      LocateComplete(cmp, x, t.r);
      var c := cmp(x, t.n.key);
      if c < 0 && Locate(cmp, x, t).Absent? {
        GapExtendsRight(cmp, x, a, t.n, b, Locate(cmp, x, t.l).at);
      } else if c > 0 && Locate(cmp, x, t).Absent? {
        GapExtendsLeft(cmp, x, a, t.n, b, Locate(cmp, x, t.r).at);
      }
    }
  }

  lemma GapExtendsRight(cmp: Comparator, x: Key, a: seq<Elem>, n: Elem, b: seq<Elem>, at: nat)
    requires IsGap(cmp, x, a, at) && cmp(x, n.key) < 0 && forall i :: 0 <= i < |b| ==> cmp(x, b[i].key) < 0
    ensures IsGap(cmp, x, a + [n] + b, at)
  {
  }

  lemma GapExtendsLeft(cmp: Comparator, x: Key, a: seq<Elem>, n: Elem, b: seq<Elem>, at: nat)
    requires IsGap(cmp, x, b, at) && cmp(x, n.key) > 0 && forall i :: 0 <= i < |a| ==> cmp(x, a[i].key) > 0
    ensures IsGap(cmp, x, a + [n] + b, |a| + 1 + at)
  {
  }

  function SizeOf(p: Elem?): int
    reads p
  {
    if p == null then 0 else p.size
  }

  lemma SizeOfHeld(p: Elem?, t: Tree)
    requires Holds(p, t)
    ensures SizeOf(p) == Count(t)
  {
  }

  lemma SplitAround<T>(s: seq<T>, before: seq<T>, l: seq<T>, n: T, r: seq<T>, after: seq<T>)
    requires s == before + (l + [n] + r) + after
    ensures s == before + l + ([n] + r + after)
    ensures s == (before + l + [n]) + r + after
    ensures |before| + |l| < |s| && s[|before| + |l|] == n
  {
  }

  /** Search; `cnt` is the number of elements up to and including the place found. */
  method Find(root: Elem?, x: Key, cmp: Comparator, ghost t: Tree) returns (p: Elem?, cnt: int)
    requires Holds(root, t)
    ensures match Locate(cmp, x, t)
            case Found(i) => i < |InOrder(t)| && p == InOrder(t)[i] && cnt == i + 1
            case Absent(i) => p == null && cnt == i
  {
    hide InOrder, Count, Height;
    p, cnt := root, 0;
    ghost var cur, before, after := t, [], [];
    while p != null
      invariant Holds(p, cur)
      invariant cnt == |before| && InOrder(t) == before + InOrder(cur) + after
      invariant Locate(cmp, x, t) == Locate(cmp, x, cur).Shift(|before|)
      decreases cur
    {
      InOrderFacts(cur.l);
      ForkOrder(cur);
      SizeOfHeld(p.kids[0], cur.l);
      SplitAround(InOrder(t), before, InOrder(cur.l), cur.n, InOrder(cur.r), after);
      var c := cmp(x, p.key);
      if c >= 0 {
        cnt := cnt + SizeOf(p.kids[0]) + 1;
      }
      if c < 0 {
        p, cur, after := p.kids[0], cur.l, [cur.n] + InOrder(cur.r) + after;
      } else if c > 0 {
        p, cur, before := p.kids[1], cur.r, before + InOrder(cur.l) + [cur.n];
      } else {
        break;
      }
    }
  }

  // ---------- Rotations ----------

  /** Rotates `p` towards `dir`, its other child `q` taking its place:
      for dir = 0, (a,(b,c)q)p becomes ((a,b)p,c)q. Balance factors are left to the caller. */
  method Rotate1(p: Elem, dir: Dir) returns (q: Elem)
    requires var q0 := p.kids[1 - dir]; q0 != null && q0 != p && q0.kids[dir] != p && q0.kids[dir] != q0
    modifies p, p.kids[1 - dir]
    ensures q == old(p.kids[1 - dir])
    ensures p.kids == old(p.kids)[1 - dir := old(q.kids[dir])]
    ensures q.kids == old(q.kids)[dir := p]
    ensures q.size == old(p.size) && p.size == old(p.size) - old(q.size) + old(SizeOf(q.kids[dir]))
    ensures p.balance == old(p.balance) && q.balance == old(q.balance)
  {
    q := p.kids[1 - dir];
    var sizeP := p.size;
    p.size := p.size - (q.size - SizeOf(q.kids[dir]));
    q.size := sizeP;
    p.kids := p.kids[1 - dir := q.kids[dir]];
    q.kids := q.kids[dir := p];
  }

  /** Two rotations in one: for dir = 0, (a,((b,c)r,d)q)p becomes ((a,b)p,(c,d)q)r. */
  method Rotate2(p: Elem, dir: Dir) returns (r: Elem)
    requires var q := p.kids[1 - dir];
             && q != null && q != p
             && var r0 := q.kids[dir];
             && r0 != null && r0 != p && r0 != q
             && -1 <= r0.balance <= 1
             && r0.kids[dir] != p && r0.kids[dir] != q && r0.kids[dir] != r0
    modifies p, p.kids[1 - dir], p.kids[1 - dir].kids[dir]
    ensures var q := old(p.kids[1 - dir]);
            && r == old(q.kids[dir])
            && p.kids == old(p.kids)[1 - dir := old(r.kids[dir])]
            && q.kids == old(q.kids)[dir := old(r.kids[1 - dir])]
            && r.kids[dir] == p && r.kids[1 - dir] == q
    ensures var q := old(p.kids[1 - dir]);
            && r.size == old(p.size)
            && p.size == old(p.size) - old(q.size) + old(SizeOf(r.kids[dir]))
            && q.size == old(q.size) - old(SizeOf(r.kids[dir])) - 1
    ensures var q, b1 := old(p.kids[1 - dir]), if dir == 0 then 1 else -1;
            && p.balance == (if old(r.balance) == b1 then -b1 else 0)
            && q.balance == (if old(r.balance) == -b1 then b1 else 0)
            && r.balance == 0
  {
    var q := p.kids[1 - dir];
    r := q.kids[dir];
    var sizeDir := SizeOf(r.kids[dir]);
    r.size := p.size;
    p.size := p.size - (q.size - sizeDir);
    q.size := q.size - (sizeDir + 1);
    p.kids := p.kids[1 - dir := r.kids[dir]];
    r.kids := r.kids[dir := p];
    q.kids := q.kids[dir := r.kids[1 - dir]];
    r.kids := r.kids[1 - dir := q];
    var b1 := if dir == 0 then 1 else -1;
    if r.balance == b1 {
      q.balance, p.balance := 0, -b1;
    } else if r.balance == 0 {
      q.balance, p.balance := 0, 0;
    } else {
      q.balance, p.balance := b1, 0;
    }
    r.balance := 0;
  }

  // ---------- Insertion ----------

  /** The path array holds the elements of the path from index `lo` on. */
  ghost predicate Recorded(path: seq<Elem?>, lo: nat, fs: seq<Frame>)
  {
    lo + |fs| <= |path| && forall i :: 0 <= i < |fs| ==> path[lo + i] == fs[i].n
  }

  /** The direction array holds the sides taken from step `b` on. */
  ghost predicate Turns(stack: seq<Dir>, fs: seq<Frame>, b: nat)
  {
    b <= |fs| <= b + |stack| && forall j :: 0 <= j < |fs| - b ==> stack[j] == fs[b + j].dir
  }

  /** Step `b` is the last one that leans to a side, or the first of all. */
  ghost predicate LastTilted(fs: seq<Frame>, b: nat, hh: nat) {
    && (fs == [] ==> b == 0) && (fs != [] ==> b < |fs|)
    && (forall j :: b < j < |fs| ==> Tilt(fs, j, hh) == 0)
    && (0 < b ==> Tilt(fs, b, hh) != 0)
  }

  ghost function PathNodes(fs: seq<Frame>): set<Elem> {
    set i | 0 <= i < |fs| :: fs[i].n
  }

  /** Adds `delta` to the size of every element on the recorded path. */
  method AddToSizes(path: seq<Elem?>, lo: nat, hi: nat, delta: int, ghost fs: seq<Frame>, ghost p: Elem?,
                    ghost hh: nat, ghost cc: nat)
    requires hi == lo + |fs| && Recorded(path, lo, fs)
    requires CtxDistinct(fs) && CtxHolds(fs, p, hh, cc) && cc + delta >= 0
    modifies PathNodes(fs)`size
    ensures CtxHolds(fs, p, hh, cc + delta)
  {
    hide Height, Count, Holds, HeightAt, CountAt, Distinct, Nodes;
    var i := lo;
    ghost var cc' := cc + delta;
    while i < hi
      invariant lo <= i <= hi
      invariant StepsHold(fs, 0, i - lo, p, hh, cc') && StepsHold(fs, i - lo, |fs|, p, hh, cc)
    {
      ghost var k := i - lo;
      assert StepHolds(fs, k, p, hh, cc);
      CtxApart(fs, k);
      path[i].size := path[i].size + delta;
      if delta >= 0 {
        CountAtShift(fs, k, cc, delta);
      } else {
        CountAtShift(fs, k, cc', -delta);
      }
      assert StepHolds(fs, k, p, hh, cc');
      i := i + 1;
    }
  }

  method TiltStep(p: Elem, which: Dir, ghost x: Elem, ghost fs: seq<Frame>, ghost b: nat, ghost i: nat, ghost cc: nat)
    requires b <= i < |fs| && p == fs[i].n && which == fs[i].dir
    requires CtxDistinct(fs) && LastTilted(fs, b, 0)
    requires StepsHold(fs, 0, b, x, 0, cc) && StepsHold(fs, b, i, x, 1, cc) && StepsHold(fs, i, |fs|, x, 0, cc)
    modifies p`balance
    ensures StepsHold(fs, 0, b, x, 0, cc) && StepsHold(fs, b, i + 1, x, 1, cc) && StepsHold(fs, i + 1, |fs|, x, 0, cc)
  {
    assert StepHolds(fs, i, x, 0, cc);
    CtxApart(fs, i);
    GrowHeights(fs, b, i);
    if which == 0 {
      p.balance := p.balance - 1;
    } else {
      p.balance := p.balance + 1;
    }
    assert StepHolds(fs, i, x, 1, cc);
  }

  /** Updates the balance factors from `bp` down to the new element `x`. */
  method TiltTowards(bp: Elem, x: Elem, stack: seq<Dir>, ghost fs: seq<Frame>, ghost b: nat, ghost cc: nat)
    requires b < |fs| && bp == fs[b].n && forall i :: 0 <= i < |fs| ==> fs[i].n != x
    requires Turns(stack, fs, b)
    requires CtxDistinct(fs) && CtxHolds(fs, x, 0, cc) && LastTilted(fs, b, 0)
    modifies PathNodes(fs)`balance
    ensures StepsHold(fs, 0, b, x, 0, cc) && StepsHold(fs, b, |fs|, x, 1, cc)
  {
    var p, top := bp, 0;
    ghost var i := b;
    while p != x
      invariant b <= i <= |fs| && top == i - b
      invariant p == if i < |fs| then fs[i].n else x
      invariant StepsHold(fs, 0, b, x, 0, cc) && StepsHold(fs, b, i, x, 1, cc) && StepsHold(fs, i, |fs|, x, 0, cc)
      decreases |fs| - i
    {
      assert stack[top] == fs[b + top].dir;
      assert b + top == i;
      TiltStep(p, stack[top], x, fs, b, i, cc);
      assert stack[top] == fs[b + top].dir && StepHolds(fs, i, x, 1, cc);
      p := p.kids[stack[top]];
      top, i := top + 1, i + 1;
    }
  }

  /** The pointers of the search: `bp` at step `b` and `bq` at the step before,
      `q` at the last step, which took side `which` to `p`. */
  ghost predicate Tracked(fs: seq<Frame>, b: nat, p: Elem?, bp: Elem?, bq: Elem?, q: Elem?, which: Dir) {
    && b <= |fs|
    && bp == (if b < |fs| then fs[b].n else p)
    && bq == (if b > 0 then fs[b - 1].n else null)
    && q == (if fs == [] then null else fs[|fs| - 1].n)
    && (fs != [] ==> which == fs[|fs| - 1].dir)
  }

  lemma TrackedStep(fs: seq<Frame>, f: Frame, b: nat, bp: Elem?, bq: Elem?, q: Elem?, which: Dir, tilted: bool,
                    next: Elem?)
    requires Tracked(fs, b, f.n, bp, bq, q, which)
    ensures if tilted then Tracked(fs + [f], |fs|, next, f.n, q, f.n, f.dir)
            else Tracked(fs + [f], b, next, bp, bq, f.n, f.dir)
  {
  }

  lemma RecordedSnoc(path: seq<Elem?>, fs: seq<Frame>, f: Frame)
    requires Recorded(path, 0, fs) && |fs| < |path|
    ensures Recorded(path[|fs| := f.n], 0, fs + [f])
  {
  }

  lemma TurnsSnoc(stack: seq<Dir>, fs: seq<Frame>, b: nat, f: Frame)
    requires Turns(stack, fs, b) && |fs| - b < |stack|
    ensures Turns(stack[|fs| - b := f.dir], fs + [f], b)
  {
    var stack', fs' := stack[|fs| - b := f.dir], fs + [f];
    forall j | 0 <= j < |fs'| - b
      ensures stack'[j] == fs'[b + j].dir
    {
      if j < |fs| - b {
        assert stack[j] == fs[b + j].dir;
      }
    }
  }

  lemma StillTilted(fs: seq<Frame>, f: Frame, b: nat, hh: nat)
    requires LastTilted(fs, b, FillHeight(f, hh)) || b == |fs|
    requires b == |fs| ==> fs == [] || FillBalance(f, hh) != 0
    requires b < |fs| ==> FillBalance(f, hh) == 0
    ensures LastTilted(fs + [f], b, hh)
  {
    var gs := fs + [f];
    SnocParts(fs, f);
    assert Tilt(gs, |fs|, hh) == FillBalance(f, hh);
    forall j | 0 <= j < |fs|
      ensures Tilt(gs, j, hh) == Tilt(fs, j, FillHeight(f, hh))
    {
      HeightAtInit(gs, j, hh, 0);
    }
  }

  /** The path `fs` leads from the root of `t` to `p`, where `cur` hangs. */
  ghost predicate OnPath(t: Tree, root: Elem?, fs: seq<Frame>, p: Elem?, cur: Tree)
    reads CtxNodes(fs), Nodes(cur)
  {
    && Visiting(fs, p, cur) && Plug(fs, cur) == t && Top(fs, p) == root
    && |fs| + Height(cur) <= Height(t)
  }

  /** The path turns where the comparison with `x` says so. */
  ghost predicate Directed(cmp: Comparator, x: Key, fs: seq<Frame>) {
    forall i :: 0 <= i < |fs| ==> cmp(x, fs[i].n.key) != 0 && fs[i].dir == if cmp(x, fs[i].n.key) > 0 then 1 else 0
  }

  /** The tree `t` with `s` hung where the search for `x` ends. */
  ghost function Graft(cmp: Comparator, x: Key, s: Tree, t: Tree): Tree {
    match t
    case Leaf => s
    case Fork(l, n, r) =>
      var c := cmp(x, n.key);
      if c == 0 then t
      else if c < 0 then Fork(Graft(cmp, x, s, l), n, r)
      else Fork(l, n, Graft(cmp, x, s, r))
  }

  lemma {:induction false} GraftAlong(cmp: Comparator, x: Key, s: Tree, fs: seq<Frame>, t: Tree)
    requires Directed(cmp, x, fs)
    ensures Graft(cmp, x, s, Plug(fs, t)) == Plug(fs, Graft(cmp, x, s, t))
  {
    if fs != [] {
      var k := |fs| - 1;
      GraftAlong(cmp, x, s, fs[..k], Fill(fs[k], t));
    }
  }

  lemma GraftLeaf(cmp: Comparator, x: Key, s: Tree)
    ensures Graft(cmp, x, s, Leaf) == s
  {
  }

  /** The search for `x` in `t` has come along `fs` to `p`, where `cur` hangs. */
  ghost predicate Searching(cmp: Comparator, x: Key, t: Tree, root: Elem?, fs: seq<Frame>, p: Elem?, cur: Tree, b: nat)
    reads CtxNodes(fs), Nodes(cur)
  {
    && OnPath(t, root, fs, p, cur) && Directed(cmp, x, fs)
    && LastTilted(fs, b, Height(cur))
    && Locate(cmp, x, t) == Locate(cmp, x, cur).Shift(|Before(fs)|)
  }

  ghost function StepTo(t: Tree, dir: Dir): Frame
    requires t.Fork?
  {
    Frame(t.n, dir, if dir == 0 then t.r else t.l)
  }

  ghost function SubTree(t: Tree, dir: Dir): Tree
    requires t.Fork?
  {
    if dir == 0 then t.l else t.r
  }

  lemma DirectedSnoc(cmp: Comparator, x: Key, fs: seq<Frame>, f: Frame)
    requires Directed(cmp, x, fs) && cmp(x, f.n.key) != 0 && f.dir == (if cmp(x, f.n.key) > 0 then 1 else 0)
    ensures Directed(cmp, x, fs + [f])
  {
  }

  /** One step down a path. */
  lemma OnPathStep(t: Tree, root: Elem?, fs: seq<Frame>, p: Elem, cur: Tree, which: Dir)
    requires OnPath(t, root, fs, p, cur) && cur.Fork?
    ensures OnPath(t, root, fs + [StepTo(cur, which)], p.kids[which], SubTree(cur, which))
    ensures p == cur.n && p.balance == FillBalance(StepTo(cur, which), Height(SubTree(cur, which)))
    ensures Height(cur) == FillHeight(StepTo(cur, which), Height(SubTree(cur, which)))
    ensures Before(fs + [StepTo(cur, which)]) == Before(fs) + BeforeOf(StepTo(cur, which))
    ensures |BeforeOf(StepTo(cur, which))| == if which == 0 then 0 else SizeOf(p.kids[0]) + 1
  {
    hide CtxHolds, CtxBalanced, CtxDistinct, CtxNodes, Distinct, Nodes, Plug, Count, InOrder, Before;
    var f, sub := StepTo(cur, which), SubTree(cur, which);
    InOrderFacts(cur.l);
    SizeOfHeld(p.kids[0], cur.l);
    Descend(fs, p, cur, f, sub);
    FillMeasures(f, sub);
  }

  /** What the search step passes shifts the place it finds. */
  lemma LocateStep(cmp: Comparator, x: Key, cur: Tree, which: Dir, k: nat)
    requires cur.Fork? && cmp(x, cur.n.key) != 0 && which == (if cmp(x, cur.n.key) > 0 then 1 else 0)
    ensures Locate(cmp, x, cur).Shift(k)
      == Locate(cmp, x, SubTree(cur, which)).Shift(k + |BeforeOf(StepTo(cur, which))|)
  {
    hide InOrder, Count;
    InOrderFacts(cur.l);
  }

  lemma SearchStep(cmp: Comparator, x: Key, t: Tree, root: Elem?, fs: seq<Frame>, p: Elem, cur: Tree, b: nat,
                   which: Dir)
    requires Searching(cmp, x, t, root, fs, p, cur, b) && cur.Fork?
    requires cmp(x, p.key) != 0 && which == (if cmp(x, p.key) > 0 then 1 else 0)
    ensures Searching(cmp, x, t, root, fs + [StepTo(cur, which)], p.kids[which], SubTree(cur, which),
        if p.balance != 0 then |fs| else b)
    ensures |Before(fs + [StepTo(cur, which)])| == |Before(fs)| + (if which == 0 then 0 else SizeOf(p.kids[0]) + 1)
  {
    hide OnPath, Directed, LastTilted, CtxNodes, Nodes, Height, FillHeight, FillBalance, Before, BeforeOf, Locate;
    var f, sub := StepTo(cur, which), SubTree(cur, which);
    OnPathStep(t, root, fs, p, cur, which);
    DirectedSnoc(cmp, x, fs, f);
    LocateStep(cmp, x, cur, which, |Before(fs)|);
    TiltedAt(fs, b, Height(cur));
    StillTilted(fs, f, if p.balance != 0 then |fs| else b, Height(sub));
  }

  lemma TiltedAt(fs: seq<Frame>, b: nat, hh: nat)
    requires LastTilted(fs, b, hh)
    ensures b <= |fs| && (b == |fs| ==> fs == [])
  {
  }

  lemma SearchStart(cmp: Comparator, x: Key, t: Tree, root: Elem?)
    requires Visiting([], root, t)
    ensures Searching(cmp, x, t, root, [], root, t, 0) && |Before([])| == 0
  {
  }

  lemma SearchAt(cmp: Comparator, x: Key, t: Tree, root: Elem?, fs: seq<Frame>, p: Elem?, cur: Tree, b: nat)
    requires Searching(cmp, x, t, root, fs, p, cur, b)
    ensures b <= |fs| && (fs != [] ==> b < |fs|)
    ensures p == Root(cur) && |fs| + (if cur.Fork? then 1 else 0) <= Height(t)
    ensures cur.Leaf? ==> Locate(cmp, x, t) == Absent(|Before(fs)|)
  {
  }

  /** The downward search of an insertion. It stops at an equal element, or
      at the free place for `x`, having recorded the path to it. */
  method SearchPlace(root: Elem?, x: Key, cmp: Comparator, ghost t: Tree)
    returns (path: seq<Elem?>, stack: seq<Dir>, hit: Elem?, bp: Elem?, bq: Elem?, q: Elem?, which: Dir,
        pathLen: nat, cnt: nat, ghost fs: seq<Frame>, ghost b: nat)
    requires Visiting([], root, t) && Count(t) < SIZE_LIMIT
    ensures hit != null ==> 0 < cnt <= |InOrder(t)| && hit == InOrder(t)[cnt - 1] && Locate(cmp, x, t) == Found(cnt - 1)
    ensures hit == null ==>
              && Searching(cmp, x, t, root, fs, null, Leaf, b) && Locate(cmp, x, t) == Absent(cnt)
              && cnt == |Before(fs)|
              && pathLen == |fs| < MAX_DEPTH && Recorded(path, 0, fs) && Turns(stack, fs, b)
              && Tracked(fs, b, null, bp, bq, q, which) && (fs != [] ==> b < |fs|)
  {
    hide Holds, Plug, Balanced, Distinct, CtxHolds, CtxBalanced, CtxDistinct, CtxNodes, HeightAt, Before, LastTilted;
    path, stack := seq(MAX_DEPTH, i => null), seq(MAX_DEPTH, i => 0);
    SearchStart(cmp, x, t, root);
    bp, bq, hit, cnt, which := root, null, null, 0, 0;
    var p, top := bp, 0;
    q, pathLen := bq, 0;
    ghost var cur := t;
    fs, b := [], 0;
    HeightFitsPath(t);
    while p != null
      invariant Searching(cmp, x, t, root, fs, p, cur, b)
      invariant cnt == |Before(fs)|
      invariant |path| == |stack| == MAX_DEPTH
      invariant pathLen == |fs| && Recorded(path, 0, fs)
      invariant Turns(stack, fs, b) && top == |fs| - b
      invariant Tracked(fs, b, p, bp, bq, q, which)
      decreases cur
    {
      SearchAt(cmp, x, t, root, fs, p, cur, b);
      var c := cmp(x, p.key);
      if c == 0 {
        cnt := FoundAt(cmp, x, t, root, fs, p, cur, b, cnt);
        return path, stack, p, bp, bq, q, which, pathLen, cnt, fs, b;
      }
      var tilted := p.balance != 0;
      var dir: Dir := if c > 0 then 1 else 0;
      ghost var f, sub, b' := StepTo(cur, dir), SubTree(cur, dir), if tilted then |fs| else b;
      SearchStep(cmp, x, t, root, fs, p, cur, b, dir);
      ghost var next := p.kids[dir];
      TrackedStep(fs, f, b, bp, bq, q, which, tilted, next);
      cnt := if c > 0 then cnt + SizeOf(p.kids[0]) + 1 else cnt;
      bq, bp, top := if tilted then q else bq, if tilted then p else bp, if tilted then 0 else top;
      which := dir;
      assert Turns(stack, fs, b');
      RecordedSnoc(path, fs, f);
      TurnsSnoc(stack, fs, b', f);
      stack, path := stack[top := which], path[pathLen := p];
      top, pathLen := top + 1, pathLen + 1;
      q, p := p, p.kids[which];
      fs, cur, b := fs + [f], sub, b';
    }
    SearchAt(cmp, x, t, root, fs, p, cur, b);
  }

  /** The rank reported for an element found. */
  method FoundAt(cmp: Comparator, x: Key, ghost t: Tree, root: Elem?, ghost fs: seq<Frame>, p: Elem, ghost cur: Tree,
                 ghost b: nat, cnt: nat)
    returns (rank: nat)
    requires Searching(cmp, x, t, root, fs, p, cur, b) && cmp(x, p.key) == 0 && cnt == |Before(fs)|
    ensures 0 < rank <= |InOrder(t)| && p == InOrder(t)[rank - 1] && Locate(cmp, x, t) == Found(rank - 1)
  {
    InOrderFacts(cur.l);
    SizeOfHeld(p.kids[0], cur.l);
    InOrderPlug(fs, cur);
    rank := cnt + SizeOf(p.kids[0]) + 1;
  }

  /** `t` is an AVL tree of distinct elements, spelled out from `root`. */
  ghost predicate Valid(root: Elem?, t: Tree)
    reads Nodes(t)
  {
    Holds(root, t) && Distinct(t) && Balanced(t)
  }

  lemma ValidVisiting(root: Elem?, t: Tree)
    requires Valid(root, t)
    ensures Visiting([], root, t)
  {
  }

  /** The suffix of a path below step `b`, as a path of its own. */
  lemma StepsBelow(fs: seq<Frame>, lo: nat, b: nat, p: Elem?, hh: nat, cc: nat)
    requires lo <= b <= |fs| && StepsHold(fs, lo, |fs|, p, hh, cc)
    ensures CtxHolds(fs[b..], p, hh, cc)
  {
    var gs := fs[b..];
    forall i | 0 <= i < |gs|
      ensures StepHolds(gs, i, p, hh, cc)
    {
      assert StepHolds(fs, b + i, p, hh, cc);
      HeightAtDrop(fs, b, b + i, hh, cc);
    }
  }

  lemma StepsAbove(fs: seq<Frame>, b: nat, p: Elem?, hh: nat, cc: nat, hh': nat, q: Elem?)
    requires b < |fs| && StepsHold(fs, 0, b, p, hh, cc)
    requires hh' == FillHeight(fs[b], HeightAt(fs, b, hh))
    requires q == fs[b].n
    ensures CtxHolds(fs[..b], q, hh', CountAt(fs, b, cc) + 1 + Count(fs[b].sib))
  {
    var gs, cc' := fs[..b], CountAt(fs, b, cc) + 1 + Count(fs[b].sib);
    forall i | 0 <= i < b
      ensures StepHolds(gs, i, q, hh', cc')
    {
      assert StepHolds(fs, i, p, hh, cc);
      HeightAtTake(fs, b, i, hh, cc);
    }
  }

  ghost function Single1(x: Elem): Tree {
    Fork(Leaf, x, Leaf)
  }

  /** After the balance factors have been updated, no step above `b` sees a
      change of height unless step `b` is out of balance. */
  lemma FlatHeights(fs: seq<Frame>, b: nat, i: nat)
    requires b < |fs| && i < |fs| && CtxBalanced(fs, 0) && LastTilted(fs, b, 0) && -1 <= Tilt(fs, b, 1) <= 1
    ensures i < b ==> HeightAt(fs, i, 1) == HeightAt(fs, i, 0)
    ensures i >= b ==> HeightAt(fs, i, 1) == HeightAt(fs, i, 0) + 1
    ensures StepBalanced(fs, i, 1)
  {
    GrowHeights(fs, b, b);
    assert StepBalanced(fs, b, 0) && StepBalanced(fs, i, 0);
    if i < b {
      AbsorbedAbove(fs, b, i, 0, 1);
    } else if i > b {
      GrowHeights(fs, b, i);
      assert Tilt(fs, i, 0) == 0;
    }
  }

  /** An insertion that needs no rotation. */
  lemma InsertFlat(fs: seq<Frame>, b: nat, x: Elem)
    requires b < |fs| && CtxBalanced(fs, 0) && LastTilted(fs, b, 0)
    requires StepsHold(fs, 0, b, x, 0, 1) && StepsHold(fs, b, |fs|, x, 1, 1) && Holds(x, Single1(x))
    requires -1 <= fs[b].n.balance <= 1
    ensures Holds(fs[0].n, Plug(fs, Single1(x))) && Balanced(Plug(fs, Single1(x)))
  {
    assert StepHolds(fs, b, x, 1, 1);
    forall i | 0 <= i < |fs|
      ensures StepHolds(fs, i, x, 1, 1) && StepBalanced(fs, i, 1)
    {
      FlatHeights(fs, b, i);
      if i < b {
        assert StepHolds(fs, i, x, 0, 1);
      } else {
        assert StepHolds(fs, i, x, 1, 1);
      }
    }
    Assemble(fs, x, Single1(x));
    PlugBalanced(fs, Single1(x));
  }

  /** The single rotation where the heavy child leans outwards, or, when an
      element has been removed, not at all. */
  method RotateSingle(p: Elem, dir: Dir, ghost a: Tree, ghost b: Tree, ghost c: Tree) returns (q: Elem)
    requires p.kids[1 - dir] != null && Distinct(Join(dir, a, p, Join(dir, b, p.kids[1 - dir], c)))
    requires Holds(p.kids[dir], a) && Holds(p.kids[1 - dir], Join(dir, b, p.kids[1 - dir], c))
    requires p.size == Count(a) + 1 + Count(b) + 1 + Count(c)
    modifies p, p.kids[1 - dir]
    ensures q == old(p.kids[1 - dir])
    ensures p.balance == old(p.balance) && q.balance == old(q.balance)
    ensures q.kids[dir] == p && Holds(p.kids[dir], a) && Holds(p.kids[1 - dir], b) && Holds(q.kids[1 - dir], c)
    ensures p.size == Count(a) + 1 + Count(b) && q.size == p.size + 1 + Count(c)
  {
    q := p.kids[1 - dir];
    HoldsJoin(dir, b, q, c);
    SizeOfHeld(q.kids[dir], b);
    ghost var pa, pb, pc := p.kids[dir], q.kids[dir], q.kids[1 - dir];
    DistinctSingle(dir, a, p, b, q, c);
    ghost var ha, hb, hc := Holds(pa, a), Holds(pb, b), Holds(pc, c);
    NodesAllocated(a);
    NodesAllocated(b);
    NodesAllocated(c);
    q := Rotate1(p, dir);
    assert ha == Holds(pa, a) && hb == Holds(pb, b) && hc == Holds(pc, c);
  }

  lemma DistinctSingle(dir: Dir, a: Tree, p: Elem, b: Tree, q: Elem, c: Tree)
    requires Distinct(Join(dir, a, p, Join(dir, b, q, c)))
    ensures p != q
    ensures p !in Nodes(a) && p !in Nodes(b) && p !in Nodes(c)
    ensures q !in Nodes(a) && q !in Nodes(b) && q !in Nodes(c)
  {
    JoinParts(dir, b, q, c);
    JoinParts(dir, a, p, Join(dir, b, q, c));
  }

  lemma DistinctDouble(dir: Dir, a: Tree, p: Elem, b: Tree, r: Elem, c: Tree, q: Elem, d: Tree)
    requires Distinct(Join(dir, a, p, Join(dir, Join(dir, b, r, c), q, d)))
    ensures p != q && p != r && q != r
    ensures p !in Nodes(a) && p !in Nodes(b) && p !in Nodes(c) && p !in Nodes(d)
    ensures q !in Nodes(a) && q !in Nodes(b) && q !in Nodes(c) && q !in Nodes(d)
    ensures r !in Nodes(a) && r !in Nodes(b) && r !in Nodes(c) && r !in Nodes(d)
  {
    hide *;
    var m := Join(dir, b, r, c);
    JoinParts(dir, b, r, c);
    JoinParts(dir, m, q, d);
    JoinParts(dir, a, p, Join(dir, m, q, d));
  }

  /** The double rotation, where the heavy child leans inwards. */
  method RotateDouble(p: Elem, dir: Dir, ghost q: Elem, ghost a: Tree, ghost b: Tree, ghost c: Tree, ghost d: Tree)
    returns (r: Elem)
    requires p.kids[1 - dir] == q && q.kids[dir] != null
    requires var m := Join(dir, b, q.kids[dir], c);
             && Distinct(Join(dir, a, p, Join(dir, m, q, d)))
             && Holds(p.kids[dir], a) && Holds(q.kids[dir], m) && Holds(q.kids[1 - dir], d)
             && q.size == Count(m) + 1 + Count(d)
             && p.size == Count(a) + 1 + q.size
             && Height(a) == Height(d) == Max(Height(b), Height(c))
             && -1 <= Height(b) - Height(c) <= 1
    modifies p, q, q.kids[dir]
    ensures r == old(q.kids[dir])
    ensures Holds(r, Double(dir, a, p, b, r, c, q, d))
  {
    hide Holds, Height, Count, Balanced, Distinct, Nodes, Join, Double;
    ghost var m := q.kids[dir];
    HoldsJoin(dir, b, m, c);
    SizeOfHeld(m.kids[dir], b);
    JoinParts(dir, b, m, c);
    DistinctDouble(dir, a, p, b, m, c, q, d);
    NodesAllocated(a);
    NodesAllocated(b);
    NodesAllocated(c);
    NodesAllocated(d);
    ghost var pa, pb, pc, pd := p.kids[dir], m.kids[dir], m.kids[1 - dir], q.kids[1 - dir];
    ghost var ha, hb, hc, hd := Holds(pa, a), Holds(pb, b), Holds(pc, c), Holds(pd, d);
    r := Rotate2(p, dir);
    assert ha == Holds(pa, a) && hb == Holds(pb, b) && hc == Holds(pc, c) && hd == Holds(pd, d);
    HoldsDouble(dir, a, p, b, r, c, q, d);
  }

  lemma HoldsDouble(dir: Dir, a: Tree, p: Elem, b: Tree, r: Elem, c: Tree, q: Elem, d: Tree)
    requires r.kids[dir] == p && r.kids[1 - dir] == q
    requires Holds(p.kids[dir], a) && Holds(p.kids[1 - dir], b) && Holds(q.kids[dir], c) && Holds(q.kids[1 - dir], d)
    requires p.size == Count(a) + 1 + Count(b) && q.size == Count(c) + 1 + Count(d) && r.size == p.size + 1 + q.size
    requires p.balance == Lean(dir, Height(a), Height(b)) && q.balance == Lean(dir, Height(c), Height(d))
    requires r.balance == 0 && Max(Height(a), Height(b)) == Max(Height(c), Height(d))
    ensures Holds(r, Double(dir, a, p, b, r, c, q, d))
  {
    HoldsJoin(dir, a, p, b);
    HoldsJoin(dir, c, q, d);
    JoinParts(dir, a, p, b);
    JoinParts(dir, c, q, d);
    HoldsJoin(dir, Join(dir, a, p, b), r, Join(dir, c, q, d));
  }

  lemma HoldsSingle(dir: Dir, a: Tree, p: Elem, b: Tree, q: Elem, c: Tree)
    requires q.kids[dir] == p && Holds(p.kids[dir], a) && Holds(p.kids[1 - dir], b) && Holds(q.kids[1 - dir], c)
    requires p.size == Count(a) + 1 + Count(b) && q.size == p.size + 1 + Count(c)
    requires p.balance == Lean(dir, Height(a), Height(b))
    requires q.balance == Lean(dir, 1 + Max(Height(a), Height(b)), Height(c))
    ensures Holds(q, Single(dir, a, p, b, q, c))
  {
    HoldsJoin(dir, a, p, b);
    JoinParts(dir, a, p, b);
    HoldsJoin(dir, Join(dir, a, p, b), q, c);
  }

  lemma SingleMeasures(dir: Dir, a: Tree, p: Elem, b: Tree, q: Elem, c: Tree)
    requires Balanced(a) && Balanced(b) && Balanced(c)
    requires -1 <= Height(b) - Height(a) <= 1 && -1 <= Height(c) - Max(Height(a), Height(b)) - 1 <= 1
    ensures Balanced(Single(dir, a, p, b, q, c))
    ensures Height(Single(dir, a, p, b, q, c)) == 1 + Max(1 + Max(Height(a), Height(b)), Height(c))
  {
    JoinParts(dir, a, p, b);
    JoinParts(dir, Join(dir, a, p, b), q, c);
  }

  lemma DoubleMeasures(dir: Dir, a: Tree, p: Elem, b: Tree, r: Elem, c: Tree, q: Elem, d: Tree)
    requires Balanced(a) && Balanced(b) && Balanced(c) && Balanced(d)
    requires Height(a) == Height(d) == Max(Height(b), Height(c)) && -1 <= Height(b) - Height(c) <= 1
    ensures Balanced(Double(dir, a, p, b, r, c, q, d)) && Height(Double(dir, a, p, b, r, c, q, d)) == Height(a) + 2
  {
    JoinParts(dir, a, p, b);
    JoinParts(dir, c, q, d);
    JoinParts(dir, Join(dir, a, p, b), r, Join(dir, c, q, d));
  }

  /** A step and the subtree hanging below it, seen from the lighter side. */
  lemma FillIsJoin(f: Frame, t: Tree)
    ensures Fill(f, t) == Join(1 - f.dir, f.sib, f.n, t)
    ensures FillBalance(f, Height(t)) == Lean(1 - f.dir, Height(f.sib), Height(t))
  {
  }

  lemma IsJoin(dir: Dir, t: Tree)
    requires t.Fork?
    ensures t == Join(dir, SubTree(t, dir), t.n, SubTree(t, 1 - dir))
  {
  }

  /** What is known where a rotation is due after an insertion: shapes ... */
  lemma HeavyShape(f: Frame, heavy: Tree)
    requires Height(heavy) == Height(f.sib) + 2 && Balanced(heavy) && Distinct(Fill(f, heavy))
    ensures heavy.Fork?
    ensures var dir: Dir := 1 - f.dir;
            var a, q, inner, outer := f.sib, heavy.n, SubTree(heavy, dir), SubTree(heavy, 1 - dir);
            && heavy == Join(dir, inner, q, outer) && Fill(f, heavy) == Join(dir, a, f.n, heavy)
            && Distinct(Join(dir, a, f.n, Join(dir, inner, q, outer)))
            && Balanced(inner) && Balanced(outer)
            && Max(Height(inner), Height(outer)) == Height(a) + 1 && -1 <= Height(outer) - Height(inner) <= 1
            && Count(heavy) == Count(inner) + 1 + Count(outer)
            && Nodes(inner) + {f.n, q} <= Nodes(Fill(f, heavy))
  {
    hide Nodes, Distinct, Count, Balanced;
    var dir: Dir := 1 - f.dir;
    assert heavy.Fork?;
    FillIsJoin(f, heavy);
    IsJoin(dir, heavy);
    JoinParts(dir, SubTree(heavy, dir), heavy.n, SubTree(heavy, 1 - dir));
    JoinParts(dir, f.sib, f.n, heavy);
  }

  /** ... and fields. */
  lemma HeavyFields(p: Elem, f: Frame, heavy: Tree)
    requires p == f.n && FrameHolds(f, Root(heavy), Height(heavy), Count(heavy)) && Holds(Root(heavy), heavy)
    requires Height(heavy) == Height(f.sib) + 2 && heavy.Fork?
    ensures var dir: Dir := 1 - f.dir;
            var a, q, inner, outer := f.sib, heavy.n, SubTree(heavy, dir), SubTree(heavy, 1 - dir);
            && p.balance == Lean(dir, 0, 2)
            && p.kids[dir] == Root(a) && p.kids[1 - dir] == q && q.kids[dir] == Root(inner)
            && Holds(p.kids[dir], a) && Holds(q.kids[dir], inner) && Holds(q.kids[1 - dir], outer)
            && p.size == Count(a) + 1 + q.size && q.size == Count(inner) + 1 + Count(outer)
            && q.balance == Lean(dir, Height(inner), Height(outer))
  {
    var dir: Dir := 1 - f.dir;
    FillIsJoin(f, heavy);
    IsJoin(dir, heavy);
    HoldsJoin(dir, SubTree(heavy, dir), heavy.n, SubTree(heavy, 1 - dir));
  }

  lemma InnerFacts(dir: Dir, inner: Tree)
    requires Balanced(inner) && Height(inner) > 0
    ensures inner.Fork?
    ensures var b, c := SubTree(inner, dir), SubTree(inner, 1 - dir);
            && inner == Join(dir, b, inner.n, c) && inner.n in Nodes(inner)
            && Balanced(b) && Balanced(c)
            && Height(inner) == 1 + Max(Height(b), Height(c)) && -1 <= Height(b) - Height(c) <= 1
  {
  }

  /** One rotation at `bp`, whose subtree `heavy` has become two levels taller
      than its sibling: the height goes back to what it was before the insertion. */
  method Retilt(bp: Elem, ghost f: Frame, ghost heavy: Tree) returns (r: Elem, ghost t: Tree)
    requires bp == f.n && FrameHolds(f, Root(heavy), Height(heavy), Count(heavy)) && Holds(Root(heavy), heavy)
    requires Height(heavy) == Height(f.sib) + 2 && Balanced(heavy) && Balanced(f.sib)
    requires heavy.Fork? && Height(heavy.l) != Height(heavy.r)
    requires Distinct(Fill(f, heavy))
    modifies Nodes(Fill(f, heavy))
    ensures Holds(r, t) && Balanced(t) && Height(t) == Height(heavy)
    ensures InOrder(t) == InOrder(Fill(f, heavy))
  {
    hide Holds, Height, Count, Balanced, Distinct, Nodes, InOrder, Join, Single, Double, FrameHolds, Fill;
    HeavyShape(f, heavy);
    HeavyFields(bp, f, heavy);
    var which: Dir := if bp.balance < 0 then 1 else 0;
    var b1 := if which == 0 then 1 else -1;
    var q := bp.kids[1 - which];
    ghost var a, inner, outer := f.sib, SubTree(heavy, which), SubTree(heavy, 1 - which);
    if q.balance == b1 {
      DistinctSingle(which, a, bp, inner, q, outer);
      r := RotateSingle(bp, which, a, inner, outer);
      q.balance, bp.balance := 0, 0;
      t := Single(which, a, bp, inner, q, outer);
      HoldsSingle(which, a, bp, inner, q, outer);
      SingleMeasures(which, a, bp, inner, q, outer);
      SingleKeepsOrder(which, a, bp, inner, q, outer);
    } else {
      InnerFacts(which, inner);
      ghost var b, c := SubTree(inner, which), SubTree(inner, 1 - which);
      r := RotateDouble(bp, which, q, a, b, c, outer);
      t := Double(which, a, bp, b, r, c, q, outer);
      DoubleKeepsOrder(which, a, bp, b, r, c, q, outer);
      DoubleMeasures(which, a, bp, b, r, c, q, outer);
    }
  }

  ghost function InsertedAt(s: seq<Elem>, i: nat, x: Elem): seq<Elem>
    requires i <= |s|
  {
    s[..i] + [x] + s[i..]
  }

  /** Where the new element hangs. */
  lemma AttachFacts(root: Elem?, t: Tree, fs: seq<Frame>, x: Elem)
    requires Visiting(fs, null, Leaf) && Plug(fs, Leaf) == t && Valid(root, t) && x !in Nodes(t)
    ensures CtxNodes(fs) == Nodes(t) && |Before(fs)| <= |InOrder(t)|
    ensures InOrder(Plug(fs, Single1(x))) == InsertedAt(InOrder(t), |Before(fs)|, x)
    ensures CtxDistinct(fs) && CtxBalanced(fs, 0) && CtxHolds(fs, null, 0, 0)
    ensures forall i :: 0 <= i < |fs| ==> fs[i].n in Nodes(t)
  {
    PlugNodes(fs, Leaf);
    InOrderPlug(fs, Leaf);
    InOrderPlug(fs, Single1(x));
    assert InOrder(Single1(x)) == [x];
    var s, i := InOrder(t), |Before(fs)|;
    assert s[..i] == Before(fs) && s[i..] == After(fs);
    forall j | 0 <= j < |fs|
      ensures fs[j].n in Nodes(t)
    {
      assert fs[j].n in StepNodes(fs[j]);
    }
  }

  lemma DistinctInserted(t: Tree, i: nat, x: Elem, t': Tree)
    requires Distinct(t) && x !in Nodes(t) && i <= |InOrder(t)| && InOrder(t') == InsertedAt(InOrder(t), i, x)
    ensures Distinct(t')
  {
    DistinctIsNoRepeats(t);
    DistinctIsNoRepeats(t');
    InOrderFacts(t);
    NoRepeatsInsert(InOrder(t), i, x);
  }

  lemma NoRepeatsInsert<T>(s: seq<T>, i: nat, x: T)
    requires i <= |s| && NoRepeats(s) && x !in Members(s)
    ensures NoRepeats(s[..i] + [x] + s[i..])
  {
    var a, b := s[..i], s[i..];
    assert Members(a) !! Members(b) && x !in a && x !in b;
    NoRepeatsJoin(a, x, b);
  }

  lemma Relinked(fs: seq<Frame>, p: Elem?, x: Elem?, hh: nat, cc: nat)
    requires fs != [] && FrameHolds(fs[|fs| - 1], x, hh, cc)
    requires StepsHold(fs, 0, |fs| - 1, p, hh, cc)
    ensures CtxHolds(fs, x, hh, cc)
  {
    var k := |fs| - 1;
    forall i | 0 <= i < |fs|
      ensures StepHolds(fs, i, x, hh, cc)
    {
      assert i < k ==> StepHolds(fs, i, p, hh, cc);
    }
  }

  /** Hangs `x` instead of `p` below the last element of the path. */
  method Relink(q: Elem, which: Dir, x: Elem?, ghost fs: seq<Frame>, ghost p: Elem?, ghost hh: nat, ghost cc: nat)
    requires fs != [] && CtxDistinct(fs) && CtxHolds(fs, p, hh, cc)
    requires q == fs[|fs| - 1].n && which == fs[|fs| - 1].dir
    modifies q`kids
    ensures CtxHolds(fs, x, hh, cc)
  {
    ghost var k := |fs| - 1;
    CtxApart(fs, k);
    assert StepHolds(fs, k, p, hh, cc);
    q.kids := q.kids[which := x];
    Relinked(fs, p, x, hh, cc);
  }

  lemma SingleHolds(x: Elem)
    requires x.balance == 0 && x.size == 1 && x.kids == [null, null]
    ensures Holds(x, Single1(x)) && Balanced(Single1(x)) && Distinct(Single1(x)) && Nodes(Single1(x)) == {x}
  {
  }

  lemma EmptyPlug(fs: seq<Frame>, t: Tree)
    ensures fs == [] ==> Plug(fs, t) == t
  {
  }

  lemma TiltedTop(fs: seq<Frame>, b: nat)
    requires b < |fs| && CtxBalanced(fs, 0) && LastTilted(fs, b, 0)
    requires Tilt(fs, b, 1) < -1 || Tilt(fs, b, 1) > 1
    ensures b + 1 < |fs| && HeightAt(fs, b, 1) == HeightAt(fs, b, 0) + 1 == Height(fs[b].sib) + 2 && Balanced(fs[b].sib)
  {
    hide Balanced, Height;
    GrowHeights(fs, b, b);
    assert StepBalanced(fs, b, 0);
  }

  lemma TiltedShape(fs: seq<Frame>, b: nat, x: Elem)
    requires b < |fs| && CtxBalanced(fs, 0) && LastTilted(fs, b, 0)
    requires Tilt(fs, b, 1) < -1 || Tilt(fs, b, 1) > 1
    ensures b + 1 < |fs| && HeightAt(fs, b, 1) == HeightAt(fs, b, 0) + 1 == Height(fs[b].sib) + 2 && Balanced(fs[b].sib)
    ensures CtxBalanced(fs[b + 1..], 1) && Tilt(fs[b + 1..], 0, 1) != 0
  {
    hide Balanced, Height, HeightAt, Tilt, StepBalanced, LastTilted;
    var suf := fs[b + 1..];
    TiltedTop(fs, b);
    forall i | 0 <= i < |suf|
      ensures StepBalanced(suf, i, 1) && Tilt(suf, i, 1) != 0
    {
      TiltedBelow(fs, b, b + 1 + i);
    }
  }

  lemma TiltedBelow(fs: seq<Frame>, b: nat, j: nat)
    requires b < j < |fs| && CtxBalanced(fs, 0) && LastTilted(fs, b, 0)
    ensures StepBalanced(fs[b + 1..], j - b - 1, 1) && Tilt(fs[b + 1..], j - b - 1, 1) != 0
  {
    hide Height, Balanced, HeightAt;
    GrowHeights(fs, b, j);
    assert StepBalanced(fs, j, 0) && Tilt(fs, j, 0) == 0;
    HeightAtDrop(fs, b + 1, j, 1, 1);
  }

  lemma PlugLeans(fs: seq<Frame>, t: Tree)
    requires fs != [] && Tilt(fs, 0, Height(t)) != 0
    ensures Plug(fs, t).Fork? && Height(Plug(fs, t).l) != Height(Plug(fs, t).r)
  {
    PlugRoot(fs, t);
    if |fs| > 1 {
      PlugMeasures(fs[1..], t);
      HeightAtDrop(fs, 1, 1, Height(t), 0);
    } else {
      assert fs[1..] == [];
    }
  }

  /** What hangs below step `b` after the update of the balance factors. */
  lemma BelowTilted(fs: seq<Frame>, b: nat, x: Elem)
    requires b < |fs| && StepsHold(fs, b, |fs|, x, 1, 1) && Holds(x, Single1(x))
    requires CtxBalanced(fs, 0) && LastTilted(fs, b, 0) && (fs[b].n.balance < -1 || fs[b].n.balance > 1)
    ensures var heavy := Plug(fs[b + 1..], Single1(x));
            && Height(heavy) == HeightAt(fs, b, 1) == HeightAt(fs, b, 0) + 1
            && Count(heavy) == CountAt(fs, b, 1)
            && Height(heavy) == Height(fs[b].sib) + 2
            && Holds(Root(heavy), heavy) && Balanced(heavy) && Balanced(fs[b].sib)
            && heavy.Fork? && Height(heavy.l) != Height(heavy.r)
            && FrameHolds(fs[b], Root(heavy), Height(heavy), Count(heavy))
  {
    hide Height, Balanced, Holds, Plug, Count, CtxBalanced, CtxHolds, StepsHold;
    var one, suf := Single1(x), fs[b + 1..];
    assert StepHolds(fs, b, x, 1, 1) by {
      StepsAt(fs, b, |fs|, b, x, 1, 1);
    }
    TiltedShape(fs, b, x);
    SingleMeasured(x);
    StepsBelow(fs, b, b + 1, x, 1, 1);
    Assemble(suf, x, one);
    PlugMeasures(suf, one);
    HeightAtDrop(fs, b + 1, b + 1, 1, 1);
    PlugBalanced(suf, one);
    PlugRoot(suf, one);
    PlugLeans(suf, one);
    FillRoot(suf[0], Plug(suf[1..], one));
  }

  lemma FillRoot(f: Frame, t: Tree)
    ensures Root(Fill(f, t)) == f.n
  {
  }

  lemma SingleMeasured(x: Elem)
    ensures Height(Single1(x)) == 1 && Count(Single1(x)) == 1 && Balanced(Single1(x))
  {
  }

  lemma StepsAt(fs: seq<Frame>, from: nat, to: nat, i: nat, p: Elem?, hh: nat, cc: nat)
    requires to <= |fs| && from <= i < to && StepsHold(fs, from, to, p, hh, cc)
    ensures StepHolds(fs, i, p, hh, cc)
  {
  }

  /** The top of a plugged tree is the first step of the path. */
  lemma {:induction false} PlugRoot(fs: seq<Frame>, t: Tree)
    requires fs != []
    ensures Plug(fs, t) == Fill(fs[0], Plug(fs[1..], t))
  {
    var k := |fs| - 1;
    if k > 0 {
      PlugRoot(fs[..k], Fill(fs[k], t));
      assert fs[..k][1..] == fs[1..][..k - 1];
    }
  }

  lemma {:induction false} PlugSplit(fs: seq<Frame>, b: nat, t: Tree)
    requires b <= |fs|
    ensures Plug(fs, t) == Plug(fs[..b], Plug(fs[b..], t))
    decreases |fs| - b
  {
    if b < |fs| {
      PlugSplit(fs, b + 1, t);
      PlugRoot(fs[b..], t);
      assert fs[b..][1..] == fs[b + 1..];
      assert fs[..b + 1][..b] == fs[..b];
    } else {
      assert fs[..b] == fs;
    }
  }

  lemma {:induction false} PlugDistinct(fs: seq<Frame>, t: Tree)
    requires Distinct(Plug(fs, t))
    ensures CtxDistinct(fs) && Distinct(t) && CtxNodes(fs) !! Nodes(t)
  {
    if fs != [] {
      var k := |fs| - 1;
      PlugDistinct(fs[..k], Fill(fs[k], t));
      DescendShape(fs[..k], Fill(fs[k], t), fs[k], t);
      assert fs[..k] + [fs[k]] == fs;
    }
  }

  /** The path above step `b`, and the tree hanging there. */
  lemma SplitAt(fs: seq<Frame>, b: nat, t: Tree)
    requires b < |fs|
    ensures var pre, up := fs[..b], Fill(fs[b], Plug(fs[b + 1..], t));
            && Plug(fs, t) == Plug(pre, up)
            && Nodes(up) <= Nodes(Plug(fs, t)) == CtxNodes(fs) + Nodes(t)
            && (Distinct(Plug(fs, t)) ==> Distinct(up) && CtxDistinct(pre) && CtxNodes(pre) !! Nodes(up))
            && InOrder(Plug(fs, t)) == Before(pre) + InOrder(up) + After(pre)
  {
    hide Distinct, Nodes, CtxDistinct, CtxNodes, InOrder, Before, After;
    var pre, up := fs[..b], Fill(fs[b], Plug(fs[b + 1..], t));
    PlugSplit(fs, b, t);
    PlugRoot(fs[b..], t);
    assert fs[b..][1..] == fs[b + 1..];
    PlugNodes(fs, t);
    PlugNodes(pre, up);
    InOrderPlug(pre, up);
    if Distinct(Plug(fs, t)) {
      PlugDistinct(pre, up);
    }
  }

  lemma BalancedAbove(fs: seq<Frame>, b: nat, hh: nat)
    requires b < |fs| && CtxBalanced(fs, hh)
    ensures CtxBalanced(fs[..b], FillHeight(fs[b], HeightAt(fs, b, hh)))
  {
    hide Balanced, Height;
    var pre, up := fs[..b], FillHeight(fs[b], HeightAt(fs, b, hh));
    forall i | 0 <= i < b
      ensures StepBalanced(pre, i, up)
    {
      assert StepBalanced(fs, i, hh);
      HeightAtTake(fs, b, i, hh, 0);
    }
  }

  /** Which of its two child pointers leads `q` on along the path. */
  lemma LinkSide(fs: seq<Frame>, p: Elem, t: Tree, hh: nat, cc: nat)
    requires fs != [] && CtxHolds(fs, p, hh, cc) && CtxNodes(fs) !! Nodes(t) && p in Nodes(t)
    ensures var f := fs[|fs| - 1]; f.dir == if p != f.n.kids[0] then 1 else 0
  {
    var k := |fs| - 1;
    var f := fs[k];
    assert StepHolds(fs, k, p, hh, cc);
    assert StepNodes(f) <= CtxNodes(fs);
    assert f.dir == 1 ==> f.n.kids[0] == Root(f.sib);
  }

  lemma {:induction false} PlugUnbalanced(fs: seq<Frame>, t: Tree)
    requires Balanced(Plug(fs, t))
    ensures Balanced(t) && CtxBalanced(fs, Height(t))
  {
    hide Height, CtxBalanced, Balanced;
    if fs != [] {
      var k := |fs| - 1;
      PlugUnbalanced(fs[..k], Fill(fs[k], t));
      FillMeasures(fs[k], t);
      CtxBalancedInit(fs, Height(t));
      LastBalanced(fs, Height(t));
    } else {
      NoSteps(fs, Height(t));
    }
  }

  lemma LastBalanced(fs: seq<Frame>, hh: nat)
    requires fs != []
    ensures StepBalanced(fs, |fs| - 1, hh) <==> Balanced(fs[|fs| - 1].sib) && -1 <= hh - Height(fs[|fs| - 1].sib) <= 1
  {
  }

  lemma NoSteps(fs: seq<Frame>, hh: nat)
    ensures fs == [] ==> CtxBalanced(fs, hh)
  {
  }

  lemma BalancedStep(fs: seq<Frame>, t: Tree, b: nat)
    requires b < |fs| && Balanced(Plug(fs, t))
    ensures StepBalanced(fs, b, Height(t))
  {
    hide Plug, Height, Balanced, HeightAt;
    PlugUnbalanced(fs, t);
  }

  lemma TiltedUnbalanced(fs: seq<Frame>, b: nat, x: Elem)
    requires b < |fs| && StepsHold(fs, b, |fs|, x, 1, 1) && (fs[b].n.balance < -1 || fs[b].n.balance > 1)
    ensures !Balanced(Plug(fs, Single1(x)))
  {
    hide Holds, Plug, Height, Balanced, HeightAt, CountAt;
    assert StepHolds(fs, b, x, 1, 1);
    SingleMeasured(x);
    if Balanced(Plug(fs, Single1(x))) {
      BalancedStep(fs, Single1(x), b);
    }
  }

  /** Rotates at step `b` of the path and hangs the result where `bp` hung. */
  method Rebalance(root: Elem?, bp: Elem, bq: Elem?, x: Elem, ghost fs: seq<Frame>, ghost b: nat)
    returns (root': Elem?, ghost t': Tree)
    requires b < |fs| && bp == fs[b].n && bq == (if b > 0 then fs[b - 1].n else null) && root == fs[0].n
    requires StepsHold(fs, 0, b, x, 0, 1) && StepsHold(fs, b, |fs|, x, 1, 1) && Holds(x, Single1(x))
    requires CtxBalanced(fs, 0) && LastTilted(fs, b, 0) && (bp.balance < -1 || bp.balance > 1)
    requires Distinct(Plug(fs, Single1(x)))
    modifies CtxNodes(fs), x
    ensures Holds(root', t') && Balanced(t') && !Balanced(Plug(fs, Single1(x)))
    ensures InOrder(t') == InOrder(Plug(fs, Single1(x)))
  {
    hide Holds, Plug, Balanced, Distinct, CtxHolds, CtxBalanced, CtxDistinct, CtxNodes, HeightAt, LastTilted,
      InOrder, Nodes, Height, Count, StepsHold, FrameHolds, Before, After;
    ghost var one := Single1(x);
    ghost var heavy, pre := Plug(fs[b + 1..], one), fs[..b];
    ghost var up, cc := Fill(fs[b], heavy), CountAt(fs, b, 1) + 1 + Count(fs[b].sib);
    SingleHoldsNodes(x);
    TiltedUnbalanced(fs, b, x);
    BelowTilted(fs, b, x);
    SplitAt(fs, b, one);
    StepsAbove(fs, b, x, 0, 1, Height(heavy), bp);
    BalancedAbove(fs, b, 0);
    FillMeasures(fs[b], heavy);
    FillContains(fs[b], heavy);
    NodesAllocated(Plug(fs, one));
    CtxAllocated(pre);
    ghost var linked := CtxHolds(pre, bp, Height(heavy), cc);
    var r, t := Retilt(bp, fs[b], heavy);
    assert linked == CtxHolds(pre, bp, Height(heavy), cc);
    SameCount(t, up);
    InOrderPlug(pre, t);
    PlugBalanced(pre, t);
    if bq == null {
      root', t' := r, t;
      EmptyPlug(pre, t);
    } else {
      root' := root;
      LinkSide(pre, bp, up, Height(heavy), cc);
      NodesAllocated(t);
      RootsApart(t, up, pre);
      ghost var kept := Holds(r, t);
      var side: Dir := if bp != bq.kids[0] then 1 else 0;
      CtxMember(fs, b - 1);
      Relink(bq, side, r, pre, bp, Height(heavy), cc);
      assert kept == Holds(r, t);
      t' := Plug(pre, t);
      Assemble(pre, r, t);
    }
  }

  lemma SingleHoldsNodes(x: Elem)
    ensures Nodes(Single1(x)) == {x}
  {
  }

  lemma FillContains(f: Frame, t: Tree)
    ensures f.n in Nodes(Fill(f, t))
  {
  }

  lemma CtxMember(fs: seq<Frame>, i: nat)
    requires i < |fs|
    ensures fs[i].n in CtxNodes(fs)
  {
    assert fs[i].n in StepNodes(fs[i]);
  }

  lemma CtxAllocated(fs: seq<Frame>)
    ensures forall o: Elem :: o in CtxNodes(fs) ==> allocated(o)
  {
    forall i | 0 <= i < |fs|
      ensures forall o: Elem :: o in StepNodes(fs[i]) ==> allocated(o)
    {
      NodesAllocated(fs[i].sib);
    }
  }

  lemma SameCount(t: Tree, u: Tree)
    requires InOrder(t) == InOrder(u)
    ensures Count(t) == Count(u) && Nodes(t) == Nodes(u)
  {
    InOrderFacts(t);
    InOrderFacts(u);
  }

  lemma RootsApart(t: Tree, u: Tree, fs: seq<Frame>)
    requires Nodes(t) == Nodes(u) && CtxNodes(fs) !! Nodes(u)
    ensures fs != [] ==> fs[|fs| - 1].n !in Nodes(t)
  {
    if fs != [] {
      assert StepNodes(fs[|fs| - 1]) <= CtxNodes(fs);
    }
  }

  /** Insertion. An equal element is returned and nothing changes; otherwise
      `x` goes into the place where the search ended, and the tree is an AVL
      tree again with every size and balance factor exact. */
  method Insert(root: Elem?, x: Elem, cmp: Comparator, ghost t: Tree)
    returns (root': Elem?, r: Elem, cnt: nat, ghost t': Tree)
    requires Valid(root, t) && x !in Nodes(t) && Count(t) + 1 < SIZE_LIMIT
    modifies Nodes(t), x
    ensures Valid(root', t')
    ensures match Locate(cmp, x.key, t)
            case Found(i) => i < |InOrder(t)| && r == InOrder(t)[i] && cnt == i + 1 && root' == root && t' == t
            case Absent(i) =>
              && r == x && cnt == i <= |InOrder(t)| && InOrder(t') == InsertedAt(InOrder(t), i, x)
              && var plain := Graft(cmp, x.key, Single1(x), t);
              Balanced(plain) ==> t' == plain
  {
    hide Holds, Plug, Balanced, Distinct, CtxHolds, CtxBalanced, CtxDistinct, CtxNodes, HeightAt, Before, LastTilted,
      InOrder, Nodes, NoRepeats, Graft, Locate;
    root', t' := root, t;
    ValidVisiting(root, t);
    NodesAllocated(t);
    var path, stack, hit, bp, bq, q, which, pathLen, c, fs, b := SearchPlace(root, x.key, cmp, t);
    cnt := c;
    if hit != null {
      return root', hit, cnt, t';
    }
    r := x;
    AttachFacts(root, t, fs, x);
    DistinctInserted(t, cnt, x, Plug(fs, Single1(x)));
    GraftAlong(cmp, x.key, Single1(x), fs, Leaf);
    GraftLeaf(cmp, x.key, Single1(x));
    x.balance, x.size, x.kids := 0, 1, [null, null];
    SingleHolds(x);
    if q == null {
      root', t' := x, Single1(x);
      EmptyPlug(fs, Single1(x));
      return;
    }
    Relink(q, which, x, fs, null, 0, 0);
    AddToSizes(path, 0, pathLen, 1, fs, x, 0, 0);
    TiltTowards(bp, x, stack, fs, b, 1);
    assert fs != [] && b < |fs| && bp == fs[b].n;
    if -2 < bp.balance < 2 {
      t' := Plug(fs, Single1(x));
      InsertFlat(fs, b, x);
      return;
    }
    root', t' := Rebalance(root, bp, bq, x, fs, b);
    DistinctInserted(t, cnt, x, t');
  }
}
