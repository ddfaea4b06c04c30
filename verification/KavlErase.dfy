/** Removal from the intrusive AVL tree. */
module KavlErase {
  import opened Elements
  import opened AvlTrees
  import opened Kavl

  /** The fields along `fs` are those of a tree one level taller than `cur`,
      which now hangs at the end; all sizes are right already. */
  ghost predicate Sagging(fs: seq<Frame>, p: Elem?, cur: Tree)
    reads CtxNodes(fs), Nodes(cur)
  {
    && Holds(p, cur) && CtxHolds(fs, p, Height(cur) + 1, Count(cur))
    && CtxDistinct(fs) && Distinct(cur) && CtxNodes(fs) !! Nodes(cur)
    && Balanced(cur) && CtxBalanced(fs, Height(cur) + 1)
  }

  /** The direction array holds the sides taken, from index 1 on; index 0 is
      the placeholder above the root, whose left child is the root. */
  ghost predicate Sides(dir: seq<Dir>, fs: seq<Frame>) {
    && 1 + |fs| <= |dir| && dir[0] == 0
    && forall j :: 0 <= j < |fs| ==> dir[1 + j] == fs[j].dir
  }

  ghost predicate Paths(path: seq<Elem?>, fake: Elem, fs: seq<Frame>) {
    Recorded(path, 1, fs) && 0 < |path| && path[0] == fake
  }

  ghost function Last(fs: seq<Frame>, fake: Elem): Elem {
    if fs == [] then fake else fs[|fs| - 1].n
  }

  lemma LastRecorded(path: seq<Elem?>, dir: seq<Dir>, fake: Elem, fs: seq<Frame>)
    requires Paths(path, fake, fs) && Sides(dir, fs)
    ensures |fs| < |path| && |fs| < |dir|
    ensures path[|fs|] == Last(fs, fake) && dir[|fs|] == if fs == [] then 0 else fs[|fs| - 1].dir
    ensures fs != [] ==> Last(fs, fake) in CtxNodes(fs)
  {
    if fs != [] {
      assert path[1 + (|fs| - 1)] == fs[|fs| - 1].n;
      assert dir[1 + (|fs| - 1)] == fs[|fs| - 1].dir;
      CtxMember(fs, |fs| - 1);
    }
  }

  /** Hangs `r` where `p` hangs, below the last element of the path. */
  method Hook(q: Elem, side: Dir, r: Elem?, fake: Elem, ghost fs: seq<Frame>, ghost p: Elem?, ghost hh: nat,
              ghost cc: nat)
    requires q == Last(fs, fake) && side == if fs == [] then 0 else fs[|fs| - 1].dir
    requires CtxDistinct(fs) && CtxHolds(fs, p, hh, cc)
    requires fake !in CtxNodes(fs) && fake.kids[0] == Top(fs, p)
    modifies q`kids
    ensures CtxHolds(fs, r, hh, cc) && fake.kids[0] == Top(fs, r)
  {
    ghost var k := |fs| - 1;
    if fs != [] {
      CtxMember(fs, k);
      CtxApart(fs, k);
      assert StepHolds(fs, k, p, hh, cc);
    }
    q.kids := q.kids[side := r];
    if fs != [] {
      Relinked(fs, p, r, hh, cc);
    }
  }

  // ---------- Going back up ----------

  /** The balance factor of the last element, put right for the lost level. */
  lemma Settle(fs: seq<Frame>, p: Elem?, cur: Tree)
    requires fs != [] && Sagging(fs, p, cur)
    ensures var f := fs[|fs| - 1]; var rest := fs[..|fs| - 1];
            && FrameHolds(f, p, Height(cur) + 1, Count(cur))
            && CtxHolds(rest, f.n, FillHeight(f, Height(cur) + 1), Count(cur) + 1 + Count(f.sib))
            && CtxBalanced(rest, FillHeight(f, Height(cur) + 1))
            && CtxDistinct(rest) && Distinct(Fill(f, cur)) && CtxNodes(rest) !! Nodes(Fill(f, cur))
            && Balanced(f.sib) && -1 <= Height(cur) + 1 - Height(f.sib) <= 1
            && CtxNodes(fs) == CtxNodes(rest) + StepNodes(f)
            && Top(rest, f.n) == Top(fs, p)
            && Plug(fs, cur) == Plug(rest, Fill(f, cur))
  {
    hide Holds, Height, Count, Balanced, Distinct, Nodes, CtxHolds, CtxDistinct, CtxBalanced, CtxNodes, FrameHolds,
      FillHeight;
    var k := |fs| - 1;
    var f, rest := fs[k], fs[..k];
    CtxHoldsInit(fs, p, Height(cur) + 1, Count(cur));
    CtxBalancedInit(fs, Height(cur) + 1);
    assert HeightAt(fs, k, Height(cur) + 1) == Height(cur) + 1;
    DistinctInit(fs, cur);
  }

  lemma DistinctInit(fs: seq<Frame>, t: Tree)
    requires fs != [] && CtxDistinct(fs) && Distinct(t) && CtxNodes(fs) !! Nodes(t)
    ensures var f := fs[|fs| - 1]; var rest := fs[..|fs| - 1];
            && CtxDistinct(rest) && Distinct(Fill(f, t)) && CtxNodes(rest) !! Nodes(Fill(f, t))
            && CtxNodes(fs) == CtxNodes(rest) + StepNodes(f)
  {
    var k := |fs| - 1;
    var f, rest := fs[k], fs[..k];
    assert rest + [f] == fs;
    CtxNodesSnoc(rest, f);
    assert StepApart(fs, k, k);
    assert f.n in StepNodes(f) && Nodes(f.sib) <= StepNodes(f);
    forall i, j | 0 <= i < k && 0 <= j < k
      ensures StepApart(rest, i, j)
    {
      assert StepApart(fs, i, j);
    }
    forall i | 0 <= i < k
      ensures StepNodes(rest[i]) !! StepNodes(f)
    {
      assert StepApart(fs, i, k) && StepApart(fs, k, i);
    }
    assert Nodes(Fill(f, t)) == Nodes(t) + StepNodes(f);
  }

  /** A step seen from the side of its path. */
  lemma FillIsJoinNear(f: Frame, t: Tree)
    ensures Fill(f, t) == Join(f.dir, t, f.n, f.sib)
    ensures forall hh: nat :: FillBalance(f, hh) == Lean(f.dir, hh, Height(f.sib))
  {
  }

  /** What is known about a step whose subtree `cur` has lost a level. */
  lemma StepFacts(q: Elem, p: Elem?, f: Frame, cur: Tree)
    requires q == f.n && Holds(p, cur) && FrameHolds(f, p, Height(cur) + 1, Count(cur))
    requires Distinct(Fill(f, cur))
    ensures var dir, o := f.dir, 1 - f.dir;
            && q.kids[dir] == p && Holds(q.kids[dir], cur) && Holds(q.kids[o], f.sib)
            && q.balance == Lean(dir, Height(cur) + 1, Height(f.sib))
            && q.size == Count(cur) + 1 + Count(f.sib)
            && Fill(f, cur) == Join(dir, cur, q, f.sib)
            && q in Nodes(Fill(f, cur)) && Nodes(f.sib) <= Nodes(Fill(f, cur))
            && q !in Nodes(cur) && q !in Nodes(f.sib) && q.kids[o] == Root(f.sib)
  {
    hide Height, Count;
    FillIsJoinNear(f, cur);
  }

  /** The sibling, two levels taller than `cur`. */
  lemma SiblingFacts(r: Elem?, dir: Dir, sib: Tree)
    requires Holds(r, sib) && Balanced(sib) && Height(sib) >= 2
    ensures sib.Fork? && r == sib.n
    ensures var inner, outer := SubTree(sib, dir), SubTree(sib, 1 - dir);
            && sib == Join(dir, inner, r, outer)
            && Holds(r.kids[dir], inner) && Holds(r.kids[1 - dir], outer) && r.kids[dir] == Root(inner)
            && r.size == Count(sib) == Count(inner) + 1 + Count(outer)
            && r.balance == Lean(dir, Height(inner), Height(outer))
            && Balanced(inner) && Balanced(outer) && -1 <= Height(outer) - Height(inner) <= 1
            && Height(sib) == 1 + Max(Height(inner), Height(outer))
            && r in Nodes(sib) && Nodes(inner) <= Nodes(sib)
  {
    assert sib.Fork?;
    IsJoin(dir, sib);
    HoldsJoin(dir, SubTree(sib, dir), sib.n, SubTree(sib, 1 - dir));
  }

  /** The single rotation of the way back up. */
  method SingleBack(q: Elem, r: Elem, which: Dir, b1: int, ghost a: Tree, ghost b: Tree, ghost c: Tree)
    returns (stop: bool)
    requires b1 == Lean(which, 0, 1) && q.kids[1 - which] == r
    requires Distinct(Join(which, a, q, Join(which, b, r, c)))
    requires Holds(q.kids[which], a) && Holds(r, Join(which, b, r, c))
    requires q.size == Count(a) + 1 + Count(b) + 1 + Count(c)
    requires r.balance == Lean(which, Height(b), Height(c)) && Height(c) == Height(a) + 1
    requires 0 <= Height(c) - Height(b) <= 1
    modifies q, r
    ensures Holds(r, Single(which, a, q, b, r, c))
    ensures stop <==> Height(b) == Height(c)
  {
    hide Holds, Height, Count, Balanced, Distinct, Nodes, InOrder, Join, Single;
    DistinctSingle(which, a, q, b, r, c);
    var top := RotateSingle(q, which, a, b, c);
    stop := top.balance == 0;
    if stop {
      top.balance := -b1;
      q.balance := b1;
    } else {
      top.balance, q.balance := 0, 0;
    }
    HoldsSingle(which, a, q, b, r, c);
  }

  /** The rotation at `q` when its child on side `1 - which` is two levels too
      tall; `stop` says that no level is lost. */
  method RotateBack(q: Elem, which: Dir, b1: int, ghost cur: Tree, ghost sib: Tree)
    returns (r: Elem, stop: bool, ghost t: Tree)
    requires b1 == Lean(which, 0, 1) && q.balance == Lean(which, 0, 2)
    requires Holds(q.kids[which], cur) && Holds(q.kids[1 - which], sib) && q.size == Count(cur) + 1 + Count(sib)
    requires Balanced(cur) && Balanced(sib) && Height(sib) == Height(cur) + 2
    requires Distinct(Join(which, cur, q, sib))
    modifies {q} + Nodes(sib)
    ensures Holds(r, t) && Balanced(t) && InOrder(t) == InOrder(Join(which, cur, q, sib))
    ensures Height(t) == Height(sib) + if stop then 1 else 0
  {
    hide Holds, Height, Count, Balanced, Distinct, Nodes, InOrder, Join, Single, Double;
    SiblingFacts(q.kids[1 - which], which, sib);
    r, stop := q.kids[1 - which], false;
    ghost var inner, outer := SubTree(sib, which), SubTree(sib, 1 - which);
    if r.balance == -b1 {
      InnerFacts(which, inner);
      ghost var b, c := SubTree(inner, which), SubTree(inner, 1 - which);
      r := RotateDouble(q, which, r, cur, b, c, outer);
      t := Double(which, cur, q, b, r, c, sib.n, outer);
      DoubleKeepsOrder(which, cur, q, b, r, c, sib.n, outer);
      DoubleMeasures(which, cur, q, b, r, c, sib.n, outer);
    } else {
      stop := SingleBack(q, r, which, b1, cur, inner, outer);
      t := Single(which, cur, q, inner, r, outer);
      SingleMeasures(which, cur, q, inner, r, outer);
      SingleKeepsOrder(which, cur, q, inner, r, outer);
    }
  }

  /** One turn of the way back up: the balance factor of `q` is put right and,
      where its subtree is out of balance, rotated. `stop` says that the
      subtree is as tall as it was before the removal. */
  method Lift(q: Elem, which: Dir, ghost p: Elem?, ghost f: Frame, ghost cur: Tree)
    returns (r: Elem, rotated: bool, stop: bool, ghost t: Tree)
    requires q == f.n && which == f.dir && Holds(p, cur) && FrameHolds(f, p, Height(cur) + 1, Count(cur))
    requires Balanced(cur) && Balanced(f.sib) && -1 <= Height(cur) + 1 - Height(f.sib) <= 1
    requires Distinct(Fill(f, cur))
    modifies Nodes(Fill(f, cur))
    ensures Holds(r, t) && Balanced(t) && InOrder(t) == InOrder(Fill(f, cur))
    ensures Height(t) == Max(Height(cur) + 1, Height(f.sib)) + if stop then 1 else 0
    ensures !rotated ==> r == q
  {
    hide Holds, Height, Count, Balanced, Distinct, Nodes, InOrder, Join, Single, Double, FrameHolds, Fill;
    StepFacts(q, p, f, cur);
    ghost var sib := f.sib;
    var b1, b2 := if which == 1 then -1 else 1, if which == 1 then -2 else 2;
    q.balance := q.balance + b1;
    if q.balance == b2 {
      rotated := true;
      r, stop, t := RotateBack(q, which, b1, cur, sib);
    } else {
      r, rotated, stop, t := q, false, q.balance == b1, Join(which, cur, q, sib);
      HoldsJoin(which, cur, q, sib);
      JoinParts(which, cur, q, sib);
    }
  }

  lemma PlugSameOrder(fs: seq<Frame>, t: Tree, u: Tree)
    requires InOrder(t) == InOrder(u)
    ensures InOrder(Plug(fs, t)) == InOrder(Plug(fs, u))
  {
    InOrderPlug(fs, t);
    InOrderPlug(fs, u);
  }

  lemma FillParts(f: Frame, t: Tree)
    ensures Nodes(Fill(f, t)) == Nodes(t) + StepNodes(f)
    ensures Height(Fill(f, t)) == 1 + Max(Height(t), Height(f.sib)) == FillHeight(f, Height(t))
    ensures Count(Fill(f, t)) == Count(t) + 1 + Count(f.sib)
  {
  }

  lemma PathsInit(path: seq<Elem?>, dir: seq<Dir>, fake: Elem, fs: seq<Frame>)
    requires fs != [] && Paths(path, fake, fs) && Sides(dir, fs)
    ensures Paths(path, fake, fs[..|fs| - 1]) && Sides(dir, fs[..|fs| - 1])
  {
    var rest := fs[..|fs| - 1];
    assert forall i :: 0 <= i < |rest| ==> rest[i] == fs[i];
  }

  /** One turn of the loop: lift, and hang the rotated subtree where the old one hung. */
  method LiftAndHook(path: seq<Elem?>, dir: seq<Dir>, d: nat, fake: Elem, ghost fs: seq<Frame>, ghost p: Elem?,
                     ghost cur: Tree)
    returns (r: Elem, stop: bool, ghost t: Tree)
    requires 0 < d == |fs| && Paths(path, fake, fs) && Sides(dir, fs)
    requires Sagging(fs, p, cur) && fake !in CtxNodes(fs) && fake !in Nodes(cur) && fake.kids[0] == Top(fs, p)
    modifies CtxNodes(fs), Nodes(cur), fake
    ensures var f, rest := fs[d - 1], fs[..d - 1];
            && Holds(r, t) && Balanced(t) && fake.kids[0] == Top(rest, r)
            && InOrder(t) == InOrder(Fill(f, cur))
            && CtxHolds(rest, r, Height(t) + if stop then 0 else 1, Count(t))
            && CtxBalanced(rest, Height(t) + if stop then 0 else 1)
            && Nodes(t) == Nodes(cur) + StepNodes(f) && CtxNodes(fs) == CtxNodes(rest) + StepNodes(f)
            && CtxDistinct(rest) && CtxNodes(rest) !! Nodes(t) && Distinct(t)
            && Plug(fs, cur) == Plug(rest, Fill(f, cur))
  {
    hide Holds, Height, Count, Balanced, Distinct, Nodes, InOrder, CtxHolds, CtxDistinct, CtxBalanced, CtxNodes,
      Fill, Plug, FrameHolds, Paths, Sides, StepNodes, NoRepeats;
    ghost var f, rest := fs[d - 1], fs[..d - 1];
    LastRecorded(path, dir, fake, fs);
    PathsInit(path, dir, fake, fs);
    LastRecorded(path, dir, fake, rest);
    Settle(fs, p, cur);
    FillParts(f, cur);
    CtxAllocated(rest);
    ghost var hh, cc := FillHeight(f, Height(cur) + 1), Count(cur) + 1 + Count(f.sib);
    ghost var linked := CtxHolds(rest, f.n, hh, cc);
    var q := path[d];
    var rotated;
    r, rotated, stop, t := Lift(q, dir[d], p, f, cur);
    assert linked == CtxHolds(rest, f.n, hh, cc);
    SameCount(t, Fill(f, cur));
    SameDistinct(t, Fill(f, cur));
    if rotated {
      NodesAllocated(t);
      ghost var kept := Holds(r, t);
      RootsApart(t, t, rest);
      Hook(path[d - 1], dir[d - 1], r, fake, rest, q, hh, cc);
      assert kept == Holds(r, t);
    }
  }

  lemma SameDistinct(t: Tree, u: Tree)
    requires InOrder(t) == InOrder(u)
    ensures Distinct(t) == Distinct(u)
  {
    DistinctIsNoRepeats(t);
    DistinctIsNoRepeats(u);
  }

  /** The way back up, to the root or to the first subtree that kept its height. */
  method Climb(path: seq<Elem?>, dir: seq<Dir>, d0: nat, fake: Elem, ghost fs0: seq<Frame>, ghost p0: Elem?,
               ghost cur0: Tree)
    returns (ghost t: Tree)
    requires d0 == 1 + |fs0| && Paths(path, fake, fs0) && Sides(dir, fs0)
    requires Sagging(fs0, p0, cur0) && fake !in CtxNodes(fs0) && fake !in Nodes(cur0) && fake.kids[0] == Top(fs0, p0)
    modifies CtxNodes(fs0), Nodes(cur0), fake
    ensures Holds(fake.kids[0], t) && Balanced(t) && InOrder(t) == InOrder(Plug(fs0, cur0))
  {
    hide Holds, Height, Count, Balanced, Distinct, Nodes, InOrder, CtxHolds, CtxDistinct, CtxBalanced, CtxNodes,
      Fill, Plug, FrameHolds, Paths, Sides, StepNodes, NoRepeats;
    var d := d0 - 1;
    ghost var fs, p, cur := fs0, p0, cur0;
    while d > 0
      invariant d == |fs| && Paths(path, fake, fs) && Sides(dir, fs)
      invariant Sagging(fs, p, cur) && fake !in CtxNodes(fs) && fake !in Nodes(cur) && fake.kids[0] == Top(fs, p)
      invariant CtxNodes(fs) + Nodes(cur) == CtxNodes(fs0) + Nodes(cur0)
      invariant InOrder(Plug(fs, cur)) == InOrder(Plug(fs0, cur0))
    {
      PathsInit(path, dir, fake, fs);
      var r, stop, sub := LiftAndHook(path, dir, d, fake, fs, p, cur);
      ghost var rest := fs[..d - 1];
      PlugSameOrder(rest, sub, Fill(fs[d - 1], cur));
      if stop {
        t := Plug(rest, sub);
        Assemble(rest, r, sub);
        PlugBalanced(rest, sub);
        return;
      }
      fs, p, cur, d := rest, r, sub, d - 1;
    }
    t := cur;
    EmptyPlug(fs, cur);
  }

  // ---------- Taking the element out ----------

  ghost function PathHeight(fs: seq<Frame>, hh: nat): nat {
    if fs == [] then hh else FillHeight(fs[0], HeightAt(fs, 0, hh))
  }

  ghost function PathCount(fs: seq<Frame>, cc: nat): nat {
    if fs == [] then cc else CountAt(fs, 0, cc) + 1 + Count(fs[0].sib)
  }

  lemma MeasuresConcat(a: seq<Frame>, b: seq<Frame>, i: nat, hh: nat, cc: nat)
    requires i < |a + b|
    ensures HeightAt(a + b, i, hh) == if i < |a| then HeightAt(a, i, PathHeight(b, hh)) else HeightAt(b, i - |a|, hh)
    ensures CountAt(a + b, i, cc) == if i < |a| then CountAt(a, i, PathCount(b, cc)) else CountAt(b, i - |a|, cc)
  {
    hide Height, Count;
    var s := a + b;
    if i >= |a| {
      HeightAtDrop(s, |a|, i, hh, cc);
      assert s[|a|..] == b;
    } else if b == [] {
      assert s == a;
    } else {
      HeightAtTake(s, |a|, i, hh, cc);
      HeightAtDrop(s, |a|, |a|, hh, cc);
      assert s[..|a|] == a && s[|a|..] == b && s[|a|] == b[0];
    }
  }

  lemma CtxConcat(a: seq<Frame>, b: seq<Frame>, p: Elem?, hh: nat, cc: nat)
    requires CtxHolds(a, Top(b, p), PathHeight(b, hh), PathCount(b, cc)) && CtxHolds(b, p, hh, cc)
    ensures CtxHolds(a + b, p, hh, cc)
  {
    hide Height, Count, Holds, HeightAt, CountAt, PathHeight, PathCount;
    var s := a + b;
    forall i | 0 <= i < |s|
      ensures StepHolds(s, i, p, hh, cc)
    {
      MeasuresConcat(a, b, i, hh, cc);
      if i < |a| {
        assert StepHolds(a, i, Top(b, p), PathHeight(b, hh), PathCount(b, cc));
        assert s[i] == a[i] && Below(s, i, p) == Below(a, i, Top(b, p));
      } else {
        assert StepHolds(b, i - |a|, p, hh, cc);
        assert s[i] == b[i - |a|] && Below(s, i, p) == Below(b, i - |a|, p);
      }
    }
  }

  lemma BalancedConcat(a: seq<Frame>, b: seq<Frame>, hh: nat)
    requires CtxBalanced(a, PathHeight(b, hh)) && CtxBalanced(b, hh)
    ensures CtxBalanced(a + b, hh)
  {
    hide Height, Balanced, HeightAt, PathHeight;
    var s := a + b;
    forall i | 0 <= i < |s|
      ensures StepBalanced(s, i, hh)
    {
      MeasuresConcat(a, b, i, hh, 0);
      if i < |a| {
        assert StepBalanced(a, i, PathHeight(b, hh)) && s[i] == a[i];
      } else {
        assert StepBalanced(b, i - |a|, hh) && s[i] == b[i - |a|];
      }
    }
  }

  lemma SingleStep(f: Frame, p: Elem?, hh: nat, cc: nat)
    ensures CtxHolds([f], p, hh, cc) <==> FrameHolds(f, p, hh, cc)
    ensures CtxBalanced([f], hh) <==> Balanced(f.sib) && -1 <= hh - Height(f.sib) <= 1
    ensures PathHeight([f], hh) == FillHeight(f, hh) && PathCount([f], cc) == cc + 1 + Count(f.sib)
  {
    assert CtxHolds([f], p, hh, cc) <==> StepHolds([f], 0, p, hh, cc);
    assert CtxBalanced([f], hh) <==> StepBalanced([f], 0, hh);
  }

  /** The path after the element has been taken out: `m` stands in its place
      with the left subtree `l`, and `ls` leads on from there to the gap. */
  lemma Spliced(fs: seq<Frame>, m: Elem, l: Tree, ls: seq<Frame>, p: Elem?, hole: Tree)
    requires var f, hh, cc := Frame(m, 1, l), Height(hole) + 1, Count(hole);
             && CtxHolds(fs, m, FillHeight(f, PathHeight(ls, hh)), PathCount(ls, cc) + 1 + Count(l))
             && FrameHolds(f, Top(ls, p), PathHeight(ls, hh), PathCount(ls, cc))
             && CtxHolds(ls, p, hh, cc)
             && CtxBalanced(fs, FillHeight(f, PathHeight(ls, hh)))
             && Balanced(l) && -1 <= PathHeight(ls, hh) - Height(l) <= 1
             && CtxBalanced(ls, hh)
    requires Holds(p, hole) && Balanced(hole)
    requires Distinct(Plug(fs + ([Frame(m, 1, l)] + ls), hole))
    ensures Sagging(fs + ([Frame(m, 1, l)] + ls), p, hole)
  {
    hide Holds, Height, Count, Balanced, Distinct, Plug, FrameHolds, HeightAt, CountAt, CtxHolds, CtxBalanced,
      CtxDistinct, CtxNodes;
    var f, hh, cc := Frame(m, 1, l), Height(hole) + 1, Count(hole);
    var tail := [f] + ls;
    SingleStep(f, Top(ls, p), PathHeight(ls, hh), PathCount(ls, cc));
    CtxConcat([f], ls, p, hh, cc);
    BalancedConcat([f], ls, hh);
    TailMeasures(f, ls, hh, cc);
    CtxConcat(fs, tail, p, hh, cc);
    BalancedConcat(fs, tail, hh);
    PlugDistinct(fs + tail, hole);
  }

  lemma TailMeasures(f: Frame, ls: seq<Frame>, hh: nat, cc: nat)
    ensures PathHeight([f] + ls, hh) == FillHeight(f, PathHeight(ls, hh))
    ensures PathCount([f] + ls, cc) == PathCount(ls, cc) + 1 + Count(f.sib)
  {
    hide Height, Count;
    MeasuresConcat([f], ls, 0, hh, cc);
  }

  /** The element `p` to be taken out has been found at the end of the path
      `fs`, with the subtree `cur`; the sizes along the path are already
      those without it. */
  ghost predicate Cutting(fs: seq<Frame>, p: Elem, cur: Tree, fake: Elem)
    reads CtxNodes(fs), Nodes(cur), fake
  {
    && cur.Fork? && Holds(p, cur)
    && CtxHolds(fs, p, Height(cur), Count(cur) - 1) && CtxBalanced(fs, Height(cur))
    && Balanced(cur) && Distinct(Plug(fs, cur))
    && fake !in CtxNodes(fs) && fake !in Nodes(cur) && fake.kids[0] == Top(fs, p)
    && |fs| + Height(cur) < MAX_DEPTH
  }

  /** All elements in order, without the one taken out. */
  ghost function Remaining(fs: seq<Frame>, cur: Tree): seq<Elem>
    requires cur.Fork?
  {
    Before(fs) + (InOrder(cur.l) + InOrder(cur.r)) + After(fs)
  }

  /** The element is out: `hole` hangs at the end of the path `gs`, one level short. */
  ghost predicate CutOut(path: seq<Elem?>, dir: seq<Dir>, d: nat, fake: Elem, gs: seq<Frame>, p: Elem?, hole: Tree,
                         left: seq<Elem>)
    reads CtxNodes(gs), Nodes(hole), fake
  {
    && d == 1 + |gs| && Paths(path, fake, gs) && Sides(dir, gs)
    && Sagging(gs, p, hole) && fake.kids[0] == Top(gs, p)
    && InOrder(Plug(gs, hole)) == left
  }

  lemma NoRepeatsWithout<T>(s: seq<T>, i: nat)
    requires i < |s| && NoRepeats(s)
    ensures NoRepeats(s[..i] + s[i + 1..])
    ensures Members(s[..i] + s[i + 1..]) <= Members(s)
    ensures s[i] !in Members(s[..i] + s[i + 1..])
  {
    var u := s[..i] + s[i + 1..];
    forall j | 0 <= j < |u|
      ensures u[j] == s[if j < i then j else j + 1]
    {
    }
  }

  ghost function RemovedAt(s: seq<Elem>, i: nat): seq<Elem>
    requires i < |s|
  {
    s[..i] + s[i + 1..]
  }

  /** The in-order sequences before and after. */
  lemma CutOrder(fs: seq<Frame>, cur: Tree)
    requires cur.Fork?
    ensures var s, i := InOrder(Plug(fs, cur)), |Before(fs)| + Count(cur.l);
            && i < |s| && s[i] == cur.n && Remaining(fs, cur) == RemovedAt(s, i)
  {
    hide Plug, Before, After, Count, InOrder;
    InOrderPlug(fs, cur);
    InOrderFacts(cur.l);
    ForkOrder(cur);
    var a, b, c, d := Before(fs), InOrder(cur.l), InOrder(cur.r), After(fs);
    CutSequence(a, b, cur.n, c, d);
  }

  lemma CutSequence<T>(a: seq<T>, b: seq<T>, x: T, c: seq<T>, d: seq<T>)
    ensures var s, i := a + (b + [x] + c) + d, |a| + |b|;
            s[i] == x && s[..i] + s[i + 1..] == a + (b + c) + d
  {
    var s, i := a + (b + [x] + c) + d, |a| + |b|;
    assert s[..i] == a + b;
    assert s[i + 1..] == c + d;
  }

  /** Whatever tree holds the remaining elements is a tree of distinct old ones. */
  lemma CutDistinct(fs: seq<Frame>, cur: Tree, t: Tree)
    requires cur.Fork? && Distinct(Plug(fs, cur)) && InOrder(t) == Remaining(fs, cur)
    ensures Distinct(t) && Nodes(t) <= CtxNodes(fs) + Nodes(cur) && cur.n !in Nodes(t)
  {
    hide Distinct, Nodes, InOrder, CtxNodes, Plug, Before, After, NoRepeats, Remaining, Count;
    CutOrder(fs, cur);
    PlugNodes(fs, cur);
    var u := Plug(fs, cur);
    InOrderFacts(u);
    InOrderFacts(t);
    DistinctIsNoRepeats(u);
    DistinctIsNoRepeats(t);
    NoRepeatsWithout(InOrder(u), |Before(fs)| + Count(cur.l));
  }

  lemma CutShape(cur: Tree)
    requires cur.Fork? && Balanced(cur)
    ensures Height(cur) == 1 + Max(Height(cur.l), Height(cur.r)) && Count(cur) == Count(cur.l) + 1 + Count(cur.r)
    ensures Balanced(cur.l) && Balanced(cur.r) && -1 <= Height(cur.r) - Height(cur.l) <= 1
    ensures Nodes(cur) == Nodes(cur.l) + {cur.n} + Nodes(cur.r)
    ensures Distinct(cur) ==> Distinct(cur.l) && Distinct(cur.r) && Nodes(cur.l) !! Nodes(cur.r)
    ensures Distinct(cur) ==> cur.n !in Nodes(cur.l) && cur.n !in Nodes(cur.r)
  {
  }

  lemma CutFields(p: Elem, cur: Tree)
    requires cur.Fork? && Holds(p, cur)
    ensures p == cur.n && Holds(p.kids[0], cur.l) && Holds(p.kids[1], cur.r)
    ensures p.kids[0] == Root(cur.l) && p.kids[1] == Root(cur.r)
    ensures p.balance == Height(cur.r) - Height(cur.l) && p.size == Count(cur)
  {
  }

  lemma LeafMeasures()
    ensures Height(Leaf) == 0 && Count(Leaf) == 0 && InOrder(Leaf) == [] && Nodes(Leaf) == {}
  {
  }

  /** No right child: the left subtree moves up. */
  method CutSimple(path: seq<Elem?>, dir: seq<Dir>, d: nat, p: Elem, fake: Elem, ghost fs: seq<Frame>, ghost cur: Tree)
    requires Cutting(fs, p, cur, fake) && p.kids[1] == null
    requires d == 1 + |fs| && Paths(path, fake, fs) && Sides(dir, fs)
    modifies CtxNodes(fs), fake
    ensures CutOut(path, dir, d, fake, fs, p.kids[0], cur.l, Remaining(fs, cur))
    ensures p.kids == old(p.kids)
  {
    hide Holds, Height, Count, Balanced, Distinct, Nodes, InOrder, CtxHolds, CtxDistinct, CtxBalanced, CtxNodes,
      Plug, Paths, Sides, Before, After;
    CutShape(cur);
    CutFields(p, cur);
    LeafMeasures();
    PlugDistinct(fs, cur);
    LastRecorded(path, dir, fake, fs);
    NodesAllocated(cur);
    ghost var l := cur.l;
    ghost var kept := Holds(p.kids[0], l);
    Hook(path[d - 1], dir[d - 1], p.kids[0], fake, fs, p, Height(cur), Count(cur) - 1);
    assert kept == Holds(p.kids[0], l);
    InOrderPlug(fs, l);
    assert InOrder(l) + [] == InOrder(l);
    CutDistinct(fs, cur, Plug(fs, l));
    PlugDistinct(fs, l);
  }

  /** Common end of the two other cases: the successor `m` stands in the place
      of `p`, and `ls` leads from its right child on to the gap. */
  lemma CutSpliced(fs: seq<Frame>, p: Elem, cur: Tree, m: Elem, ls: seq<Frame>, hp: Elem?, hole: Tree)
    requires cur.Fork? && p == cur.n && Balanced(cur) && Distinct(Plug(fs, cur)) && CtxBalanced(fs, Height(cur))
    requires InOrder(cur.r) == [m] + InOrder(Plug(ls, hole))
    requires PathHeight(ls, Height(hole) + 1) == Height(cur.r) && PathCount(ls, Count(hole)) == Count(cur.r) - 1
    requires CtxHolds(fs, m, Height(cur), Count(cur) - 1)
    requires FrameHolds(Frame(m, 1, cur.l), Top(ls, hp), Height(cur.r), Count(cur.r) - 1)
    requires CtxHolds(ls, hp, Height(hole) + 1, Count(hole)) && CtxBalanced(ls, Height(hole) + 1)
    requires Holds(hp, hole) && Balanced(hole)
    ensures var gs := fs + ([Frame(m, 1, cur.l)] + ls);
            && Sagging(gs, hp, hole) && InOrder(Plug(gs, hole)) == Remaining(fs, cur)
            && CtxNodes(gs) + Nodes(hole) <= CtxNodes(fs) + Nodes(cur) && p !in CtxNodes(gs) + Nodes(hole)
  {
    hide Holds, Height, Count, Balanced, Distinct, Nodes, CtxHolds, CtxDistinct, CtxBalanced, CtxNodes, Plug,
      FrameHolds, PathHeight, PathCount, Before, After, InOrder;
    var f, gs := Frame(m, 1, cur.l), fs + ([Frame(m, 1, cur.l)] + ls);
    CutShape(cur);
    FillParts(f, cur.r);
    PlugConcat(fs, f, ls, hole);
    InOrderPlug(fs, Fill(f, Plug(ls, hole)));
    FillRightOrder(f, Plug(ls, hole));
    assert InOrder(cur.l) + [m] + InOrder(Plug(ls, hole)) == InOrder(cur.l) + ([m] + InOrder(Plug(ls, hole)));
    CutDistinct(fs, cur, Plug(gs, hole));
    PlugNodes(gs, hole);
    Spliced(fs, m, cur.l, ls, hp, hole);
  }

  lemma FillRightOrder(f: Frame, t: Tree)
    requires f.dir == 1
    ensures InOrder(Fill(f, t)) == InOrder(f.sib) + [f.n] + InOrder(t)
  {
  }

  lemma PlugConcat(fs: seq<Frame>, f: Frame, ls: seq<Frame>, t: Tree)
    ensures Plug(fs + ([f] + ls), t) == Plug(fs, Fill(f, Plug(ls, t)))
  {
    var gs := fs + ([f] + ls);
    PlugSplit(gs, |fs|, t);
    assert gs[..|fs|] == fs && gs[|fs|..] == [f] + ls;
    PlugRoot([f] + ls, t);
    assert ([f] + ls)[1..] == ls;
  }

  /** One more recorded step. */
  lemma PathsSnoc(path: seq<Elem?>, dir: seq<Dir>, fake: Elem, fs: seq<Frame>, f: Frame)
    requires Paths(path, fake, fs) && Sides(dir, fs) && 1 + |fs| < |path| && 1 + |fs| < |dir|
    ensures Paths(path[1 + |fs| := f.n], fake, fs + [f]) && Sides(dir[1 + |fs| := f.dir], fs + [f])
  {
  }

  /** The right child has no left child and moves up. */
  method CutNext(path0: seq<Elem?>, dir0: seq<Dir>, d0: nat, p: Elem, q: Elem, fake: Elem, ghost fs: seq<Frame>,
                 ghost cur: Tree)
    returns (path: seq<Elem?>, dir: seq<Dir>, d: nat, ghost gs: seq<Frame>)
    requires Cutting(fs, p, cur, fake) && q == p.kids[1] && q.kids[0] == null
    requires d0 == 1 + |fs| && Paths(path0, fake, fs) && Sides(dir0, fs) && |path0| == |dir0| == MAX_DEPTH
    modifies CtxNodes(fs), fake, q
    ensures cur.r.Fork? && CutOut(path, dir, d, fake, gs, q.kids[1], cur.r.r, Remaining(fs, cur))
    ensures CtxNodes(gs) + Nodes(cur.r.r) <= CtxNodes(fs) + Nodes(cur) && p !in CtxNodes(gs) + Nodes(cur.r.r)
  {
    hide Holds, Height, Count, Balanced, Distinct, Nodes, InOrder, CtxHolds, CtxDistinct, CtxBalanced, CtxNodes,
      Plug, Paths, Sides, Before, After, FrameHolds, PathHeight, PathCount;
    path, dir, d := path0, dir0, d0;
    CutShape(cur);
    CutFields(p, cur);
    CutShape(cur.r);
    CutFields(q, cur.r);
    LeafMeasures();
    PlugDistinct(fs, cur);
    LastRecorded(path, dir, fake, fs);
    NodesAllocated(cur);
    ghost var l, hole := cur.l, cur.r.r;
    ghost var f := Frame(q, 1, l);
    ghost var pl, hp := p.kids[0], q.kids[1];
    ghost var kl, kh := Holds(pl, l), Holds(hp, hole);
    q.kids := q.kids[0 := p.kids[0]];
    q.balance := p.balance;
    Hook(path[d - 1], dir[d - 1], q, fake, fs, p, Height(cur), Count(cur) - 1);
    q.size := p.size - 1;
    assert kl == Holds(pl, l) && kh == Holds(hp, hole);
    path, dir := path[d := q], dir[d := 1];
    d := d + 1;
    gs := fs + ([f] + []);
    assert [f] + [] == [f];
    PathsSnoc(path0, dir0, fake, fs, f);
    EmptyPath(hp, hole, Height(hole) + 1, Count(hole));
    StepIs(f, hp, Height(cur.r), Count(hole));
    assert InOrder(cur.r) == [q] + InOrder(hole) by {
      OrderNoLeft(cur.r);
    }
    CutSpliced(fs, p, cur, q, [], hp, hole);
  }

  lemma OrderNoLeft(t: Tree)
    requires t.Fork? && t.l.Leaf?
    ensures InOrder(t) == [t.n] + InOrder(t.r)
  {
  }

  lemma EmptyPath(p: Elem?, t: Tree, hh: nat, cc: nat)
    ensures Plug([], t) == t && Top([], p) == p
    ensures CtxHolds([], p, hh, cc) && CtxBalanced([], hh)
    ensures PathHeight([], hh) == hh && PathCount([], cc) == cc
  {
  }

  lemma StepIs(f: Frame, p: Elem?, hh: nat, cc: nat)
    requires f.dir == 1 && f.n.kids[1] == p && Holds(f.n.kids[0], f.sib)
    requires f.n.balance == hh - Height(f.sib) && f.n.size == cc + 1 + Count(f.sib)
    ensures FrameHolds(f, p, hh, cc)
  {
  }

  ghost predicate AllLeft(fs: seq<Frame>) {
    forall i :: 0 <= i < |fs| ==> fs[i].dir == 0
  }

  lemma {:induction false} AllLeftBefore(fs: seq<Frame>)
    requires AllLeft(fs)
    ensures Before(fs) == []
  {
    if fs != [] {
      AllLeftBefore(fs[..|fs| - 1]);
    }
  }

  /** The path array continues the old one with the steps `ls`, leaving index `e` open. */
  ghost predicate Continued(path0: seq<Elem?>, dir0: seq<Dir>, e: nat, path: seq<Elem?>, dir: seq<Dir>,
                            ls: seq<Frame>) {
    && e + 1 + |ls| <= |path| == |dir| == |path0| == |dir0|
    && (forall i :: 0 <= i < e ==> path[i] == path0[i] && dir[i] == dir0[i])
    && (forall i :: 0 <= i < |ls| ==> path[e + 1 + i] == ls[i].n && dir[e + 1 + i] == ls[i].dir)
  }

  /** Down the left side of the right subtree to its first element `m`. */
  method FindSuccessor(path0: seq<Elem?>, dir0: seq<Dir>, e: nat, q0: Elem, ghost rt: Tree)
    returns (path: seq<Elem?>, dir: seq<Dir>, d: nat, q: Elem, m: Elem, ghost ls: seq<Frame>, ghost mr: Tree)
    requires Visiting([], q0, rt) && q0.kids[0] != null
    requires |path0| == |dir0| == MAX_DEPTH && e + 1 + Height(rt) <= MAX_DEPTH
    ensures ls != [] && AllLeft(ls) && q == ls[|ls| - 1].n && Top(ls, m) == q0
    ensures Visiting(ls, m, Fork(Leaf, m, mr)) && Plug(ls, Fork(Leaf, m, mr)) == rt
    ensures d == e + 1 + |ls| && Continued(path0, dir0, e, path, dir, ls)
  {
    hide Holds, Height, Count, Balanced, Distinct, CtxHolds, CtxDistinct, CtxBalanced, CtxNodes, Nodes, Plug;
    path, dir, d, q := path0, dir0, e + 1, q0;
    ls := [];
    ghost var cur := rt;
    OnPathStart(q0, rt);
    while true
      invariant OnPath(rt, q0, ls, q, cur) && AllLeft(ls) && q.kids[0] != null
      invariant d == e + 1 + |ls| && Continued(path0, dir0, e, path, dir, ls)
      decreases cur
    {
      LeftStep(rt, q0, ls, q, cur);
      ghost var f := StepTo(cur, 0);
      dir := dir[d := 0];
      path := path[d := q];
      d := d + 1;
      ls, cur := ls + [f], cur.l;
      m := q.kids[0];
      if m.kids[0] == null {
        mr := cur.r;
        return;
      }
      q := m;
    }
  }

  lemma OnPathStart(q: Elem, t: Tree)
    requires Visiting([], q, t)
    ensures OnPath(t, q, [], q, t)
  {
  }

  lemma LeftStep(rt: Tree, q0: Elem, ls: seq<Frame>, q: Elem, cur: Tree)
    requires OnPath(rt, q0, ls, q, cur) && AllLeft(ls) && q.kids[0] != null
    ensures cur.Fork? && cur.l.Fork? && q == cur.n && q.kids[0] == cur.l.n && (cur.l.n.kids[0] == Root(cur.l.l))
    ensures OnPath(rt, q0, ls + [StepTo(cur, 0)], q.kids[0], cur.l) && AllLeft(ls + [StepTo(cur, 0)])
    ensures |ls| + 1 < Height(rt)
  {
    hide Distinct, Nodes, Count, Plug, CtxHolds, CtxBalanced, CtxDistinct, CtxNodes, Before;
    var f := StepTo(cur, 0);
    CutFields(q, cur);
    CutFields(q.kids[0], cur.l);
    Descend(ls, q, cur, f, cur.l);
    CutShape(cur);
    CutShape(cur.l);
  }

  lemma SuccessorOrder(ls: seq<Frame>, m: Elem, mr: Tree)
    requires AllLeft(ls)
    ensures InOrder(Plug(ls, Fork(Leaf, m, mr))) == [m] + InOrder(Plug(ls, mr))
  {
    hide Plug, After, Before;
    var one := Fork(Leaf, m, mr);
    InOrderPlug(ls, one);
    InOrderPlug(ls, mr);
    AllLeftBefore(ls);
    OrderNoLeft(one);
    assert [] + ([m] + InOrder(mr)) + After(ls) == [m] + ([] + InOrder(mr) + After(ls));
  }

  /** What the search for the successor has found. */
  lemma SuccessorFacts(ls: seq<Frame>, m: Elem, mr: Tree, rt: Tree, q0: Elem)
    requires ls != [] && AllLeft(ls) && Top(ls, m) == q0
    requires Visiting(ls, m, Fork(Leaf, m, mr)) && Plug(ls, Fork(Leaf, m, mr)) == rt
    ensures Holds(m.kids[1], mr) && m.kids[1] == Root(mr) && Balanced(mr)
    ensures CtxHolds(ls, m, Height(mr) + 1, Count(mr) + 1) && CtxBalanced(ls, Height(mr) + 1) && CtxDistinct(ls)
    ensures PathHeight(ls, Height(mr) + 1) == Height(rt) && PathCount(ls, Count(mr)) == Count(rt) - 1
    ensures InOrder(rt) == [m] + InOrder(Plug(ls, mr))
    ensures CtxNodes(ls) + {m} + Nodes(mr) == Nodes(rt) && m !in CtxNodes(ls) && m !in Nodes(mr)
    ensures CtxNodes(ls) !! Nodes(mr)
    ensures Top(ls, m.kids[1]) == q0 && ls[|ls| - 1].n in CtxNodes(ls)
  {
    hide Holds, Height, Count, Balanced, Distinct, Nodes, InOrder, CtxHolds, CtxDistinct, CtxBalanced, CtxNodes,
      Plug, HeightAt, CountAt, Before, After, StepNodes, PathHeight, PathCount;
    var one := Fork(Leaf, m, mr);
    SuccessorParts(m, mr);
    CutFields(m, one);
    CtxMember(ls, |ls| - 1);
    SuccessorMeasures(ls, m, mr);
    PlugNodes(ls, one);
    SuccessorOrder(ls, m, mr);
  }

  lemma SuccessorParts(m: Elem, mr: Tree)
    ensures var one := Fork(Leaf, m, mr);
            && Height(one) == Height(mr) + 1 && Count(one) == Count(mr) + 1 && Nodes(one) == {m} + Nodes(mr)
            && (Balanced(one) ==> Balanced(mr)) && (Distinct(one) ==> m !in Nodes(mr))
  {
  }

  lemma SuccessorMeasures(ls: seq<Frame>, m: Elem, mr: Tree)
    requires ls != []
    ensures var rt := Plug(ls, Fork(Leaf, m, mr));
            PathHeight(ls, Height(mr) + 1) == Height(rt) && PathCount(ls, Count(mr)) == Count(rt) - 1
  {
    hide Height, Count, Plug, HeightAt, CountAt;
    SuccessorParts(m, mr);
    PlugMeasures(ls, Fork(Leaf, m, mr));
    CountAtShift(ls, 0, Count(mr), 1);
  }

  lemma PathNodesInside(fs: seq<Frame>)
    ensures PathNodes(fs) <= CtxNodes(fs)
  {
    forall i | 0 <= i < |fs|
      ensures fs[i].n in CtxNodes(fs)
    {
      CtxMember(fs, i);
    }
  }

  /** The recorded path once `f` fills the slot kept for the successor. */
  lemma ContinuedPaths(path0: seq<Elem?>, dir0: seq<Dir>, e: nat, path: seq<Elem?>, dir: seq<Dir>, fake: Elem,
                       fs: seq<Frame>, ls: seq<Frame>, f: Frame)
    requires Paths(path0, fake, fs) && Sides(dir0, fs) && e == 1 + |fs| && Continued(path0, dir0, e, path, dir, ls)
    ensures e < |path| && e < |dir| && path[e - 1] == path0[e - 1] && dir[e - 1] == dir0[e - 1]
    ensures Recorded(path, e + 1, ls)
    ensures Paths(path[e := f.n], fake, fs + ([f] + ls)) && Sides(dir[e := f.dir], fs + ([f] + ls))
  {
    var gs, path', dir' := fs + ([f] + ls), path[e := f.n], dir[e := f.dir];
    forall i | 0 <= i < |gs|
      ensures path'[1 + i] == gs[i].n && dir'[1 + i] == gs[i].dir
    {
      if i < |fs| {
        assert path[1 + i] == path0[1 + i] && dir[1 + i] == dir0[1 + i];
      } else if i > |fs| {
        var j := i - |fs| - 1;
        assert path[e + 1 + j] == ls[j].n && dir[e + 1 + j] == ls[j].dir;
        assert 1 + i == e + 1 + j && gs[i] == ls[j];
      }
    }
  }

  /** The parts of the tree around `p` and its successor `m` do not overlap. */
  ghost predicate PartsApart(a: set<Elem>, b: set<Elem>, c: set<Elem>, d: set<Elem>, p: Elem, m: Elem, fake: Elem) {
    && a !! b && a !! c && a !! d && b !! c && b !! d && c !! d
    && p !in a && p !in b && p !in c && p !in d
    && m !in a && m !in b && m !in c && m !in d
    && fake !in a && fake !in b && fake !in c && fake !in d
    && p != m && p != fake && m != fake
  }

  /** The pointer updates that put `m` in the place of `p` and close the gap it leaves. */
  method MoveUp(parent: Elem, side: Dir, p: Elem, q: Elem, m: Elem, fake: Elem,
                ghost fs: seq<Frame>, ghost l: Tree, ghost ls: seq<Frame>, ghost hole: Tree, ghost hh: nat,
                ghost cc: nat)
    requires parent == Last(fs, fake) && side == if fs == [] then 0 else fs[|fs| - 1].dir
    requires CtxHolds(fs, p, hh, cc) && CtxDistinct(fs) && fake.kids[0] == Top(fs, p)
    requires ls != [] && CtxDistinct(ls) && CtxHolds(ls, m, Height(hole) + 1, Count(hole) + 1)
    requires q == ls[|ls| - 1].n && ls[|ls| - 1].dir == 0 && q in CtxNodes(ls) && (fs != [] ==> parent in CtxNodes(fs))
    requires Holds(p.kids[0], l) && Holds(m.kids[1], hole)
    requires PartsApart(CtxNodes(fs), CtxNodes(ls), Nodes(l), Nodes(hole), p, m, fake)
    requires forall o: Elem :: o in CtxNodes(fs) ==> allocated(o)
    requires forall o: Elem :: o in CtxNodes(ls) ==> allocated(o)
    requires forall o: Elem :: o in Nodes(l) ==> allocated(o)
    requires forall o: Elem :: o in Nodes(hole) ==> allocated(o)
    modifies m, q`kids, parent`kids
    ensures CtxHolds(ls, old(m.kids[1]), Height(hole) + 1, Count(hole) + 1)
    ensures CtxHolds(fs, m, hh, cc) && fake.kids[0] == Top(fs, m)
    ensures m.kids == [p.kids[0], p.kids[1]] && m.balance == p.balance
    ensures Holds(m.kids[0], l) && Holds(old(m.kids[1]), hole)
  {
    hide Holds, Height, Count, Nodes, CtxHolds, CtxDistinct, CtxNodes;
    ghost var pl, hp := p.kids[0], m.kids[1];
    ghost var kl, kh, kf := Holds(pl, l), Holds(hp, hole), CtxHolds(fs, p, hh, cc);
    ghost var ks := CtxHolds(ls, m, Height(hole) + 1, Count(hole) + 1);
    m.kids := m.kids[0 := p.kids[0]];
    assert ks == CtxHolds(ls, m, Height(hole) + 1, Count(hole) + 1);
    Relink(q, 0, m.kids[1], ls, m, Height(hole) + 1, Count(hole) + 1);
    ks := CtxHolds(ls, hp, Height(hole) + 1, Count(hole) + 1);
    m.kids := m.kids[1 := p.kids[1]];
    m.balance := p.balance;
    assert kf == CtxHolds(fs, p, hh, cc);
    Hook(parent, side, m, fake, fs, p, hh, cc);
    assert kl == Holds(pl, l) && kh == Holds(hp, hole);
    assert ks == CtxHolds(ls, hp, Height(hole) + 1, Count(hole) + 1);
  }

  /** The successor moves from the far left of the right subtree into the place of `p`. */
  method CutDeep(path0: seq<Elem?>, dir0: seq<Dir>, e: nat, p: Elem, q0: Elem, fake: Elem, ghost fs: seq<Frame>,
                 ghost cur: Tree)
    returns (path: seq<Elem?>, dir: seq<Dir>, d: nat, ghost gs: seq<Frame>, ghost hp: Elem?, ghost hole: Tree)
    requires Cutting(fs, p, cur, fake) && q0 == p.kids[1] && q0.kids[0] != null
    requires e == 1 + |fs| && Paths(path0, fake, fs) && Sides(dir0, fs) && |path0| == |dir0| == MAX_DEPTH
    modifies CtxNodes(fs), Nodes(cur), fake
    ensures CutOut(path, dir, d, fake, gs, hp, hole, Remaining(fs, cur))
    ensures CtxNodes(gs) + Nodes(hole) <= CtxNodes(fs) + Nodes(cur) && p !in CtxNodes(gs) + Nodes(hole)
  {
    hide Holds, Height, Count, Balanced, Distinct, Nodes, InOrder, CtxHolds, CtxDistinct, CtxBalanced, CtxNodes,
      Plug, Paths, Sides, Before, After, FrameHolds, PathHeight, PathCount, Remaining, Continued;
    CutShape(cur);
    CutFields(p, cur);
    CutShape(cur.r);
    PlugDistinct(fs, cur);
    LastRecorded(path0, dir0, fake, fs);
    NodesAllocated(cur);
    CtxAllocated(fs);
    EmptyPath(p, cur.r, Height(cur.r), Count(cur.r));
    RightVisiting(cur, q0);
    ghost var kc, kx := Holds(p, cur), CtxHolds(fs, p, Height(cur), Count(cur) - 1);
    var q, m;
    ghost var ls;
    path, dir, d, q, m, ls, hole := FindSuccessor(path0, dir0, e, q0, cur.r);
    SuccessorFacts(ls, m, hole, cur.r, q0);
    CtxAllocated(ls);
    assert kc == Holds(p, cur) && kx == CtxHolds(fs, p, Height(cur), Count(cur) - 1);
    CutFields(p, cur);
    ghost var l, f := cur.l, Frame(m, 1, cur.l);
    hp := m.kids[1];
    ContinuedPaths(path0, dir0, e, path, dir, fake, fs, ls, f);
    assert PartsApart(CtxNodes(fs), CtxNodes(ls), Nodes(l), Nodes(hole), p, m, fake);
    NodesAllocated(l);
    NodesAllocated(hole);
    MoveUp(path[e - 1], dir[e - 1], p, q, m, fake, fs, l, ls, hole, Height(cur), Count(cur) - 1);
    ghost var kl, kh, kf := Holds(p.kids[0], l), Holds(hp, hole), CtxHolds(fs, m, Height(cur), Count(cur) - 1);
    PathNodesInside(ls);
    AddToSizes(path, e + 1, d, -1, ls, hp, Height(hole) + 1, Count(hole) + 1);
    m.size := p.size - 1;
    assert kl == Holds(p.kids[0], l) && kh == Holds(hp, hole) && kf == CtxHolds(fs, m, Height(cur), Count(cur) - 1);
    path, dir := path[e := m], dir[e := 1];
    gs := fs + ([f] + ls);
    StepIs(f, q0, Height(cur.r), Count(cur.r) - 1);
    CutSpliced(fs, p, cur, m, ls, hp, hole);
  }

  lemma RightVisiting(cur: Tree, q0: Elem)
    requires cur.Fork? && Distinct(cur) && Balanced(cur) && Holds(q0, cur.r)
    ensures Visiting([], q0, cur.r)
  {
  }

  // ---------- Removal ----------

  /** Takes out the element `p` found at the end of the recorded path. */
  method TakeOut(path0: seq<Elem?>, dir0: seq<Dir>, d0: nat, p: Elem, fake: Elem, ghost root: Elem?, ghost t: Tree,
                 ghost fs: seq<Frame>, ghost cur: Tree)
    returns (root': Elem?, ghost t': Tree)
    requires OnPath(t, root, fs, p, cur) && Valid(root, t) && Count(t) < SIZE_LIMIT
    requires fake !in Nodes(t) && fake.kids[0] == root
    requires d0 == 1 + |fs| && Paths(path0, fake, fs) && Sides(dir0, fs) && |path0| == |dir0| == MAX_DEPTH
    modifies Nodes(t), fake
    ensures Valid(root', t')
    ensures var i := |Before(fs)| + Count(cur.l);
            i < |InOrder(t)| && p == InOrder(t)[i] && InOrder(t') == RemovedAt(InOrder(t), i)
  {
    hide Holds, Height, Count, Balanced, Distinct, Nodes, InOrder, CtxHolds, CtxDistinct, CtxBalanced, CtxNodes,
      Plug, Paths, Sides, Before, After, Remaining;
    StartCutting(t, root, fs, p, cur, fake);
    PathNodesInside(fs);
    var path, dir, d := path0, dir0, d0;
    PathsRecorded(path, dir, fake, fs);
    NodesAllocated(cur);
    ghost var kept := Holds(p, cur);
    AddToSizes(path, 1, d, -1, fs, p, Height(cur), Count(cur));
    assert kept == Holds(p, cur);
    assert Cutting(fs, p, cur, fake);
    ghost var gs, hp, hole;
    CutFields(p, cur);
    if p.kids[1] == null {
      CutSimple(path, dir, d, p, fake, fs, cur);
      gs, hp, hole := fs, p.kids[0], cur.l;
    } else {
      var q := p.kids[1];
      CutShape(cur);
      RootInside(cur.r);
      if q.kids[0] == null {
        path, dir, d, gs := CutNext(path, dir, d, p, q, fake, fs, cur);
        hp, hole := q.kids[1], cur.r.r;
      } else {
        path, dir, d, gs, hp, hole := CutDeep(path, dir, d, p, q, fake, fs, cur);
      }
    }
    CutDistinct(fs, cur, Plug(gs, hole));
    PlugNodes(gs, hole);
    t' := Climb(path, dir, d, fake, gs, hp, hole);
    root' := fake.kids[0];
    CutOrder(fs, cur);
    SameDistinct(t', Plug(gs, hole));
  }

  lemma RootInside(t: Tree)
    ensures t.Fork? ==> t.n in Nodes(t)
  {
  }

  lemma PathsRecorded(path: seq<Elem?>, dir: seq<Dir>, fake: Elem, fs: seq<Frame>)
    requires Paths(path, fake, fs) && Sides(dir, fs)
    ensures Recorded(path, 1, fs)
  {
  }

  lemma StartCutting(t: Tree, root: Elem?, fs: seq<Frame>, p: Elem, cur: Tree, fake: Elem)
    requires OnPath(t, root, fs, p, cur) && Valid(root, t) && Count(t) < SIZE_LIMIT
    requires fake !in Nodes(t) && fake.kids[0] == root
    ensures cur.Fork? && p == cur.n && Count(cur) > 0 && CtxDistinct(fs)
    ensures CtxHolds(fs, p, Height(cur), Count(cur)) && CtxBalanced(fs, Height(cur)) && Balanced(cur) && Distinct(cur)
    ensures Holds(p, cur) && Distinct(Plug(fs, cur)) && Plug(fs, cur) == t
    ensures fake !in CtxNodes(fs) && fake !in Nodes(cur) && fake.kids[0] == Top(fs, p)
    ensures |fs| + Height(cur) < MAX_DEPTH && Nodes(t) == CtxNodes(fs) + Nodes(cur) && CtxNodes(fs) !! Nodes(cur)
  {
    PlugNodes(fs, cur);
    HeightFitsPath(t);
  }

  /** The downward search of a removal. */
  method SearchElem(root: Elem?, x: Key, cmp: Comparator, fake: Elem, ghost t: Tree)
    returns (path: seq<Elem?>, dir: seq<Dir>, d: nat, p: Elem?, cnt: nat, ghost fs: seq<Frame>, ghost cur: Tree)
    requires Valid(root, t) && Count(t) < SIZE_LIMIT && fake.kids[0] == root
    ensures p == null ==> Locate(cmp, x, t).Absent?
    ensures p != null ==>
              && OnPath(t, root, fs, p, cur) && cur.Fork?
              && cnt == |Before(fs)| + Count(cur.l) + 1 && Locate(cmp, x, t) == Found(cnt - 1)
              && d == 1 + |fs| && Paths(path, fake, fs) && Sides(dir, fs) && |path| == |dir| == MAX_DEPTH
  {
    hide Holds, Height, Count, Balanced, Distinct, Nodes, InOrder, CtxHolds, CtxDistinct, CtxBalanced, CtxNodes,
      Plug, Before, After;
    path, dir := seq(MAX_DEPTH, i => null), seq(MAX_DEPTH, i => 0);
    path, dir, d := path[0 := fake], dir[0 := 0], 1;
    p, cnt, fs, cur := fake.kids[0], 0, [], t;
    StartSearch(t, root);
    if p == null {
      LocateLeaf(cmp, x, t, root, fs, p, cur, cnt);
      return;
    }
    var c := cmp(x, p.key);
    while c != 0
      invariant OnPath(t, root, fs, p, cur) && p != null && c == cmp(x, p.key)
      invariant cnt == |Before(fs)| && Locate(cmp, x, t) == Locate(cmp, x, cur).Shift(cnt)
      invariant d == 1 + |fs| && Paths(path, fake, fs) && Sides(dir, fs) && |path| == |dir| == MAX_DEPTH
      decreases cur
    {
      var which: Dir := if c > 0 then 1 else 0;
      EraseStep(cmp, x, t, root, fs, p, cur, which, cnt);
      ghost var f := StepTo(cur, which);
      cnt := if c > 0 then cnt + SizeOf(p.kids[0]) + 1 else cnt;
      PathsSnoc(path, dir, fake, fs, f);
      dir := dir[d := which];
      path := path[d := p];
      d := d + 1;
      p, fs, cur := p.kids[which], fs + [f], SubTree(cur, which);
      if p == null {
        LocateLeaf(cmp, x, t, root, fs, p, cur, cnt);
        cnt := 0;
        return;
      }
      c := cmp(x, p.key);
    }
    FoundHere(cmp, x, t, root, fs, p, cur, cnt);
    cnt := cnt + SizeOf(p.kids[0]) + 1;
  }

  lemma StartSearch(t: Tree, root: Elem?)
    requires Valid(root, t)
    ensures OnPath(t, root, [], root, t) && Before([]) == []
  {
  }

  lemma LocateLeaf(cmp: Comparator, x: Key, t: Tree, root: Elem?, fs: seq<Frame>, p: Elem?, cur: Tree, cnt: nat)
    requires OnPath(t, root, fs, p, cur) && p == null && Locate(cmp, x, t) == Locate(cmp, x, cur).Shift(cnt)
    ensures Locate(cmp, x, t).Absent?
  {
  }

  lemma FoundHere(cmp: Comparator, x: Key, t: Tree, root: Elem?, fs: seq<Frame>, p: Elem, cur: Tree, cnt: nat)
    requires OnPath(t, root, fs, p, cur) && cmp(x, p.key) == 0 && Locate(cmp, x, t) == Locate(cmp, x, cur).Shift(cnt)
    ensures cur.Fork? && SizeOf(p.kids[0]) == Count(cur.l) && Locate(cmp, x, t) == Found(cnt + Count(cur.l))
  {
    SizeOfHeld(p.kids[0], cur.l);
  }

  lemma EraseStep(cmp: Comparator, x: Key, t: Tree, root: Elem?, fs: seq<Frame>, p: Elem, cur: Tree, which: Dir,
                  cnt: nat)
    requires OnPath(t, root, fs, p, cur) && Count(t) < SIZE_LIMIT && Balanced(t)
    requires cnt == |Before(fs)| && Locate(cmp, x, t) == Locate(cmp, x, cur).Shift(cnt)
    requires cmp(x, p.key) != 0 && which == (if cmp(x, p.key) > 0 then 1 else 0)
    ensures cur.Fork? && p == cur.n && 1 + |fs| < MAX_DEPTH
    ensures OnPath(t, root, fs + [StepTo(cur, which)], p.kids[which], SubTree(cur, which))
    ensures var cnt' := cnt + if which == 0 then 0 else SizeOf(p.kids[0]) + 1;
            && cnt' == |Before(fs + [StepTo(cur, which)])|
            && Locate(cmp, x, t) == Locate(cmp, x, SubTree(cur, which)).Shift(cnt')
  {
    hide CtxHolds, CtxBalanced, CtxDistinct, CtxNodes, Distinct, Plug, Count, InOrder, Before, BeforeOf, Locate;
    HeightFitsPath(t);
    OnPathStep(t, root, fs, p, cur, which);
    LocateStep(cmp, x, cur, which, cnt);
  }

  /** Removal by key: the element found is returned, and exactly it is gone. */
  method Erase(root: Elem?, x: Key, cmp: Comparator, ghost t: Tree)
    returns (root': Elem?, p: Elem?, cnt: nat, ghost t': Tree)
    requires Valid(root, t) && Count(t) < SIZE_LIMIT
    modifies Nodes(t)
    ensures Valid(root', t')
    ensures match Locate(cmp, x, t)
            case Found(i) =>
              && i < |InOrder(t)| && p == InOrder(t)[i] && cnt == i + 1
              && InOrder(t') == RemovedAt(InOrder(t), i)
            case Absent(_) => p == null && cnt == 0 && root' == root && t' == t
  {
    hide Holds, Height, Count, Balanced, Distinct, Nodes, InOrder, Before;
    NodesAllocated(t);
    var fake := new Elem(x);
    fake.kids := [root, null];
    var path, dir, d, q, c;
    ghost var fs, cur;
    path, dir, d, q, c, fs, cur := SearchElem(root, x, cmp, fake, t);
    if q == null {
      return root, null, 0, t;
    }
    p, cnt := q, c;
    root', t' := TakeOut(path, dir, d, q, fake, root, t, fs, cur);
  }

  /** The path to the first element. */
  method LeftmostPath(root: Elem, fake: Elem, ghost t: Tree)
    returns (path: seq<Elem?>, dir: seq<Dir>, d: nat, p: Elem, ghost fs: seq<Frame>, ghost cur: Tree)
    requires Valid(root, t) && Count(t) < SIZE_LIMIT
    ensures OnPath(t, root, fs, p, cur) && cur.Fork? && cur.l.Leaf? && AllLeft(fs)
    ensures d == 1 + |fs| && Paths(path, fake, fs) && Sides(dir, fs) && |path| == |dir| == MAX_DEPTH
  {
    hide Holds, Height, Count, Balanced, Distinct, Nodes, InOrder, Before, CtxHolds, CtxDistinct, CtxBalanced,
      CtxNodes, Plug, After;
    path, dir := seq(MAX_DEPTH, i => null), seq(MAX_DEPTH, i => 0);
    path, d := path[0 := fake], 1;
    var q: Elem? := root;
    ghost var up := t;
    fs, cur := [], t;
    StartSearch(t, root);
    while q != null
      invariant OnPath(t, root, fs, q, cur) && AllLeft(fs) && d == 1 + |fs|
      invariant fs == [] ==> q == root
      invariant fs != [] ==> OnPath(t, root, fs[..|fs| - 1], fs[|fs| - 1].n, up) && up.Fork? && cur == up.l
      invariant Paths(path, fake, fs) && Sides(dir, fs) && |path| == |dir| == MAX_DEPTH
      decreases cur
    {
      FirstStep(t, root, fs, q, cur);
      ghost var f := StepTo(cur, 0);
      PathsSnoc(path, dir, fake, fs, f);
      dir, path := dir[d := 0], path[d := q];
      d := d + 1;
      SnocParts(fs, f);
      fs, q, cur, up := fs + [f], q.kids[0], cur.l, cur;
    }
    LeafHere(t, root, fs, q, cur);
    LastRecorded(path, dir, fake, fs);
    PathsInit(path, dir, fake, fs);
    d := d - 1;
    p := path[d];
    fs, cur := fs[..|fs| - 1], up;
  }

  /** Removal of the first element of a tree that is not empty. */
  method EraseFirst(root: Elem, ghost t: Tree) returns (root': Elem?, p: Elem, ghost t': Tree)
    requires Valid(root, t) && Count(t) < SIZE_LIMIT
    modifies Nodes(t)
    ensures Valid(root', t')
    ensures InOrder(t) != [] && p == InOrder(t)[0] && InOrder(t') == InOrder(t)[1..]
  {
    hide Holds, Height, Count, Balanced, Distinct, Nodes, InOrder, Before, CtxHolds, CtxDistinct, CtxBalanced,
      CtxNodes, Plug, After;
    NodesAllocated(t);
    var fake := new Elem(root.key);
    fake.kids := [root, null];
    var path, dir, d;
    ghost var fs, cur;
    path, dir, d, p, fs, cur := LeftmostPath(root, fake, t);
    AllLeftBefore(fs);
    LeafMeasures();
    root', t' := TakeOut(path, dir, d, p, fake, root, t, fs, cur);
    assert InOrder(t)[..0] + InOrder(t)[1..] == InOrder(t)[1..];
  }

  lemma LeafHere(t: Tree, root: Elem?, fs: seq<Frame>, q: Elem?, cur: Tree)
    requires OnPath(t, root, fs, q, cur) && q == null
    ensures cur.Leaf?
  {
  }

  lemma FirstStep(t: Tree, root: Elem?, fs: seq<Frame>, q: Elem, cur: Tree)
    requires OnPath(t, root, fs, q, cur) && Balanced(t) && Count(t) < SIZE_LIMIT && AllLeft(fs)
    ensures cur.Fork? && q == cur.n && 1 + |fs| < MAX_DEPTH
    ensures OnPath(t, root, fs + [StepTo(cur, 0)], q.kids[0], cur.l) && AllLeft(fs + [StepTo(cur, 0)])
  {
    HeightFitsPath(t);
    Descend(fs, q, cur, StepTo(cur, 0), cur.l);
    FillMeasures(StepTo(cur, 0), cur.l);
  }
}
