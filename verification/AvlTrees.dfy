/** The abstract side of the intrusive AVL tree: its shapes, the paths a search
    leaves behind, and the facts about heights, sizes and order that the
    pointer code relies on. A shape records only which element sits where;
    `Holds` says that the elements' own fields spell it out. */
module AvlTrees {
  import opened Elements

  // 0 is left and 1 is right, as in the array of children of every element
  type Dir = d: int | 0 <= d <= 1

  type Children = s: seq<Elem?> | |s| == 2 witness [null, null]

  /** An element of a pool together with the tree head embedded in it:
      the two children, the balance factor and the size of the subtree. */
  class Elem {
    const key: Key
    var kids: Children
    var balance: int
    var size: int

    constructor (k: Key)
      ensures key == k
    {
      key := k;
      kids, balance, size := [null, null], 0, 0;
    }
  }

  datatype Tree = Leaf | Fork(l: Tree, n: Elem, r: Tree)

  ghost function Nodes(t: Tree): set<Elem> {
    match t
    case Leaf => {}
    case Fork(l, n, r) => Nodes(l) + {n} + Nodes(r)
  }

  ghost function InOrder(t: Tree): seq<Elem> {
    match t
    case Leaf => []
    case Fork(l, n, r) => InOrder(l) + [n] + InOrder(r)
  }

  ghost function Height(t: Tree): nat {
    match t
    case Leaf => 0
    case Fork(l, _, r) => 1 + Max(Height(l), Height(r))
  }

  ghost function Count(t: Tree): nat {
    match t
    case Leaf => 0
    case Fork(l, _, r) => Count(l) + 1 + Count(r)
  }

  function Max(a: nat, b: nat): nat {
    if a < b then b else a
  }

  /** No element occurs twice. */
  ghost predicate Distinct(t: Tree) {
    match t
    case Leaf => true
    case Fork(l, n, r) =>
      && Distinct(l) && Distinct(r)
      && n !in Nodes(l) && n !in Nodes(r) && Nodes(l) !! Nodes(r)
  }

  /** The AVL condition. */
  ghost predicate Balanced(t: Tree) {
    match t
    case Leaf => true
    case Fork(l, _, r) => Balanced(l) && Balanced(r) && -1 <= Height(r) - Height(l) <= 1
  }

  ghost function Root(t: Tree): Elem? {
    if t.Leaf? then null else t.n
  }

  /** The fields reachable from `p` spell out the shape `t`, with the exact
      balance factor and the exact subtree size in every element. */
  ghost predicate Holds(p: Elem?, t: Tree)
    reads Nodes(t)
  {
    && p == Root(t)
    && match t
       case Leaf => true
       case Fork(l, n, r) =>
         && n.balance == Height(r) - Height(l)
         && n.size == Count(t)
         && Holds(n.kids[0], l) && Holds(n.kids[1], r)
  }

  /** Calls elsewhere cannot touch the elements of a tree except through their frames. */
  lemma {:induction false} NodesAllocated(t: Tree)
    ensures forall o: Elem :: o in Nodes(t) ==> allocated(o)
  {
    if t.Fork? {
      NodesAllocated(t.l);
      NodesAllocated(t.r);
    }
  }

  // ---------- Size against height ----------

  function Fib(n: nat): nat {
    if n < 2 then n else Fib(n - 1) + Fib(n - 2)
  }

  lemma {:induction false} FibMonotone(m: nat, n: nat)
    requires m <= n
    ensures Fib(m) <= Fib(n)
  {
    if m < n {
      FibMonotone(m, n - 1);
    }
  }

  /** A balanced tree of height h has at least Fib(h + 2) - 1 elements. */
  lemma {:induction false} FibonacciBound(t: Tree)
    requires Balanced(t)
    ensures Count(t) + 1 >= Fib(Height(t) + 2)
  {
    if t.Fork? {
      FibonacciBound(t.l);
      FibonacciBound(t.r);
      var h := Height(t);
      FibMonotone(h, Height(t.l) + 2);
      FibMonotone(h, Height(t.r) + 2);
    }
  }

  /** The bound is tight: a tallest tree of h levels with exactly that many positions exists;
      its elements are taken in order from `pool`. */
  ghost function Sparsest(h: nat, pool: seq<Elem>): (t: Tree)
    requires |pool| + 1 >= Fib(h + 2)
    ensures Balanced(t) && Height(t) == h && Count(t) + 1 == Fib(h + 2)
  {
    if h == 0 then Leaf
    else if h == 1 then assert Fib(3) == Fib(2) + Fib(1); Fork(Leaf, pool[0], Leaf)
    else
      FibMonotone(1, h);
      FibMonotone(h, h + 1);
      Fork(Sparsest(h - 1, pool), pool[0], Sparsest(h - 2, pool))
  }

  lemma {:induction false} FibDoubles(k: nat)
    ensures Fib(2 * k + 2) >= Pow2(k)
    ensures k > 0 ==> Fib(2 * k + 2) > Pow2(k)
  {
    if k > 0 {
      FibDoubles(k - 1);
      FibMonotone(1, 2 * k - 1);
      assert Fib(2 * k + 2) == Fib(2 * k + 1) + Fib(2 * k);
      assert Fib(2 * k + 1) == Fib(2 * k) + Fib(2 * k - 1);
    }
  }

  lemma {:induction false} Pow2Add(a: nat, b: nat)
    ensures Pow2(a + b) == Pow2(a) * Pow2(b)
  {
    if a > 0 {
      Pow2Add(a - 1, b);
      assert Pow2(a + b) == 2 * Pow2(a - 1 + b);
    }
  }

  lemma {:induction false} TallTreesAreLarge(t: Tree, k: nat)
    requires Balanced(t) && Height(t) >= 2 * k && k > 0
    ensures Count(t) >= Pow2(k)
  {
    FibonacciBound(t);
    FibMonotone(2 * k + 2, Height(t) + 2);
    FibDoubles(k);
  }

  // one more than the largest size the unsigned 32-bit field can hold
  const SIZE_LIMIT: nat := 0x1_0000_0000

  // length of the path and direction arrays
  const MAX_DEPTH: nat := 64

  /** A tree whose size fits the 32-bit field is less than 64 levels tall. */
  lemma HeightFitsPath(t: Tree)
    requires Balanced(t) && Count(t) < SIZE_LIMIT
    ensures Height(t) < MAX_DEPTH
  {
    hide Height, Balanced, Count;
    if Height(t) >= MAX_DEPTH {
      TallTreesAreLarge(t, 32);
      assert Pow2(8) == 0x100;
      Pow2Add(8, 8);
      Pow2Add(16, 16);
    }
  }

  // ---------- Paths ----------

  /** One step of a search path: the element passed, the side taken, and the
      subtree on the other side. */
  datatype Frame = Frame(n: Elem, dir: Dir, sib: Tree)

  ghost function Fill(f: Frame, t: Tree): Tree {
    if f.dir == 0 then Fork(t, f.n, f.sib) else Fork(f.sib, f.n, t)
  }

  /** The tree obtained by putting `t` at the end of the path `fs`. */
  ghost function Plug(fs: seq<Frame>, t: Tree): Tree {
    if fs == [] then t else Plug(fs[..|fs| - 1], Fill(fs[|fs| - 1], t))
  }

  ghost function BeforeOf(f: Frame): seq<Elem> {
    if f.dir == 1 then InOrder(f.sib) + [f.n] else []
  }

  ghost function AfterOf(f: Frame): seq<Elem> {
    if f.dir == 0 then [f.n] + InOrder(f.sib) else []
  }

  ghost function Before(fs: seq<Frame>): seq<Elem> {
    if fs == [] then [] else Before(fs[..|fs| - 1]) + BeforeOf(fs[|fs| - 1])
  }

  ghost function After(fs: seq<Frame>): seq<Elem> {
    if fs == [] then [] else AfterOf(fs[|fs| - 1]) + After(fs[..|fs| - 1])
  }

  lemma Regroup<T>(a: seq<T>, b: seq<T>, c: seq<T>, d: seq<T>, e: seq<T>)
    ensures a + (b + c + d) + e == (a + b) + c + (d + e)
  {
  }

  lemma {:induction false} InOrderFill(f: Frame, t: Tree)
    ensures InOrder(Fill(f, t)) == BeforeOf(f) + InOrder(t) + AfterOf(f)
  {
    if f.dir == 0 {
      assert InOrder(Fill(f, t)) == InOrder(t) + ([f.n] + InOrder(f.sib));
    } else {
      assert InOrder(Fill(f, t)) == (InOrder(f.sib) + [f.n]) + InOrder(t);
    }
  }

  lemma {:induction false} InOrderPlug(fs: seq<Frame>, t: Tree)
    ensures InOrder(Plug(fs, t)) == Before(fs) + InOrder(t) + After(fs)
  {
    if fs != [] {
      var f, rest := fs[|fs| - 1], fs[..|fs| - 1];
      InOrderPlug(rest, Fill(f, t));
      InOrderFill(f, t);
      Regroup(Before(rest), BeforeOf(f), InOrder(t), AfterOf(f), After(rest));
    }
  }

  ghost function Members<T>(s: seq<T>): set<T> {
    set x | x in s
  }

  lemma {:induction false} InOrderFacts(t: Tree)
    ensures |InOrder(t)| == Count(t)
    ensures Members(InOrder(t)) == Nodes(t)
  {
    if t.Fork? {
      InOrderFacts(t.l);
      InOrderFacts(t.r);
      assert Members(InOrder(t)) == Members(InOrder(t.l)) + {t.n} + Members(InOrder(t.r));
    }
  }

  lemma ForkOrder(t: Tree)
    requires t.Fork?
    ensures InOrder(t) == InOrder(t.l) + [t.n] + InOrder(t.r)
  {
  }

  ghost predicate NoRepeats<T>(s: seq<T>) {
    forall i, j :: 0 <= i < j < |s| ==> s[i] != s[j]
  }

  lemma NoRepeatsParts<T>(a: seq<T>, x: T, b: seq<T>)
    requires NoRepeats(a + [x] + b)
    ensures NoRepeats(a) && NoRepeats(b) && x !in a && x !in b
    ensures Members(a) !! Members(b)
  {
    var s := a + [x] + b;
    assert a == s[..|a|] && b == s[|a| + 1..] && s[|a|] == x;
  }

  lemma NoRepeatsJoin<T>(a: seq<T>, x: T, b: seq<T>)
    requires NoRepeats(a) && NoRepeats(b) && x !in a && x !in b
    requires Members(a) !! Members(b)
    ensures NoRepeats(a + [x] + b)
  {
    var s := a + [x] + b;
    forall i, j | 0 <= i < j < |s|
      ensures s[i] != s[j]
    {
      if i < |a| {
        assert s[i] in Members(a);
        assert j > |a| ==> s[j] in Members(b);
      } else if i == |a| {
        assert s[j] in b;
      }
    }
  }

  /** Distinctness is a matter of the in-order sequence alone. */
  lemma {:induction false} DistinctIsNoRepeats(t: Tree)
    ensures Distinct(t) <==> NoRepeats(InOrder(t))
  {
    if t.Fork? {
      DistinctIsNoRepeats(t.l);
      DistinctIsNoRepeats(t.r);
      InOrderFacts(t.l);
      InOrderFacts(t.r);
      var a, b := InOrder(t.l), InOrder(t.r);
      if NoRepeats(InOrder(t)) {
        NoRepeatsParts(a, t.n, b);
      }
      if Distinct(t) {
        NoRepeatsJoin(a, t.n, b);
      }
    }
  }

  // ---------- Paths in memory ----------

  ghost function StepNodes(f: Frame): set<Elem> {
    Nodes(f.sib) + {f.n}
  }

  ghost function CtxNodes(fs: seq<Frame>): set<Elem> {
    set i, m | 0 <= i < |fs| && m in StepNodes(fs[i]) :: m
  }

  lemma CtxNodesSnoc(fs: seq<Frame>, f: Frame)
    ensures CtxNodes(fs + [f]) == CtxNodes(fs) + StepNodes(f)
  {
    var gs := fs + [f];
    forall m | m in CtxNodes(fs) + StepNodes(f)
      ensures m in CtxNodes(gs)
    {
      if m in CtxNodes(fs) {
        var i :| 0 <= i < |fs| && m in StepNodes(fs[i]);
        assert m in StepNodes(gs[i]);
      } else {
        assert m in StepNodes(gs[|fs|]);
      }
    }
  }

  ghost predicate StepApart(fs: seq<Frame>, i: nat, j: nat)
    requires i < |fs| && j < |fs|
  {
    && Distinct(fs[i].sib) && fs[i].n !in Nodes(fs[j].sib)
    && (i != j ==> fs[i].n != fs[j].n && Nodes(fs[i].sib) !! Nodes(fs[j].sib))
  }

  /** The elements passed by the path and those beside it are all different. */
  ghost predicate CtxDistinct(fs: seq<Frame>) {
    forall i, j :: 0 <= i < |fs| && 0 <= j < |fs| ==> StepApart(fs, i, j)
  }

  ghost function FillHeight(f: Frame, hh: nat): nat {
    1 + Max(hh, Height(f.sib))
  }

  ghost function FillBalance(f: Frame, hh: nat): int {
    if f.dir == 0 then Height(f.sib) - hh else hh - Height(f.sib)
  }

  /** Height of what hangs below step `i` when a tree of height `hh` hangs at the end. */
  ghost function HeightAt(fs: seq<Frame>, i: nat, hh: nat): nat
    requires i < |fs|
    decreases |fs| - i
  {
    if i + 1 == |fs| then hh else FillHeight(fs[i + 1], HeightAt(fs, i + 1, hh))
  }

  ghost function CountAt(fs: seq<Frame>, i: nat, cc: nat): nat
    requires i < |fs|
    decreases |fs| - i
  {
    if i + 1 == |fs| then cc else CountAt(fs, i + 1, cc) + 1 + Count(fs[i + 1].sib)
  }

  ghost function Below(fs: seq<Frame>, i: nat, p: Elem?): Elem?
    requires i < |fs|
  {
    if i + 1 == |fs| then p else fs[i + 1].n
  }

  ghost function Top(fs: seq<Frame>, p: Elem?): Elem? {
    if fs == [] then p else fs[0].n
  }

  /** The fields of one step agree with a tree of height `hh` and size `cc` at `child`. */
  ghost predicate FrameHolds(f: Frame, child: Elem?, hh: nat, cc: nat)
    reads StepNodes(f)
  {
    && f.n.kids[f.dir] == child
    && f.n.balance == FillBalance(f, hh)
    && f.n.size == cc + 1 + Count(f.sib)
    && Holds(f.n.kids[1 - f.dir], f.sib)
  }

  ghost predicate StepHolds(fs: seq<Frame>, i: nat, p: Elem?, hh: nat, cc: nat)
    requires i < |fs|
    reads StepNodes(fs[i])
  {
    FrameHolds(fs[i], Below(fs, i, p), HeightAt(fs, i, hh), CountAt(fs, i, cc))
  }

  /** The path `fs` ends at `p`, and every step agrees with a tree of height
      `hh` and size `cc` hanging there. */
  ghost predicate CtxHolds(fs: seq<Frame>, p: Elem?, hh: nat, cc: nat)
    reads CtxNodes(fs)
  {
    forall i :: 0 <= i < |fs| ==> StepHolds(fs, i, p, hh, cc)
  }

  /** The same for the steps from `from` up to `to` only. */
  ghost predicate StepsHold(fs: seq<Frame>, from: nat, to: nat, p: Elem?, hh: nat, cc: nat)
    requires to <= |fs|
    reads CtxNodes(fs)
  {
    forall i :: from <= i < to ==> StepHolds(fs, i, p, hh, cc)
  }

  ghost predicate StepBalanced(fs: seq<Frame>, i: nat, hh: nat)
    requires i < |fs|
  {
    Balanced(fs[i].sib) && -1 <= HeightAt(fs, i, hh) - Height(fs[i].sib) <= 1
  }

  ghost predicate CtxBalanced(fs: seq<Frame>, hh: nat) {
    forall i :: 0 <= i < |fs| ==> StepBalanced(fs, i, hh)
  }

  lemma {:induction false} HeightAtInit(fs: seq<Frame>, i: nat, hh: nat, cc: nat)
    requires i + 1 < |fs|
    ensures HeightAt(fs[..|fs| - 1], i, FillHeight(fs[|fs| - 1], hh)) == HeightAt(fs, i, hh)
    ensures CountAt(fs[..|fs| - 1], i, cc + 1 + Count(fs[|fs| - 1].sib)) == CountAt(fs, i, cc)
    decreases |fs| - i
  {
    if i + 2 < |fs| {
      HeightAtInit(fs, i + 1, hh, cc);
    }
  }

  lemma {:induction false} HeightAtDrop(fs: seq<Frame>, lo: nat, i: nat, hh: nat, cc: nat)
    requires lo <= i < |fs|
    ensures HeightAt(fs[lo..], i - lo, hh) == HeightAt(fs, i, hh)
    ensures CountAt(fs[lo..], i - lo, cc) == CountAt(fs, i, cc)
    decreases |fs| - i
  {
    if i + 1 < |fs| {
      HeightAtDrop(fs, lo, i + 1, hh, cc);
    }
  }

  lemma {:induction false} HeightAtTake(fs: seq<Frame>, hi: nat, i: nat, hh: nat, cc: nat)
    requires i < hi < |fs|
    ensures HeightAt(fs[..hi], i, FillHeight(fs[hi], HeightAt(fs, hi, hh))) == HeightAt(fs, i, hh)
    ensures CountAt(fs[..hi], i, CountAt(fs, hi, cc) + 1 + Count(fs[hi].sib)) == CountAt(fs, i, cc)
    decreases hi - i
  {
    if i + 1 < hi {
      HeightAtTake(fs, hi, i + 1, hh, cc);
    }
  }

  lemma CtxBalancedInit(fs: seq<Frame>, hh: nat)
    requires fs != []
    ensures CtxBalanced(fs, hh) <==>
            StepBalanced(fs, |fs| - 1, hh) && CtxBalanced(fs[..|fs| - 1], FillHeight(fs[|fs| - 1], hh))
  {
    var k := |fs| - 1;
    var rest, up := fs[..k], FillHeight(fs[k], hh);
    forall i | 0 <= i < k
      ensures StepBalanced(rest, i, up) <==> StepBalanced(fs, i, hh)
    {
      HeightAtInit(fs, i, hh, 0);
    }
    if StepBalanced(fs, k, hh) && CtxBalanced(rest, up) {
      forall i | 0 <= i < |fs|
        ensures StepBalanced(fs, i, hh)
      {
        assert i < k ==> StepBalanced(rest, i, up);
      }
    }
    if CtxBalanced(fs, hh) {
      forall i | 0 <= i < k
        ensures StepBalanced(rest, i, up)
      {
        assert StepBalanced(fs, i, hh);
      }
    }
  }

  /** Measures of the plugged tree. */
  lemma {:induction false} PlugMeasures(fs: seq<Frame>, t: Tree)
    requires fs != []
    ensures Height(Plug(fs, t)) == FillHeight(fs[0], HeightAt(fs, 0, Height(t)))
    ensures Count(Plug(fs, t)) == CountAt(fs, 0, Count(t)) + 1 + Count(fs[0].sib)
  {
    var k := |fs| - 1;
    if k > 0 {
      PlugMeasures(fs[..k], Fill(fs[k], t));
      HeightAtInit(fs, 0, Height(t), Count(t));
    }
  }

  lemma FillMeasures(f: Frame, t: Tree)
    ensures Height(Fill(f, t)) == FillHeight(f, Height(t))
    ensures Count(Fill(f, t)) == Count(t) + 1 + Count(f.sib)
    ensures Balanced(Fill(f, t)) <==> Balanced(t) && Balanced(f.sib) && -1 <= Height(t) - Height(f.sib) <= 1
  {
  }

  lemma {:induction false} PlugBalanced(fs: seq<Frame>, t: Tree)
    requires Balanced(t) && CtxBalanced(fs, Height(t))
    ensures Balanced(Plug(fs, t))
  {
    hide Height, Balanced, CtxBalanced;
    if fs != [] {
      CtxBalancedInit(fs, Height(t));
      FillMeasures(fs[|fs| - 1], t);
      PlugBalanced(fs[..|fs| - 1], Fill(fs[|fs| - 1], t));
    }
  }

  lemma {:induction false} PlugNodes(fs: seq<Frame>, t: Tree)
    ensures Nodes(Plug(fs, t)) == CtxNodes(fs) + Nodes(t)
  {
    if fs != [] {
      var k := |fs| - 1;
      CtxNodesSnoc(fs[..k], fs[k]);
      assert fs[..k] + [fs[k]] == fs;
      PlugNodes(fs[..k], Fill(fs[k], t));
    } else {
      assert CtxNodes(fs) == {};
    }
  }

  lemma StepInit(fs: seq<Frame>, i: nat, p: Elem?, hh: nat, cc: nat)
    requires i + 1 < |fs|
    ensures var f := fs[|fs| - 1];
            StepHolds(fs[..|fs| - 1], i, f.n, FillHeight(f, hh), cc + 1 + Count(f.sib)) <==> StepHolds(fs, i, p, hh, cc)
  {
    HeightAtInit(fs, i, hh, cc);
  }

  lemma CtxHoldsInit(fs: seq<Frame>, p: Elem?, hh: nat, cc: nat)
    requires fs != []
    ensures var f := fs[|fs| - 1];
            CtxHolds(fs, p, hh, cc) <==>
            FrameHolds(f, p, hh, cc) && CtxHolds(fs[..|fs| - 1], f.n, FillHeight(f, hh), cc + 1 + Count(f.sib))
  {
    var k := |fs| - 1;
    var f, rest := fs[k], fs[..k];
    var hh', cc' := FillHeight(f, hh), cc + 1 + Count(f.sib);
    forall i | 0 <= i < k
      ensures StepHolds(rest, i, f.n, hh', cc') <==> StepHolds(fs, i, p, hh, cc)
    {
      StepInit(fs, i, p, hh, cc);
    }
    assert StepHolds(fs, k, p, hh, cc) <==> FrameHolds(f, p, hh, cc);
    if FrameHolds(f, p, hh, cc) && CtxHolds(rest, f.n, hh', cc') {
      forall i | 0 <= i < |fs|
        ensures StepHolds(fs, i, p, hh, cc)
      {
        assert i < k ==> StepHolds(rest, i, f.n, hh', cc');
      }
    }
    if CtxHolds(fs, p, hh, cc) {
      forall i | 0 <= i < k
        ensures StepHolds(rest, i, f.n, hh', cc')
      {
        assert StepHolds(fs, i, p, hh, cc);
      }
    }
  }

  /** A step and the tree below it spell out one tree. */
  lemma HoldsFill(f: Frame, p: Elem?, t: Tree)
    ensures Holds(p, t) && FrameHolds(f, p, Height(t), Count(t)) ==> Holds(f.n, Fill(f, t))
    ensures Holds(p, Fill(f, t)) ==>
      p == f.n && Holds(f.n.kids[f.dir], t) && FrameHolds(f, f.n.kids[f.dir], Height(t), Count(t))
  {
  }

  /** A path whose steps agree with the tree at its end spells out the plugged tree. */
  lemma {:induction false} Assemble(fs: seq<Frame>, p: Elem?, t: Tree)
    requires Holds(p, t) && CtxHolds(fs, p, Height(t), Count(t))
    ensures Holds(Top(fs, p), Plug(fs, t))
  {
    if fs != [] {
      var k := |fs| - 1;
      CtxHoldsInit(fs, p, Height(t), Count(t));
      HoldsFill(fs[k], p, t);
      Assemble(fs[..k], fs[k].n, Fill(fs[k], t));
    }
  }

  lemma CtxApart(fs: seq<Frame>, k: nat)
    requires CtxDistinct(fs) && k < |fs|
    ensures forall j :: 0 <= j < |fs| && j != k ==> fs[k].n !in StepNodes(fs[j])
    ensures fs[k].n !in Nodes(fs[k].sib)
  {
    assert StepApart(fs, k, k);
    forall j | 0 <= j < |fs| && j != k
      ensures fs[k].n !in StepNodes(fs[j])
    {
      assert StepApart(fs, k, j);
    }
  }

  lemma CtxDistinctSnoc(fs: seq<Frame>, f: Frame)
    requires CtxDistinct(fs) && Distinct(f.sib) && f.n !in Nodes(f.sib) && CtxNodes(fs) !! StepNodes(f)
    ensures CtxDistinct(fs + [f])
  {
    var gs := fs + [f];
    forall i, j | 0 <= i < |gs| && 0 <= j < |gs|
      ensures StepApart(gs, i, j)
    {
      if i < |fs| {
        assert StepApart(fs, i, i);
        assert StepNodes(fs[i]) <= CtxNodes(fs);
      }
      if j < |fs| {
        assert StepApart(fs, j, j);
        assert StepNodes(fs[j]) <= CtxNodes(fs);
      }
      if i < |fs| && j < |fs| {
        assert StepApart(fs, i, j);
      }
    }
  }

  /** Everything known about a path during a search: it leads from the whole
      tree to `t`, which hangs at `p`. */
  ghost predicate Visiting(fs: seq<Frame>, p: Elem?, t: Tree)
    reads CtxNodes(fs), Nodes(t)
  {
    && Holds(p, t) && CtxHolds(fs, p, Height(t), Count(t))
    && CtxDistinct(fs) && Distinct(t) && CtxNodes(fs) !! Nodes(t)
    && Balanced(t) && CtxBalanced(fs, Height(t))
  }

  lemma SnocParts<T>(s: seq<T>, x: T)
    ensures (s + [x])[..|s + [x]| - 1] == s && (s + [x])[|s + [x]| - 1] == x
  {
  }

  lemma DescendShape(fs: seq<Frame>, t: Tree, f: Frame, sub: Tree)
    requires CtxDistinct(fs) && Distinct(t) && CtxNodes(fs) !! Nodes(t) && t == Fill(f, sub)
    ensures CtxDistinct(fs + [f]) && Distinct(sub) && CtxNodes(fs + [f]) !! Nodes(sub)
  {
    CtxNodesSnoc(fs, f);
    CtxDistinctSnoc(fs, f);
  }

  lemma DescendFields(fs: seq<Frame>, p: Elem?, t: Tree, f: Frame, sub: Tree)
    requires Holds(p, t) && CtxHolds(fs, p, Height(t), Count(t)) && t == Fill(f, sub)
    ensures Holds(f.n.kids[f.dir], sub)
    ensures CtxHolds(fs + [f], f.n.kids[f.dir], Height(sub), Count(sub))
  {
    hide Holds, FrameHolds, Height, Count, CtxHolds;
    var gs := fs + [f];
    SnocParts(fs, f);
    HoldsFill(f, p, sub);
    FillMeasures(f, sub);
    assert CtxHolds(gs[..|gs| - 1], f.n, FillHeight(f, Height(sub)), Count(sub) + 1 + Count(f.sib));
    CtxHoldsInit(gs, f.n.kids[f.dir], Height(sub), Count(sub));
  }

  lemma DescendBalance(fs: seq<Frame>, t: Tree, f: Frame, sub: Tree)
    requires Balanced(t) && CtxBalanced(fs, Height(t)) && t == Fill(f, sub)
    ensures Balanced(sub) && CtxBalanced(fs + [f], Height(sub))
  {
    var gs := fs + [f];
    SnocParts(fs, f);
    FillMeasures(f, sub);
    assert CtxBalanced(gs[..|gs| - 1], FillHeight(f, Height(sub)));
    assert HeightAt(gs, |fs|, Height(sub)) == Height(sub);
    CtxBalancedInit(gs, Height(sub));
  }

  /** Going one step further down keeps everything known about the path. */
  lemma Descend(fs: seq<Frame>, p: Elem?, t: Tree, f: Frame, sub: Tree)
    requires Visiting(fs, p, t) && t == Fill(f, sub)
    ensures Visiting(fs + [f], f.n.kids[f.dir], sub)
    ensures Plug(fs + [f], sub) == Plug(fs, t)
    ensures Before(fs + [f]) == Before(fs) + BeforeOf(f)
  {
    SnocParts(fs, f);
    DescendShape(fs, t, f, sub);
    DescendBalance(fs, t, f, sub);
    DescendFields(fs, p, t, f, sub);
  }

  // ---------- Rotations of shapes ----------

  /** The element `n` with `inner` on side `dir` and `outer` on the other. */
  ghost function Join(dir: Dir, inner: Tree, n: Elem, outer: Tree): Tree {
    if dir == 0 then Fork(inner, n, outer) else Fork(outer, n, inner)
  }

  /** The balance factor of an element with heights `inner` on side `dir` and `outer` on the other. */
  function Lean(dir: Dir, inner: int, outer: int): int {
    if dir == 0 then outer - inner else inner - outer
  }

  lemma HoldsJoin(dir: Dir, inner: Tree, n: Elem, outer: Tree)
    ensures Holds(n, Join(dir, inner, n, outer)) <==>
            && Holds(n.kids[dir], inner) && Holds(n.kids[1 - dir], outer)
            && n.balance == Lean(dir, Height(inner), Height(outer))
            && n.size == Count(inner) + 1 + Count(outer)
  {
  }

  lemma JoinElements(dir: Dir, inner: Tree, n: Elem, outer: Tree)
    ensures Nodes(Join(dir, inner, n, outer)) == Nodes(inner) + {n} + Nodes(outer)
    ensures Distinct(Join(dir, inner, n, outer)) <==>
            && Distinct(inner) && Distinct(outer)
            && n !in Nodes(inner) && n !in Nodes(outer) && Nodes(inner) !! Nodes(outer)
  {
  }

  lemma JoinMeasures(dir: Dir, inner: Tree, n: Elem, outer: Tree)
    ensures Height(Join(dir, inner, n, outer)) == 1 + Max(Height(inner), Height(outer))
    ensures Count(Join(dir, inner, n, outer)) == Count(inner) + 1 + Count(outer)
    ensures Balanced(Join(dir, inner, n, outer)) <==>
            Balanced(inner) && Balanced(outer) && -1 <= Height(outer) - Height(inner) <= 1
  {
  }

  lemma JoinParts(dir: Dir, inner: Tree, n: Elem, outer: Tree)
    ensures Nodes(Join(dir, inner, n, outer)) == Nodes(inner) + {n} + Nodes(outer)
    ensures Distinct(Join(dir, inner, n, outer)) <==>
            && Distinct(inner) && Distinct(outer)
            && n !in Nodes(inner) && n !in Nodes(outer) && Nodes(inner) !! Nodes(outer)
    ensures Height(Join(dir, inner, n, outer)) == 1 + Max(Height(inner), Height(outer))
    ensures Count(Join(dir, inner, n, outer)) == Count(inner) + 1 + Count(outer)
    ensures Balanced(Join(dir, inner, n, outer)) <==>
            Balanced(inner) && Balanced(outer) && -1 <= Height(outer) - Height(inner) <= 1
  {
    hide Nodes, Distinct, Height, Count, Balanced, Join;
    JoinElements(dir, inner, n, outer);
    JoinMeasures(dir, inner, n, outer);
  }

  ghost function Single(dir: Dir, a: Tree, p: Elem, b: Tree, q: Elem, c: Tree): Tree {
    Join(dir, Join(dir, a, p, b), q, c)
  }

  ghost function Double(dir: Dir, a: Tree, p: Elem, b: Tree, r: Elem, c: Tree, q: Elem, d: Tree): Tree {
    Join(dir, Join(dir, a, p, b), r, Join(dir, c, q, d))
  }

  /** Rotations never reorder. */
  lemma SingleKeepsOrder(dir: Dir, a: Tree, p: Elem, b: Tree, q: Elem, c: Tree)
    ensures InOrder(Single(dir, a, p, b, q, c)) == InOrder(Join(dir, a, p, Join(dir, b, q, c)))
  {
    var ia, ib, ic := InOrder(a), InOrder(b), InOrder(c);
    if dir == 0 {
      assert (ia + [p] + ib) + [q] + ic == ia + [p] + (ib + [q] + ic);
    } else {
      assert ic + [q] + (ib + [p] + ia) == (ic + [q] + ib) + [p] + ia;
    }
  }

  lemma JoinOrder(dir: Dir, inner: Tree, n: Elem, outer: Tree)
    ensures InOrder(Join(dir, inner, n, outer)) ==
            if dir == 0 then InOrder(inner) + [n] + InOrder(outer) else InOrder(outer) + [n] + InOrder(inner)
  {
  }

  lemma DoubleKeepsOrder(dir: Dir, a: Tree, p: Elem, b: Tree, r: Elem, c: Tree, q: Elem, d: Tree)
    ensures InOrder(Double(dir, a, p, b, r, c, q, d)) == InOrder(Join(dir, a, p, Join(dir, Join(dir, b, r, c), q, d)))
  {
    hide InOrder, Join;
    var inner := Join(dir, b, r, c);
    JoinOrder(dir, b, r, c);
    JoinOrder(dir, inner, q, d);
    JoinOrder(dir, a, p, Join(dir, inner, q, d));
    JoinOrder(dir, a, p, b);
    JoinOrder(dir, c, q, d);
    JoinOrder(dir, Join(dir, a, p, b), r, Join(dir, c, q, d));
    var ia, ib, ic, id := InOrder(a), InOrder(b), InOrder(c), InOrder(d);
    if dir == 0 {
      assert (ia + [p] + ib) + [r] + (ic + [q] + id) == ia + [p] + ((ib + [r] + ic) + [q] + id);
    } else {
      assert (id + [q] + ic) + [r] + (ib + [p] + ia) == (id + [q] + (ic + [r] + ib)) + [p] + ia;
    }
  }

  /** The balance factor of a step with a tree of height `hh` at the end of the path. */
  ghost function Tilt(fs: seq<Frame>, i: nat, hh: nat): int
    requires i < |fs|
  {
    FillBalance(fs[i], HeightAt(fs, i, hh))
  }

  /** While nothing below step `b` leans to a side, one more level at the end is one more level at `b`. */
  lemma {:induction false} GrowHeights(fs: seq<Frame>, b: nat, i: nat)
    requires b <= i < |fs|
    requires forall j :: b < j < |fs| ==> Tilt(fs, j, 0) == 0
    ensures HeightAt(fs, i, 1) == HeightAt(fs, i, 0) + 1
    decreases |fs| - i
  {
    if i + 1 < |fs| {
      GrowHeights(fs, b, i + 1);
      assert Tilt(fs, i + 1, 0) == 0;
    }
  }

  /** A step that absorbs the change of height hides it from all steps above. */
  lemma {:induction false} AbsorbedAbove(fs: seq<Frame>, b: nat, i: nat, h0: nat, h1: nat)
    requires i < b < |fs|
    requires FillHeight(fs[b], HeightAt(fs, b, h0)) == FillHeight(fs[b], HeightAt(fs, b, h1))
    ensures HeightAt(fs, i, h0) == HeightAt(fs, i, h1)
    decreases b - i
  {
    if i + 1 < b {
      AbsorbedAbove(fs, b, i + 1, h0, h1);
    }
  }

  lemma {:induction false} CountAtShift(fs: seq<Frame>, i: nat, cc: nat, dd: nat)
    requires i < |fs|
    ensures CountAt(fs, i, cc + dd) == CountAt(fs, i, cc) + dd
    decreases |fs| - i
  {
    if i + 1 < |fs| {
      CountAtShift(fs, i + 1, cc, dd);
    }
  }
}
