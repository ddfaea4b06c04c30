/** The shapes a pool's tree takes as keys are added: search trees of bare keys, related
    step by step as the pool inserts and evicts, whatever the comparison. */
module KeyTrees {
  import opened Elements
  import opened AvlTrees
  import Kavl
  import KavlErase

  datatype Shape = Nil | Node(l: Shape, k: Key, r: Shape)

  function Keys(s: Shape): seq<Key> {
    match s
    case Nil => []
    case Node(l, k, r) => Keys(l) + [k] + Keys(r)
  }

  function Tall(s: Shape): nat {
    match s
    case Nil => 0
    case Node(l, _, r) => 1 + AvlTrees.Max(Tall(l), Tall(r))
  }

  /** The AVL condition. */
  predicate Even(s: Shape) {
    match s
    case Nil => true
    case Node(l, _, r) => Even(l) && Even(r) && -1 <= Tall(r) - Tall(l) <= 1
  }

  /** Where the search for `x` ends. */
  function Seek(cmp: Kavl.Comparator, x: Key, s: Shape): Kavl.Place {
    match s
    case Nil => Kavl.Absent(0)
    case Node(l, k, r) =>
      var c := cmp(x, k);
      if c == 0 then Kavl.Found(|Keys(l)|)
      else if c < 0 then Seek(cmp, x, l)
      else Seek(cmp, x, r).Shift(|Keys(l)| + 1)
  }

  /** `s` with `x` hung where the search for it ends. */
  function Hung(cmp: Kavl.Comparator, x: Key, s: Shape): Shape {
    match s
    case Nil => Node(Nil, x, Nil)
    case Node(l, k, r) =>
      var c := cmp(x, k);
      if c == 0 then s else if c < 0 then Node(Hung(cmp, x, l), k, r) else Node(l, k, Hung(cmp, x, r))
  }

  function PutIn(ks: seq<Key>, i: nat, x: Key): seq<Key>
    requires i <= |ks|
  {
    ks[..i] + [x] + ks[i..]
  }

  function TakenOut(ks: seq<Key>, i: nat): seq<Key>
    requires i < |ks|
  {
    ks[..i] + ks[i + 1..]
  }

  /** kavl_insert of a key for which the search finds nothing: it comes in at that place,
      and the tree is rebalanced if it must be. */
  predicate Inserted(cmp: Kavl.Comparator, s: Shape, x: Key, s': Shape) {
    var at := Seek(cmp, x, s);
    && at.Absent? && at.at <= |Keys(s)| && Keys(s') == PutIn(Keys(s), at.at, x) && Even(s')
    && (Even(Hung(cmp, x, s)) ==> s' == Hung(cmp, x, s))
  }

  /** kavl_erase of a key that the search finds. */
  predicate Deleted(cmp: Kavl.Comparator, s: Shape, x: Key, s': Shape) {
    var at := Seek(cmp, x, s);
    at.Found? && at.at < |Keys(s)| && Keys(s') == TakenOut(Keys(s), at.at) && Even(s')
  }

  /** mem_add: longer keys found in place of `x` are deleted until it can be inserted or
      one that is not longer is found. */
  ghost predicate Added(cmp: Kavl.Comparator, s: Shape, x: Key, s': Shape)
    decreases |Keys(s)|
  {
    var at := Seek(cmp, x, s);
    if at.Absent? then Inserted(cmp, s, x, s')
    else
      && at.at < |Keys(s)|
      && var v := Keys(s)[at.at];
      if x.len < v.len then exists u: Shape :: |Keys(u)| < |Keys(s)| && Deleted(cmp, s, v, u) && Added(cmp, u, x, s')
      else s' == s
  }

  /** A list of keys added to an empty pool. */
  ghost predicate AllAdded(cmp: Kavl.Comparator, keys: seq<Key>, s: Shape)
    decreases |keys|
  {
    if keys == [] then s == Nil
    else
      var front, last := keys[..|keys| - 1], keys[|keys| - 1];
      exists t :: AllAdded(cmp, front, t) && Added(cmp, t, last, s)
  }

  lemma AddedOneMore(cmp: Kavl.Comparator, keys: seq<Key>, k: Key, t: Shape, s: Shape)
    requires AllAdded(cmp, keys, t) && Added(cmp, t, k, s)
    ensures AllAdded(cmp, keys + [k], s)
  {
    var all := keys + [k];
    assert all[..|all| - 1] == keys && all[|all| - 1] == k;
  }

  /** A smaller key added after another one hangs to its left, where a search to the right does not look. */
  lemma TwoAdded(cmp: Kavl.Comparator, a: Key, b: Key, q: Key)
    requires cmp(b, a) < 0 && cmp(q, a) > 0
    ensures AllAdded(cmp, [a, b], Node(Node(Nil, b, Nil), a, Nil))
    ensures Seek(cmp, q, Node(Node(Nil, b, Nil), a, Nil)).Absent?
  {
    hide AllAdded, Added, Seek;
    var one, two := Node(Nil, a, Nil), Node(Node(Nil, b, Nil), a, Nil);
    NoneAddedYet(cmp);
    FirstAdded(cmp, a);
    SecondAdded(cmp, a, b);
    AddedOneMore(cmp, [], a, Nil, one);
    AddedOneMore(cmp, [a], b, one, two);
    assert [] + [a] == [a] && [a] + [b] == [a, b];
    PastRoot(cmp, a, b, q);
  }

  lemma NoneAddedYet(cmp: Kavl.Comparator)
    ensures AllAdded(cmp, [], Nil)
  {
  }

  lemma PastRoot(cmp: Kavl.Comparator, a: Key, b: Key, q: Key)
    requires cmp(q, a) > 0
    ensures Seek(cmp, q, Node(Node(Nil, b, Nil), a, Nil)).Absent?
  {
    hide Keys;
    assert Seek(cmp, q, Nil) == Kavl.Absent(0);
  }

  lemma FirstAdded(cmp: Kavl.Comparator, a: Key)
    ensures Added(cmp, Nil, a, Node(Nil, a, Nil))
  {
    var one := Node(Nil, a, Nil);
    assert Tall(Nil) == 0 && Even(Nil) && Even(one);
    assert Keys(Nil) == [] && Keys(one) == PutIn([], 0, a);
  }

  lemma SecondAdded(cmp: Kavl.Comparator, a: Key, b: Key)
    requires cmp(b, a) < 0
    ensures Added(cmp, Node(Nil, a, Nil), b, Node(Node(Nil, b, Nil), a, Nil))
  {
    var one, left, two := Node(Nil, a, Nil), Node(Nil, b, Nil), Node(Node(Nil, b, Nil), a, Nil);
    assert Seek(cmp, b, Nil) == Kavl.Absent(0) && Seek(cmp, b, one) == Kavl.Absent(0);
    assert Hung(cmp, b, Nil) == left && Hung(cmp, b, one) == two;
    assert Tall(Nil) == 0 && Even(Nil) && Tall(left) == 1 && Even(left) && Even(two);
    assert Keys(Nil) == [] && Keys(left) == [b] && Keys(one) == [a] && Keys(two) == PutIn([a], 0, b);
  }

  // ---------- The shape of a tree of elements ----------

  ghost function ShapeOf(t: Tree): Shape {
    match t
    case Leaf => Nil
    case Fork(l, n, r) => Node(ShapeOf(l), n.key, ShapeOf(r))
  }

  ghost function KeysOf(s: seq<Elem>): (ks: seq<Key>)
    ensures |ks| == |s| && forall i :: 0 <= i < |s| ==> ks[i] == s[i].key
  {
    if s == [] then [] else [s[0].key] + KeysOf(s[1..])
  }

  lemma {:induction false} KeysOfJoin(a: seq<Elem>, b: seq<Elem>)
    ensures KeysOf(a + b) == KeysOf(a) + KeysOf(b)
  {
    hide KeysOf;
  }

  lemma {:induction false} ShapeKeys(t: Tree)
    ensures Keys(ShapeOf(t)) == KeysOf(InOrder(t)) && |Keys(ShapeOf(t))| == Count(t)
  {
    hide KeysOf;
    match t
    case Leaf =>
    case Fork(l, n, r) =>
      ShapeKeys(l);
      ShapeKeys(r);
      KeysOfJoin(InOrder(l) + [n], InOrder(r));
      KeysOfJoin(InOrder(l), [n]);
  }

  lemma {:induction false} ShapeEven(t: Tree)
    ensures Tall(ShapeOf(t)) == Height(t) && (Even(ShapeOf(t)) <==> Balanced(t))
  {
    if t.Fork? {
      ShapeEven(t.l);
      ShapeEven(t.r);
    }
  }

  lemma {:induction false} ShapeSeek(cmp: Kavl.Comparator, x: Key, t: Tree)
    ensures Seek(cmp, x, ShapeOf(t)) == Kavl.Locate(cmp, x, t)
  {
    hide Keys;
    if t.Fork? {
      ShapeSeek(cmp, x, t.l);
      ShapeSeek(cmp, x, t.r);
      ShapeKeys(t.l);
    }
  }

  /** The shape has the tree's keys, balance and searches. */
  lemma ShapeFacts(cmp: Kavl.Comparator, x: Key, t: Tree)
    ensures Keys(ShapeOf(t)) == KeysOf(InOrder(t)) && |Keys(ShapeOf(t))| == Count(t)
    ensures Even(ShapeOf(t)) <==> Balanced(t)
    ensures Seek(cmp, x, ShapeOf(t)) == Kavl.Locate(cmp, x, t)
  {
    ShapeKeys(t);
    ShapeEven(t);
    ShapeSeek(cmp, x, t);
  }

  lemma {:induction false} ShapeHung(cmp: Kavl.Comparator, e: Elem, t: Tree)
    ensures ShapeOf(Kavl.Graft(cmp, e.key, Kavl.Single1(e), t)) == Hung(cmp, e.key, ShapeOf(t))
  {
    if t.Fork? {
      ShapeHung(cmp, e, t.l);
      ShapeHung(cmp, e, t.r);
    }
  }

  /** What the contract of the insertion says in terms of shapes. */
  lemma InsertedShape(cmp: Kavl.Comparator, e: Elem, t: Tree, t': Tree)
    requires Kavl.Locate(cmp, e.key, t).Absent? && Kavl.Locate(cmp, e.key, t).at <= |InOrder(t)| && Balanced(t')
    requires InOrder(t') == Kavl.InsertedAt(InOrder(t), Kavl.Locate(cmp, e.key, t).at, e)
    requires var plain := Kavl.Graft(cmp, e.key, Kavl.Single1(e), t);
      Balanced(plain) ==> t' == plain
    ensures Inserted(cmp, ShapeOf(t), e.key, ShapeOf(t'))
  {
    hide Balanced, Height, Even, Tall, Keys, InOrder, KeysOf, Hung, ShapeOf, Kavl.Graft;
    ShapeFacts(cmp, e.key, t);
    ShapeFacts(cmp, e.key, t');
    ShapeFacts(cmp, e.key, Kavl.Graft(cmp, e.key, Kavl.Single1(e), t));
    ShapeHung(cmp, e, t);
    KeysInserted(InOrder(t), Kavl.Locate(cmp, e.key, t).at, e);
  }

  lemma KeysOfCut(s: seq<Elem>, i: nat)
    requires i <= |s|
    ensures KeysOf(s[..i]) == KeysOf(s)[..i] && KeysOf(s[i..]) == KeysOf(s)[i..]
  {
    hide KeysOf;
    KeysOfJoin(s[..i], s[i..]);
    assert s == s[..i] + s[i..];
  }

  lemma KeysOfOne(e: Elem)
    ensures KeysOf([e]) == [e.key]
  {
  }

  lemma KeysInserted(s: seq<Elem>, i: nat, e: Elem)
    requires i <= |s|
    ensures KeysOf(Kavl.InsertedAt(s, i, e)) == PutIn(KeysOf(s), i, e.key)
  {
    hide KeysOf;
    KeysOfJoin(s[..i] + [e], s[i..]);
    KeysOfJoin(s[..i], [e]);
    KeysOfOne(e);
    KeysOfCut(s, i);
  }

  lemma KeysRemoved(s: seq<Elem>, i: nat)
    requires i < |s|
    ensures KeysOf(KavlErase.RemovedAt(s, i)) == TakenOut(KeysOf(s), i)
  {
    hide KeysOf;
    KeysOfJoin(s[..i], s[i + 1..]);
    KeysOfCut(s, i);
    KeysOfCut(s, i + 1);
  }

  /** ... and of the removal. */
  lemma DeletedShape(cmp: Kavl.Comparator, x: Key, t: Tree, t': Tree)
    requires Kavl.Locate(cmp, x, t).Found? && Kavl.Locate(cmp, x, t).at < |InOrder(t)| && Balanced(t')
    requires InOrder(t') == KavlErase.RemovedAt(InOrder(t), Kavl.Locate(cmp, x, t).at)
    ensures Deleted(cmp, ShapeOf(t), x, ShapeOf(t')) && |Keys(ShapeOf(t'))| < |Keys(ShapeOf(t))|
  {
    hide Balanced, Height, Even, Tall, Keys, InOrder, KeysOf, ShapeOf;
    ShapeFacts(cmp, x, t);
    ShapeFacts(cmp, x, t');
    KeysRemoved(InOrder(t), Kavl.Locate(cmp, x, t).at);
  }

  // ---------- The loop of mem_add ----------

  /** The search for `x` ends at the key `v`. */
  predicate StandsIn(cmp: Kavl.Comparator, s: Shape, x: Key, v: Key) {
    var at := Seek(cmp, x, s);
    at.Found? && at.at < |Keys(s)| && Keys(s)[at.at] == v
  }

  /** The loop is at `s`: `x` is in, or whatever comes of adding it from here comes of
      adding it from the start. */
  ghost predicate Underway(cmp: Kavl.Comparator, start: Shape, s: Shape, x: Key, v: Key, done: bool) {
    if done then Added(cmp, start, x, s)
    else StandsIn(cmp, s, x, v) && forall s' :: Added(cmp, s, x, s') ==> Added(cmp, start, x, s')
  }

  /** One round: `v` is evicted, and `x` comes in or meets another key. */
  ghost predicate Turn(cmp: Kavl.Comparator, s: Shape, x: Key, v: Key, s': Shape, v': Key, done: bool) {
    exists u :: Deleted(cmp, s, v, u) && |Keys(u)| < |Keys(s)| && Tried(cmp, u, x, s', v', done)
  }

  predicate Tried(cmp: Kavl.Comparator, s: Shape, x: Key, s': Shape, v: Key, done: bool) {
    if done then Inserted(cmp, s, x, s') else s' == s && StandsIn(cmp, s, x, v)
  }

  lemma FirstTry(cmp: Kavl.Comparator, s: Shape, x: Key, s': Shape, v: Key, done: bool)
    requires Tried(cmp, s, x, s', v, done)
    ensures Underway(cmp, s, s', x, v, done)
  {
  }

  lemma NextTurn(cmp: Kavl.Comparator, start: Shape, s: Shape, x: Key, v: Key, s': Shape, v': Key, done: bool)
    requires Underway(cmp, start, s, x, v, false) && x.len < v.len && Turn(cmp, s, x, v, s', v', done)
    ensures Underway(cmp, start, s', x, v', done)
  {
    hide Deleted, Inserted, Keys, Seek;
    var u :| Deleted(cmp, s, v, u) && |Keys(u)| < |Keys(s)| && Tried(cmp, u, x, s', v', done);
    forall t | Added(cmp, u, x, t)
      ensures Added(cmp, start, x, t)
    {
      assert Added(cmp, s, x, t);
    }
    if done {
      assert Added(cmp, u, x, s') by { InsertedAdds(cmp, u, x, s'); }
    }
  }

  lemma UnderwayDone(cmp: Kavl.Comparator, start: Shape, s: Shape, x: Key, v: Key)
    requires Underway(cmp, start, s, x, v, true)
    ensures Added(cmp, start, x, s)
  {
  }

  lemma InsertedAdds(cmp: Kavl.Comparator, s: Shape, x: Key, s': Shape)
    requires Inserted(cmp, s, x, s')
    ensures Added(cmp, s, x, s')
  {
  }

  /** A key that stands and is not longer ends the loop. */
  lemma LastTurn(cmp: Kavl.Comparator, start: Shape, s: Shape, x: Key, v: Key)
    requires Underway(cmp, start, s, x, v, false) && v.len <= x.len
    ensures Added(cmp, start, x, s)
  {
    assert Added(cmp, s, x, s);
  }
}
