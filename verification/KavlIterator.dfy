/** In-order traversal of the AVL tree with a stack of at most 64 elements. */
module KavlIterator {
  import opened AvlTrees
  import Kavl

  /** What a traversal still has to visit: the top of the stack, its right
      subtree, and so on downwards. */
  ghost function Upcoming(es: seq<Elem>, rs: seq<Tree>): seq<Elem>
    requires |es| == |rs|
  {
    if es == [] then []
    else
      var k := |es| - 1;
      [es[k]] + InOrder(rs[k]) + Upcoming(es[..k], rs[..k])
  }

  /** The stack agrees with the ghost elements and their pending right subtrees. */
  ghost predicate Stacked(stack: seq<Elem?>, top: int, es: seq<Elem>, rs: seq<Tree>, nodes: set<Elem>)
    reads nodes
  {
    && |stack| == MAX_DEPTH && |es| == |rs| == top + 1 <= MAX_DEPTH
    && forall i :: 0 <= i <= top ==> Slot(stack[i], es[i], rs[i], i, nodes)
  }

  ghost predicate Slot(p: Elem?, e: Elem, r: Tree, i: nat, nodes: set<Elem>)
    reads nodes
  {
    && p == e && e in nodes && Nodes(r) <= nodes
    && i + Height(r) < MAX_DEPTH && Holds(e.kids[1], r)
  }

  /** One step down the left spine. */
  lemma Pushed(stack: seq<Elem?>, top: int, es: seq<Elem>, rs: seq<Tree>, nodes: set<Elem>, q: Elem, cur: Tree)
    requires Stacked(stack, top, es, rs, nodes)
    requires Holds(q, cur) && Nodes(cur) <= nodes && top + 1 + Height(cur) <= MAX_DEPTH
    ensures cur.Fork? && Holds(q.kids[0], cur.l) && Nodes(cur.l) <= nodes && top + 2 + Height(cur.l) <= MAX_DEPTH
    ensures Stacked(stack[top + 1 := q], top + 1, es + [q], rs + [cur.r], nodes)
    ensures InOrder(cur.l) + Upcoming(es + [q], rs + [cur.r]) == InOrder(cur) + Upcoming(es, rs)
  {
    hide Height, InOrder, Nodes, Holds;
    ForkFacts(q, cur);
    var es', rs' := es + [q], rs + [cur.r];
    assert es'[..|es|] == es && rs'[..|rs|] == rs;
    assert Upcoming(es', rs') == [q] + InOrder(cur.r) + Upcoming(es, rs);
    Regroup(InOrder(cur.l), [q], InOrder(cur.r), Upcoming(es, rs));
    assert Slot(q, q, cur.r, top + 1, nodes);
    var stack' := stack[top + 1 := q];
    forall i | 0 <= i <= top + 1
      ensures Slot(stack'[i], es'[i], rs'[i], i, nodes)
    {
      if i <= top {
        assert Slot(stack[i], es[i], rs[i], i, nodes);
      }
    }
  }

  lemma Regroup<T>(a: seq<T>, b: seq<T>, c: seq<T>, d: seq<T>)
    ensures a + (b + c + d) == a + b + c + d
  {
  }

  class Iterator {
    var stack: seq<Elem?>
    var top: int
    var right: Elem?
    ghost var es: seq<Elem>
    ghost var rs: seq<Tree>
    ghost var nodes: set<Elem>

    ghost predicate StackOk()
      reads this, nodes
    {
      Stacked(stack, top, es, rs, nodes)
    }

    ghost predicate Valid()
      reads this, nodes
    {
      StackOk() && (top >= 0 ==> right == es[top].kids[1])
    }

    /** The element the iterator stands at, or null at the end. */
    function At(): Elem?
      requires Valid()
      reads this, nodes
    {
      if top < 0 then null else stack[top]
    }

    ghost function Rest(): seq<Elem>
      requires Valid()
      reads this, nodes
    {
      Upcoming(es, rs)
    }

    /** Pushes the left side of the subtree `t` at `p`. */
    method PushLeft(p: Elem?, ghost t: Tree)
      requires StackOk() && Holds(p, t) && Nodes(t) <= nodes && top + 1 + Height(t) <= MAX_DEPTH
      modifies this`stack, this`top, this`es, this`rs
      ensures StackOk()
      ensures Upcoming(es, rs) == InOrder(t) + old(Upcoming(es, rs))
      ensures top >= old(top) && (p != null ==> top > old(top))
    {
      hide Height, InOrder, Nodes, Holds, Stacked, Upcoming;
      var q := p;
      StackRoom(stack, top, es, rs, nodes);
      ghost var cur, start := t, Upcoming(es, rs);
      while q != null
        invariant StackOk() && |es| == |rs| && Holds(q, cur) && Nodes(cur) <= nodes
        invariant top + 1 + Height(cur) <= MAX_DEPTH
        invariant InOrder(cur) + Upcoming(es, rs) == InOrder(t) + start
        invariant top >= old(top) && (q == null && p != null ==> top > old(top))
        decreases cur
      {
        Pushed(stack, top, es, rs, nodes, q, cur);
        StackRoom(stack, top, es, rs, nodes);
        top := top + 1;
        stack := stack[top := q];
        es, rs := es + [q], rs + [cur.r];
        q, cur := q.kids[0], cur.l;
      }
      EmptyHeld(q, cur);
    }

    /** Places the iterator at the first element. */
    constructor (root: Elem?, ghost t: Tree)
      requires Kavl.Valid(root, t) && Count(t) < SIZE_LIMIT && root != null
      ensures Valid() && fresh(this) && nodes == Nodes(t) && Rest() == InOrder(t)
    {
      stack, top, right := seq(MAX_DEPTH, i => null), -1, null;
      es, rs, nodes := [], [], Nodes(t);
      new;
      HeightFitsPath(t);
      PushLeft(root, t);
      right := stack[top].kids[1];
      assert InOrder(t) + [] == InOrder(t);
    }

    /** Moves to the next element in order, if there is one. */
    method Next() returns (more: bool)
      requires Valid() && top >= 0
      modifies this
      ensures Valid() && nodes == old(nodes) && Rest() == old(Rest())[1..] && (more <==> Rest() != [])
    {
      hide Height, InOrder, Nodes, Holds;
      ghost var k := top;
      ghost var r, es', rs' := rs[k], es[..k], rs[..k];
      assert Upcoming(es, rs)[1..] == InOrder(r) + Upcoming(es', rs');
      var p := right;
      top := top - 1;
      es, rs := es', rs';
      PushLeft(p, r);
      if top < 0 {
        return false;
      }
      right := stack[top].kids[1];
      more := true;
    }
  }

  lemma StackRoom(stack: seq<Elem?>, top: int, es: seq<Elem>, rs: seq<Tree>, nodes: set<Elem>)
    requires Stacked(stack, top, es, rs, nodes)
    ensures |stack| == MAX_DEPTH && |es| == |rs| == top + 1
  {
  }

  lemma EmptyHeld(p: Elem?, t: Tree)
    requires Holds(p, t) && p == null
    ensures InOrder(t) == [] && forall s: seq<Elem> :: InOrder(t) + s == s
  {
  }

  lemma ForkFacts(p: Elem, t: Tree)
    requires Holds(p, t)
    ensures t.Fork? && p == t.n && Holds(p.kids[0], t.l) && Holds(p.kids[1], t.r)
    ensures InOrder(t) == InOrder(t.l) + [p] + InOrder(t.r) && Nodes(t) == Nodes(t.l) + {p} + Nodes(t.r)
    ensures Height(t.l) < Height(t) && Height(t.r) < Height(t)
  {
  }

  /** A full traversal visits every element once, in order. */
  method Traverse(root: Elem, ghost t: Tree) returns (visited: seq<Elem>)
    requires Kavl.Valid(root, t) && Count(t) < SIZE_LIMIT
    ensures visited == InOrder(t)
  {
    hide Height, InOrder, Nodes, Holds, Distinct, Balanced, Count, Upcoming, Stacked;
    NodesAllocated(t);
    var itr := new Iterator(root, t);
    NonEmpty(root, t);
    visited := [];
    var more := true;
    while more
      invariant itr.Valid() && fresh(itr) && itr.nodes == Nodes(t)
      invariant visited + itr.Rest() == InOrder(t) && (more <==> itr.Rest() != [])
      decreases |itr.Rest()|
    {
      RestHead(itr);
      ghost var rest := itr.Rest();
      OneFurther(visited, rest);
      visited := visited + [itr.stack[itr.top]];
      more := itr.Next();
    }
    assert visited + [] == visited;
  }

  lemma OneFurther(visited: seq<Elem>, rest: seq<Elem>)
    requires rest != []
    ensures (visited + [rest[0]]) + rest[1..] == visited + rest
  {
  }

  lemma NonEmpty(root: Elem, t: Tree)
    requires Holds(root, t)
    ensures InOrder(t) != []
  {
  }

  lemma RestHead(itr: Iterator)
    requires itr.Valid() && itr.Rest() != []
    ensures 0 <= itr.top < |itr.stack| && itr.stack[itr.top] == itr.Rest()[0] && itr.At() == itr.Rest()[0]
  {
  }
}
