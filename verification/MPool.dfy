/** Pools of keys: an AVL tree in which no key covers another, used as an index
    for "is this query covered by some added key". */
module MPool {
  import opened Octets
  import opened Prefixes
  import opened Elements
  import opened Comparators
  import opened AvlTrees
  import Kavl
  import KavlErase
  import opened KeyTrees
  import opened KeyOrder

  // ---------- Sequences of stored elements ----------

  /** Elements of one kind in strictly ascending order. */
  ghost predicate Ordered(signedChar: bool, ct: CmpType, s: seq<Elem>) {
    && (forall i :: 0 <= i < |s| ==> s[i].key.cmpType == ct && Clean(signedChar, s[i].key))
    && forall i, j :: 0 <= i < j < |s| ==> Scmp(signedChar)(s[i].key, s[j].key) < 0
  }

  /** The canonical sequences of the stored keys. */
  ghost function Canons(signedChar: bool, s: seq<Elem>): set<seq<int>> {
    set i | 0 <= i < |s| :: Canon(signedChar, s[i].key)
  }

  lemma OrderedIsMonotone(signedChar: bool, ct: CmpType, s: seq<Elem>, x: Key)
    requires Ordered(signedChar, ct, s) && x.cmpType == ct
    ensures Kavl.Monotone(Scmp(signedChar), x, s)
  {
    forall i, j | 0 <= i < j < |s|
      ensures Sign(Scmp(signedChar)(x, s[i].key)) >= Sign(Scmp(signedChar)(x, s[j].key))
    {
      ScmpFalls(signedChar, x, s[i].key, s[j].key);
    }
  }

  /** Stored keys are never comparable with each other. */
  lemma OrderedIsAntichain(signedChar: bool, ct: CmpType, s: seq<Elem>, i: nat, j: nat)
    requires Ordered(signedChar, ct, s) && i < |s| && j < |s|
    ensures Scmp(signedChar)(s[i].key, s[j].key) == 0 <==> i == j
  {
    ScmpAntisymmetric(signedChar, s[i].key, s[j].key);
    EqualMeansCovers(signedChar, s[i].key, s[j].key);
  }

  lemma InsertedIndex(s: seq<Elem>, at: nat, x: Elem)
    requires at <= |s|
    ensures var u := Kavl.InsertedAt(s, at, x);
            |u| == |s| + 1 && forall i :: 0 <= i < |u| ==>
                u[i] == if i < at then s[i] else if i == at then x else s[i - 1]
  {
  }

  lemma OrderedInserted(signedChar: bool, ct: CmpType, s: seq<Elem>, at: nat, x: Elem)
    requires Ordered(signedChar, ct, s) && x.key.cmpType == ct && Clean(signedChar, x.key)
    requires Kavl.IsGap(Scmp(signedChar), x.key, s, at)
    ensures Ordered(signedChar, ct, Kavl.InsertedAt(s, at, x))
  {
    hide Scmp, Clean;
    var u := Kavl.InsertedAt(s, at, x);
    InsertedIndex(s, at, x);
    forall i, j | 0 <= i < j < |u|
      ensures Scmp(signedChar)(u[i].key, u[j].key) < 0
    {
      if j == at {
        ScmpAntisymmetric(signedChar, x.key, s[i].key);
      } else if i != at {
        assert Scmp(signedChar)(s[if i < at then i else i - 1].key, s[if j < at then j else j - 1].key) < 0;
      }
    }
  }

  lemma CanonsInserted(signedChar: bool, s: seq<Elem>, at: nat, x: Elem)
    requires at <= |s|
    ensures Canons(signedChar, Kavl.InsertedAt(s, at, x)) == Canons(signedChar, s) + {Canon(signedChar, x.key)}
  {
    hide Canon;
    var u := Kavl.InsertedAt(s, at, x);
    InsertedIndex(s, at, x);
    forall i | 0 <= i < |s|
      ensures Canon(signedChar, s[i].key) in Canons(signedChar, u)
    {
      assert u[if i < at then i else i + 1] == s[i];
    }
    assert u[at] == x;
  }

  lemma RemovedIndex(s: seq<Elem>, at: nat)
    requires at < |s|
    ensures var u := KavlErase.RemovedAt(s, at);
            |u| == |s| - 1 && forall i :: 0 <= i < |u| ==> u[i] == if i < at then s[i] else s[i + 1]
  {
  }

  lemma OrderedRemoved(signedChar: bool, ct: CmpType, s: seq<Elem>, at: nat)
    requires Ordered(signedChar, ct, s) && at < |s|
    ensures Ordered(signedChar, ct, KavlErase.RemovedAt(s, at))
  {
    hide Scmp, Canon, Clean;
    RemovedIndex(s, at);
  }

  lemma CanonsRemoved(signedChar: bool, ct: CmpType, s: seq<Elem>, at: nat)
    requires Ordered(signedChar, ct, s) && at < |s|
    ensures Canons(signedChar, KavlErase.RemovedAt(s, at)) == Canons(signedChar, s) - {Canon(signedChar, s[at].key)}
  {
    hide Scmp, Canon, Clean;
    var u := KavlErase.RemovedAt(s, at);
    RemovedIndex(s, at);
    forall i | 0 <= i < |s| && i != at
      ensures Canon(signedChar, s[i].key) in Canons(signedChar, u)
      ensures Canon(signedChar, s[i].key) != Canon(signedChar, s[at].key)
    {
      assert u[if i < at then i else i - 1] == s[i];
      CanonsDiffer(signedChar, ct, s, i, at);
    }
  }

  lemma CanonsDiffer(signedChar: bool, ct: CmpType, s: seq<Elem>, i: nat, j: nat)
    requires Ordered(signedChar, ct, s) && i < |s| && j < |s| && i != j
    ensures PrefixCmp(Canon(signedChar, s[i].key), Canon(signedChar, s[j].key)) != 0
    ensures Canon(signedChar, s[i].key) != Canon(signedChar, s[j].key)
  {
    OrderedIsAntichain(signedChar, ct, s, i, j);
    ScmpIsPrefixCmp(signedChar, s[i].key, s[j].key);
    PrefixCmpZero(Canon(signedChar, s[i].key), Canon(signedChar, s[j].key));
  }

  lemma CanonsAntichain(signedChar: bool, ct: CmpType, s: seq<Elem>)
    requires Ordered(signedChar, ct, s)
    ensures Antichain(Canons(signedChar, s))
  {
    var ps := Canons(signedChar, s);
    forall a, b | a in ps && b in ps && a != b
      ensures PrefixCmp(a, b) != 0
    {
      var i :| 0 <= i < |s| && Canon(signedChar, s[i].key) == a;
      var j :| 0 <= j < |s| && Canon(signedChar, s[j].key) == b;
      CanonsDiffer(signedChar, ct, s, i, j);
    }
  }

  /** Some stored key is a prefix of the query exactly when some stored key covers it. */
  lemma CoveredIsCovers(signedChar: bool, ct: CmpType, s: seq<Elem>, x: Key)
    requires Ordered(signedChar, ct, s) && x.cmpType == ct
    ensures Covered(Canons(signedChar, s), Canon(signedChar, x)) <==> exists i :: 0 <= i < |s| && Covers(s[i].key, x)
  {
    var ps, c := Canons(signedChar, s), Canon(signedChar, x);
    if Covered(ps, c) {
      var p :| p in ps && p <= c;
      var i :| 0 <= i < |s| && Canon(signedChar, s[i].key) == p;
      CoversIsPrefix(signedChar, s[i].key, x);
    }
    if exists i :: 0 <= i < |s| && Covers(s[i].key, x) {
      var i :| 0 <= i < |s| && Covers(s[i].key, x);
      CoversIsPrefix(signedChar, s[i].key, x);
      assert Canon(signedChar, s[i].key) in ps;
    }
  }

  lemma CanonLength(signedChar: bool, k: Key)
    ensures |Canon(signedChar, k)| == k.len + if k.cmpType == Bits then 0 else 1
  {
  }

  lemma NoneComparable(signedChar: bool, ct: CmpType, s: seq<Elem>, x: Key)
    requires Ordered(signedChar, ct, s) && x.cmpType == ct && Clean(signedChar, x)
    requires forall i :: 0 <= i < |s| ==> Scmp(signedChar)(x, s[i].key) != 0
    ensures forall p :: p in Canons(signedChar, s) ==> PrefixCmp(Canon(signedChar, x), p) != 0
  {
    hide Scmp, Canon, Clean, PrefixCmp;
    forall i | 0 <= i < |s|
      ensures PrefixCmp(Canon(signedChar, x), Canon(signedChar, s[i].key)) != 0
    {
      ScmpIsPrefixCmp(signedChar, x, s[i].key);
    }
  }

  /** An element in the way of the longer kind is covered by the new key ... */
  lemma Evicted(signedChar: bool, x: Key, v: Key)
    requires x.cmpType == v.cmpType && Scmp(signedChar)(x, v) == 0 && x.len < v.len
    ensures Canon(signedChar, x) <= Canon(signedChar, v) && |Canon(signedChar, x)| < |Canon(signedChar, v)|
  {
    EqualMeansCovers(signedChar, x, v);
    EqualMeansCovers(signedChar, v, x);
    CoversIsPrefix(signedChar, x, v);
    CanonLength(signedChar, x);
    CanonLength(signedChar, v);
  }

  /** ... and any other one covers it. */
  lemma Standing(signedChar: bool, x: Key, v: Key)
    requires x.cmpType == v.cmpType && Scmp(signedChar)(x, v) == 0 && v.len <= x.len
    ensures Covers(v, x) && Canon(signedChar, v) <= Canon(signedChar, x)
  {
    EqualMeansCovers(signedChar, x, v);
    CoversIsPrefix(signedChar, v, x);
    CoversIsPrefix(signedChar, x, v);
    CanonLength(signedChar, x);
    CanonLength(signedChar, v);
  }

  /** Evicting one longer key after another, and then inserting, is one addition. */
  lemma AddByEviction(ps: set<seq<int>>, rest: set<seq<int>>, c: seq<int>)
    requires rest <= ps && forall s :: s in ps && s !in rest ==> c <= s && |c| < |s|
    requires forall s :: s in rest ==> PrefixCmp(c, s) != 0
    ensures rest + {c} == AddPrefix(ps, c)
  {
    forall s | s in ps
      ensures s in rest <==> !(c <= s)
      ensures !(s <= c)
    {
      PrefixCmpZero(c, s);
    }
  }

  /** Nothing is evicted when some stored key covers the new one. */
  lemma NothingEvicted(ps: set<seq<int>>, rest: set<seq<int>>, c: seq<int>, v: seq<int>)
    requires Antichain(ps) && rest <= ps && v in rest && v <= c
    requires forall s :: s in ps && s !in rest ==> c <= s && |c| < |s|
    ensures rest == ps == AddPrefix(ps, c)
  {
    forall s | s in ps
      ensures s in rest
    {
      if s !in rest {
        PrefixTransitive(v, c, s);
        PrefixCmpZero(v, s);
      }
    }
    assert Covered(ps, c);
  }

  /** Where the search of a pool ends, and what that says of its keys. */
  lemma SearchIn(signedChar: bool, ct: CmpType, t: Tree, x: Key) returns (at: Kavl.Place)
    requires Sorted(signedChar, ct, Keys(ShapeOf(t))) && x.cmpType == ct
    ensures at == Kavl.Locate(Scmp(signedChar), x, t)
    ensures at.Found? ==>
      && at.at < |InOrder(t)| && InOrder(t)[at.at].key.cmpType == ct
      && Scmp(signedChar)(x, InOrder(t)[at.at].key) == 0
    ensures at.Absent? ==> at.at <= |InOrder(t)| && forall i :: 0 <= i < |InOrder(t)| ==> InOrder(t)[i].key != x
    ensures at.Absent? && Ordered(signedChar, ct, InOrder(t)) ==>
      forall i :: 0 <= i < |InOrder(t)| ==> Scmp(signedChar)(x, InOrder(t)[i].key) != 0
  {
    hide Ordered, Sorted, Scmp, InOrder, Kavl.Locate, Kavl.Monotone, Keys, ShapeOf;
    at := Kavl.Locate(Scmp(signedChar), x, t);
    ShapeFacts(Scmp(signedChar), x, t);
    Kavl.LocateInRange(Scmp(signedChar), x, t);
    if at.Found? {
      SortedKind(signedChar, ct, Keys(ShapeOf(t)), at.at);
    } else {
      forall i | 0 <= i < |InOrder(t)|
        ensures InOrder(t)[i].key != x
      {
        MissIsNew(signedChar, ShapeOf(t), i, x);
      }
      if Ordered(signedChar, ct, InOrder(t)) {
        OrderedIsMonotone(signedChar, ct, InOrder(t), x);
        Kavl.LocateComplete(Scmp(signedChar), x, t);
      }
    }
  }

  lemma MissIsNew(sc: bool, s: Shape, i: nat, x: Key)
    requires i < |Keys(s)| && Sorted(sc, x.cmpType, Keys(s)) && Seek(Scmp(sc), x, s).Absent?
    ensures Keys(s)[i] != x
  {
    hide Sorted, Scmp, Seek, Keys;
    if Keys(s)[i] == x {
      StoredIsFound(sc, s, i);
    }
  }

  lemma NoneCovers(signedChar: bool, ct: CmpType, s: seq<Elem>, x: Key)
    requires Ordered(signedChar, ct, s) && x.cmpType == ct
    requires forall i :: 0 <= i < |s| ==> Scmp(signedChar)(x, s[i].key) != 0
    ensures forall i :: 0 <= i < |s| ==> !Covers(s[i].key, x) && !Covers(x, s[i].key)
  {
    hide Scmp, Covers;
    forall i | 0 <= i < |s|
      ensures !Covers(s[i].key, x) && !Covers(x, s[i].key)
    {
      EqualMeansCovers(signedChar, x, s[i].key);
    }
  }

  /** The tree without the element at `i`. */
  lemma WithoutOne(signedChar: bool, t: Tree, t': Tree, x: Key, i: nat)
    requires Distinct(t) && Balanced(t')
    requires i < |InOrder(t)| && Kavl.Locate(Scmp(signedChar), x, t) == Kavl.Found(i)
    requires InOrder(t') == KavlErase.RemovedAt(InOrder(t), i)
    ensures Count(t') == Count(t) - 1
    ensures Nodes(t') <= Nodes(t) && InOrder(t)[i] in InOrder(t) && InOrder(t)[i] !in Nodes(t')
    ensures Deleted(Scmp(signedChar), ShapeOf(t), x, ShapeOf(t')) && |Keys(ShapeOf(t'))| < |Keys(ShapeOf(t))|
  {
    hide Height, Count, Balanced, Distinct, Nodes, InOrder, NoRepeats, Scmp, Canon, Canons, ShapeOf, Keys, Deleted,
      Kavl.Locate;
    DeletedShape(Scmp(signedChar), x, t, t');
    DistinctIsNoRepeats(t);
    KavlErase.NoRepeatsWithout(InOrder(t), i);
    InOrderFacts(t);
    InOrderFacts(t');
  }

  /** A clean key put where the search for it found nothing. */
  lemma InsertedClear(signedChar: bool, ct: CmpType, t: Tree, at: nat, e: Elem)
    requires Ordered(signedChar, ct, InOrder(t)) && Clean(signedChar, e.key) && e.key.cmpType == ct
    requires Kavl.Locate(Scmp(signedChar), e.key, t) == Kavl.Absent(at)
    ensures at <= |InOrder(t)| && Ordered(signedChar, ct, Kavl.InsertedAt(InOrder(t), at, e))
    ensures Canons(signedChar, Kavl.InsertedAt(InOrder(t), at, e))
      == Canons(signedChar, InOrder(t)) + {Canon(signedChar, e.key)}
    ensures forall p :: p in Canons(signedChar, InOrder(t)) ==> PrefixCmp(Canon(signedChar, e.key), p) != 0
  {
    hide Ordered, Scmp, Canon, Canons, Clean, InOrder, PrefixCmp, Kavl.Locate, Kavl.Monotone;
    OrderedIsMonotone(signedChar, ct, InOrder(t), e.key);
    Kavl.LocateComplete(Scmp(signedChar), e.key, t);
    Kavl.LocateInRange(Scmp(signedChar), e.key, t);
    OrderedInserted(signedChar, ct, InOrder(t), at, e);
    CanonsInserted(signedChar, InOrder(t), at, e);
    NoneComparable(signedChar, ct, InOrder(t), e.key);
  }

  // ---------- The pool ----------

  class Pool {
    const signedChar: bool
    const cmpType: CmpType
    var count: nat
    var root: Elem?
    ghost var tree: Tree

    ghost predicate Valid()
      reads this, Nodes(tree)
    {
      && Kavl.Valid(root, tree)
      && count == Count(tree) < SIZE_LIMIT
      && Sorted(signedChar, cmpType, Keys(Shape()))
      && (cmpType != Host ==> Clear())
    }

    /** No name contains a byte below the dot, and no key covers another. Only host names can
        break this. */
    ghost predicate Clear()
      reads this
    {
      Ordered(signedChar, cmpType, InOrder(tree))
    }

    ghost function Stored(): set<seq<int>>
      reads this
    {
      Canons(signedChar, InOrder(tree))
    }

    ghost function Shape(): Shape
      reads this
    {
      ShapeOf(tree)
    }

    constructor (signedChar: bool, cmpType: CmpType)
      ensures Valid() && this.signedChar == signedChar && this.cmpType == cmpType
      ensures Clear() && Stored() == {} && tree == Leaf && count == 0
    {
      this.signedChar, this.cmpType := signedChar, cmpType;
      count, root, tree := 0, null, Leaf;
    }

    /** Lookup: the key at which the search ends. It covers the query or is covered by it;
        a key that is stored is never missed, and in a clear pool none comparable is. */
    method Get(x: Key) returns (v: Elem?)
      requires Valid() && x.cmpType == cmpType
      ensures Located(Seek(Scmp(signedChar), x, Shape()), v)
      ensures v == null ==> forall i :: 0 <= i < |InOrder(tree)| ==> InOrder(tree)[i].key != x
      ensures v == null && Clear() ==>
        forall i :: 0 <= i < |InOrder(tree)| ==> !Covers(InOrder(tree)[i].key, x) && !Covers(x, InOrder(tree)[i].key)
      ensures v != null ==> v in InOrder(tree) && v.key.cmpType == cmpType && (Covers(v.key, x) || Covers(x, v.key))
    {
      hide Ordered, Holds, Balanced, Height, Count, Distinct, Nodes, InOrder, Sorted, Scmp, Covers, Seek, Keys, KeysOf,
        ShapeOf, Kavl.Locate;
      var cnt;
      v, cnt := Kavl.Find(root, x, Scmp(signedChar), tree);
      ghost var at := SearchIn(signedChar, cmpType, tree, x);
      ShapeFacts(Scmp(signedChar), x, tree);
      if v != null {
        EqualMeansCovers(signedChar, x, v.key);
      } else if Clear() {
        NoneCovers(signedChar, cmpType, InOrder(tree), x);
      }
    }

    ghost predicate Located(at: Kavl.Place, v: Elem?)
      reads this
    {
      match at
      case Found(i) => i < |InOrder(tree)| && v == InOrder(tree)[i]
      case Absent(_) => v == null
    }

    /** Removes one key comparable with `x`, the one at which the search for it ends. */
    method Delete(x: Key) returns (ghost gone: Elem?)
      requires Valid() && x.cmpType == cmpType
      modifies this, Nodes(tree)
      ensures Valid() && Nodes(tree) <= old(Nodes(tree)) && (old(Clear()) ==> Clear())
      ensures gone == null ==>
                && tree == old(tree) && count == old(count)
                && forall i :: 0 <= i < |InOrder(tree)| ==> InOrder(tree)[i].key != x
      ensures gone == null && Clear() ==>
        forall i :: 0 <= i < |InOrder(tree)| ==> Scmp(signedChar)(x, InOrder(tree)[i].key) != 0
      ensures gone != null ==>
                && gone in old(InOrder(tree)) && gone !in Nodes(tree) && Scmp(signedChar)(x, gone.key) == 0
                && count == old(count) - 1
                && Deleted(Scmp(signedChar), old(Shape()), x, Shape())
                && |Keys(Shape())| < |Keys(old(Shape()))|
      ensures gone != null && old(Clear()) ==> Stored() == old(Stored()) - {Canon(signedChar, gone.key)}
    {
      hide Holds, Height, Count, Balanced, Distinct, Nodes, InOrder, NoRepeats, Scmp, Canon, Canons, Ordered, Covers;
      hide ShapeOf, Keys, Deleted, Sorted, Kavl.Locate;
      ghost var t0, s0 := tree, Shape();
      var r, e, cnt;
      ghost var t;
      ghost var at := SearchIn(signedChar, cmpType, tree, x);
      InOrderFacts(tree);
      r, e, cnt, t := KavlErase.Erase(root, x, Scmp(signedChar), tree);
      root, tree, gone := r, t, e;
      if e == null {
        return;
      }
      WithoutOne(signedChar, t0, t, x, at.at);
      DeletedSorted(signedChar, cmpType, s0, x, ShapeOf(t));
      if Ordered(signedChar, cmpType, InOrder(t0)) {
        OrderedRemoved(signedChar, cmpType, InOrder(t0), at.at);
        CanonsRemoved(signedChar, cmpType, InOrder(t0), at.at);
      }
      count := count - 1;
    }

    /** Tries to put `e` in; returns the element that stands in its way, or `e` itself. */
    method TryInsert(e: Elem) returns (v: Elem)
      requires Valid() && e.key.cmpType == cmpType && e !in Nodes(tree) && count + 1 < SIZE_LIMIT
      modifies this`root, this`tree, Nodes(tree), e
      ensures Kavl.Valid(root, tree) && Sorted(signedChar, cmpType, Keys(Shape()))
      ensures v != e ==>
                && tree == old(tree) && root == old(root)
                && v in Nodes(tree) && Scmp(signedChar)(e.key, v.key) == 0
                && v.key.cmpType == cmpType && Canon(signedChar, v.key) in Stored()
      ensures v == e ==> Nodes(tree) == old(Nodes(tree)) + {e} && Count(tree) == old(Count(tree)) + 1
      ensures Tried(Scmp(signedChar), old(Shape()), e.key, Shape(), v.key, v == e)
      ensures old(Clear()) && Clean(signedChar, e.key) ==> Clear()
      ensures v == e && old(Clear()) && Clean(signedChar, e.key) ==>
                && Stored() == old(Stored()) + {Canon(signedChar, e.key)}
                && forall p :: p in old(Stored()) ==> PrefixCmp(Canon(signedChar, e.key), p) != 0
    {
      hide Holds, Height, Count, Balanced, Distinct, Nodes, InOrder, Scmp, Canon, Canons, Clean, Ordered, PrefixCmp;
      hide ShapeOf, Keys, Inserted, Sorted, KeysOf, Kavl.Graft, Kavl.Locate;
      ghost var t0, s0 := tree, Shape();
      ghost var s := InOrder(tree);
      ghost var at := SearchIn(signedChar, cmpType, tree, e.key);
      InOrderFacts(tree);
      var r, cnt;
      ghost var t;
      r, v, cnt, t := Kavl.Insert(root, e, Scmp(signedChar), tree);
      root, tree := r, t;
      InOrderFacts(t);
      if v == e {
        Kavl.LocateInRange(Scmp(signedChar), e.key, t0);
        InsertedShape(Scmp(signedChar), e, t0, t);
        InsertedSorted(signedChar, s0, e.key, ShapeOf(t));
        assert Members(Kavl.InsertedAt(s, cnt, e)) == Members(s) + {e};
        if Ordered(signedChar, cmpType, s) && Clean(signedChar, e.key) {
          InsertedClear(signedChar, cmpType, t0, cnt, e);
        }
      } else {
        ShapeFacts(Scmp(signedChar), e.key, t0);
        MemberKind(signedChar, s, v);
      }
    }

    /** Adds a key. The search for it may meet keys that are longer: one after another is
        deleted, until it meets none or one that is not longer, which stands. It always
        comes to an end. In a clear pool the key thus stands back for one that covers it,
        and otherwise replaces every stored key that it covers. */
    method Add(key: Key) returns (v: Elem)
      requires Valid() && key.cmpType == cmpType && count + 1 < SIZE_LIMIT
      modifies this, Nodes(tree)
      ensures Valid() && count <= old(count) + 1
      ensures forall o: Elem :: o in Nodes(tree) ==> o in old(Nodes(tree)) || fresh(o)
      ensures v in Nodes(tree) && v.key.cmpType == cmpType && Covers(v.key, key)
      ensures Added(Scmp(signedChar), old(Shape()), key, Shape())
      ensures old(Clear()) && Clean(signedChar, key) ==>
        Clear() && Stored() == AddPrefix(old(Stored()), Canon(signedChar, key))
    {
      hide Holds, Height, Count, Balanced, Distinct, Nodes, InOrder, Scmp, Canon, Canons, Clean, Covers, AddPrefix,
        Antichain, Ordered, PrefixCmp, Sorted, Keys, Kavl.Valid;
      hide ShapeOf, Tried, Turn, Underway, Added;
      ghost var s0, clear := Shape(), Clear() && Clean(signedChar, key);
      NodesAllocated(tree);
      var e := new Elem(key);
      ghost var c, ps := Canon(signedChar, key), Stored();
      ghost var rest := ps;
      CoversItself(key);
      OthersClean(signedChar, key);
      v := TryInsert(e);
      FirstTry(Scmp(signedChar), s0, key, Shape(), v.key, v == e);
      while e != v && e.key.len < v.key.len
        invariant Pending(e, v, rest, clear)
        invariant Nodes(tree) <= old(Nodes(tree)) + {e} && count <= old(count)
        invariant Underway(Scmp(signedChar), s0, Shape(), key, v.key, v == e)
        invariant rest <= ps && forall p :: p in ps && p !in rest ==> c <= p && |c| < |p|
        decreases count
      {
        Evicted(signedChar, key, v.key);
        NodesAllocated(tree);
        ghost var s, u := Shape(), v.key;
        v, rest := Retry(e, v, rest, clear);
        NextTurn(Scmp(signedChar), s0, s, key, u, Shape(), v.key, v == e);
      }
      if e != v {
        LastTurn(Scmp(signedChar), s0, Shape(), key, v.key);
        Standing(signedChar, key, v.key);
        if clear {
          CanonsAntichain(signedChar, cmpType, InOrder(old(tree)));
          NothingEvicted(ps, rest, c, Canon(signedChar, v.key));
        }
      } else {
        if clear {
          AddByEviction(ps, rest, c);
        }
        UnderwayDone(Scmp(signedChar), s0, Shape(), key, v.key);
        count := count + 1;
      }
    }

    /** Between two attempts to insert `e`: `v` stands in the way, or `e` is in and only the
        count is not yet; where the pool was clear, `rest` are the stored keys apart from it. */
    ghost predicate Pending(e: Elem, v: Elem, rest: set<seq<int>>, clear: bool)
      reads this, Nodes(tree)
    {
      && Kavl.Valid(root, tree) && Sorted(signedChar, cmpType, Keys(Shape())) && count + 1 < SIZE_LIMIT
      && e.key.cmpType == cmpType == v.key.cmpType && v in Nodes(tree)
      && (v != e ==> count == Count(tree) && e !in Nodes(tree) && Scmp(signedChar)(e.key, v.key) == 0)
      && (v == e ==> count + 1 == Count(tree))
      && (cmpType != Host ==> clear)
      && (clear ==> Clear() && Clean(signedChar, e.key))
      && (clear && v != e ==> Stored() == rest && Canon(signedChar, v.key) in rest)
      && (clear && v == e ==>
            && Stored() == rest + {Canon(signedChar, e.key)}
            && forall p :: p in rest ==> PrefixCmp(Canon(signedChar, e.key), p) != 0)
    }

    /** Deletes by the key `v` and tries again. Something is always deleted. */
    method Retry(e: Elem, v: Elem, ghost rest: set<seq<int>>, ghost clear: bool)
      returns (v': Elem, ghost rest': set<seq<int>>)
      requires Pending(e, v, rest, clear) && v != e
      modifies this, Nodes(tree), e
      ensures Pending(e, v', rest', clear) && rest' == rest - {Canon(signedChar, v.key)}
      ensures Nodes(tree) <= old(Nodes(tree)) + {e} && count < old(count)
      ensures Turn(Scmp(signedChar), old(Shape()), e.key, v.key, Shape(), v'.key, v' == e)
    {
      hide Holds, Height, Count, Balanced, Distinct, Nodes, InOrder, Scmp, Canon, Canons, Clean, PrefixCmp, Ordered,
        Sorted;
      hide ShapeOf, Tried, Deleted, Keys;
      ghost var s := InOrder(tree);
      InOrderFacts(tree);
      NodesAllocated(tree);
      MemberAt(s, v);
      ghost var gone := Delete(v.key);
      if clear {
        OnlyItself(signedChar, cmpType, s, v, gone);
      }
      rest' := rest - {Canon(signedChar, v.key)};
      NodesAllocated(tree);
      v' := TryInsert(e);
    }

    /** Removes all elements, one first element after another, each exactly once. */
    method Destroy() returns (ghost freed: seq<Elem>)
      requires Valid()
      modifies this, Nodes(tree)
      ensures root == null && tree == Leaf
      ensures freed == old(InOrder(tree))
    {
      hide Holds, Height, Count, Balanced, Distinct, Nodes, InOrder, Scmp;
      freed := [];
      ghost var all, keep := InOrder(tree), Nodes(tree);
      InOrderFacts(tree);
      while root != null
        invariant Kavl.Valid(root, tree) && Nodes(tree) <= keep && Count(tree) < SIZE_LIMIT
        invariant all == freed + InOrder(tree)
        decreases Count(tree)
      {
        InOrderFacts(tree);
        OneFreed(freed, InOrder(tree));
        var r, e;
        ghost var t;
        r, e, t := KavlErase.EraseFirst(root, tree);
        root, tree, freed := r, t, freed + [e];
        InOrderFacts(t);
      }
      NullIsLeaf(root, tree);
    }
  }

  lemma OneFreed(freed: seq<Elem>, s: seq<Elem>)
    ensures s != [] ==> freed + s == (freed + [s[0]]) + s[1..]
  {
  }

  lemma NullIsLeaf(root: Elem?, t: Tree)
    requires root == null && Holds(root, t)
    ensures t == Leaf && InOrder(t) == []
  {
  }

  lemma CoversItself(k: Key)
    ensures Covers(k, k)
  {
  }

  lemma OthersClean(signedChar: bool, k: Key)
    ensures k.cmpType != Host ==> Clean(signedChar, k)
  {
  }

  lemma MemberKind(signedChar: bool, s: seq<Elem>, v: Elem)
    requires v in s
    ensures Canon(signedChar, v.key) in Canons(signedChar, s)
  {
    var i :| 0 <= i < |s| && s[i] == v;
    assert Canon(signedChar, s[i].key) in Canons(signedChar, s);
  }

  lemma MemberAt(s: seq<Elem>, v: Elem)
    requires v in Members(s)
    ensures exists i :: 0 <= i < |s| && s[i].key == v.key
  {
  }

  /** Deleting by the key of a stored element takes out that very element of a clear pool. */
  lemma OnlyItself(signedChar: bool, ct: CmpType, s: seq<Elem>, v: Elem, gone: Elem?)
    requires Ordered(signedChar, ct, s) && v in Members(s)
    requires gone == null ==> forall i :: 0 <= i < |s| ==> Scmp(signedChar)(v.key, s[i].key) != 0
    requires gone != null ==> gone in s && Scmp(signedChar)(v.key, gone.key) == 0
    ensures gone == v
  {
    var i :| 0 <= i < |s| && s[i] == v;
    OrderedIsAntichain(signedChar, ct, s, i, i);
    if gone != null {
      var j :| 0 <= j < |s| && s[j] == gone;
      OrderedIsAntichain(signedChar, ct, s, i, j);
    }
  }

  // ---------- Whole runs ----------

  ghost function CanonsOf(signedChar: bool, keys: seq<Key>): seq<seq<int>> {
    if keys == [] then [] else CanonsOf(signedChar, keys[..|keys| - 1]) + [Canon(signedChar, keys[|keys| - 1])]
  }

  lemma {:induction false} CanonsOfAt(signedChar: bool, keys: seq<Key>)
    ensures var cs := CanonsOf(signedChar, keys);
            |cs| == |keys| && forall i :: 0 <= i < |keys| ==> cs[i] == Canon(signedChar, keys[i])
  {
    if keys != [] {
      CanonsOfAt(signedChar, keys[..|keys| - 1]);
    }
  }

  lemma NoneAdded(signedChar: bool)
    ensures AddAll(CanonsOf(signedChar, [])) == {} && Nodes(Leaf) == {}
  {
  }

  lemma OneMoreAdded(signedChar: bool, keys: seq<Key>, i: nat)
    requires i < |keys|
    ensures AddAll(CanonsOf(signedChar, keys[..i + 1]))
      == AddPrefix(AddAll(CanonsOf(signedChar, keys[..i])), Canon(signedChar, keys[i]))
  {
    hide AddPrefix, Canon;
    assert keys[..i + 1][..i] == keys[..i];
    var cs := CanonsOf(signedChar, keys[..i + 1]);
    assert cs[..|cs| - 1] == CanonsOf(signedChar, keys[..i]);
  }

  /** Fills a new pool with a list of keys, as the readers of host and address lists do. */
  method Fill(signedChar: bool, ct: CmpType, keys: seq<Key>) returns (pool: Pool)
    requires (forall i :: 0 <= i < |keys| ==> keys[i].cmpType == ct) && |keys| < SIZE_LIMIT
    ensures fresh(pool) && pool.Valid() && pool.signedChar == signedChar && pool.cmpType == ct
    ensures AllAdded(Scmp(signedChar), keys, pool.Shape())
    ensures AllClean(signedChar, keys) ==> pool.Clear() && pool.Stored() == AddAll(CanonsOf(signedChar, keys))
  {
    hide Holds, Height, Count, Balanced, Distinct, Nodes, InOrder, Scmp, Canon, Canons, Clean, Ordered, AddPrefix,
      Covers, CanonsOf, AddAll, Sorted, Keys;
    hide Added;
    pool := new Pool(signedChar, ct);
    assert keys[..0] == [];
    NoneAdded(signedChar);
    for i := 0 to |keys|
      invariant pool.Valid() && fresh(pool) && fresh(Nodes(pool.tree)) && pool.signedChar == signedChar
      invariant pool.cmpType == ct && pool.count <= i
      invariant AllAdded(Scmp(signedChar), keys[..i], pool.Shape())
      invariant AllClean(signedChar, keys) ==>
        pool.Clear() && pool.Stored() == AddAll(CanonsOf(signedChar, keys[..i]))
    {
      NodesAllocated(pool.tree);
      ghost var s := pool.Shape();
      var _ := pool.Add(keys[i]);
      OneMoreAdded(signedChar, keys, i);
      AddedOneMore(Scmp(signedChar), keys[..i], keys[i], s, pool.Shape());
      assert keys[..i] + [keys[i]] == keys[..i + 1];
    }
    assert keys[..|keys|] == keys;
  }

  ghost predicate AllClean(signedChar: bool, keys: seq<Key>) {
    forall i :: 0 <= i < |keys| ==> Clean(signedChar, keys[i])
  }

  /** Does a pool filled with `keys` cover the query? */
  ghost predicate AnyCovers(keys: seq<Key>, x: Key)
    requires forall i :: 0 <= i < |keys| ==> keys[i].cmpType == x.cmpType
  {
    exists i :: 0 <= i < |keys| && Covers(keys[i], x)
  }

  /** What is covered by the stored keys is what is covered by the added keys,
      in whatever order they came. */
  lemma StoredFaithful(signedChar: bool, keys: seq<Key>, s: seq<Elem>, x: Key)
    requires forall i :: 0 <= i < |keys| ==> keys[i].cmpType == x.cmpType
    requires Ordered(signedChar, x.cmpType, s) && Canons(signedChar, s) == AddAll(CanonsOf(signedChar, keys))
    ensures (exists i :: 0 <= i < |s| && Covers(s[i].key, x)) <==> AnyCovers(keys, x)
  {
    hide Canon, Covers, AddAll, Canons;
    var cs, c := CanonsOf(signedChar, keys), Canon(signedChar, x);
    CanonsOfAt(signedChar, keys);
    CoveredIsCovers(signedChar, x.cmpType, s, x);
    AddAllFaithful(cs, c);
    forall i | 0 <= i < |keys|
      ensures cs[i] <= c <==> Covers(keys[i], x)
    {
      CoversIsPrefix(signedChar, keys[i], x);
    }
  }

  /** The test for host lists: an entry is found that is not longer. In a clear pool this is
      exactly when some added name is the queried one or a parent domain of it. */
  method CheckHost(pool: Pool, x: Key, ghost keys: seq<Key>) returns (r: bool)
    requires pool.Valid() && pool.cmpType == Host == x.cmpType
    requires forall i :: 0 <= i < |keys| ==> keys[i].cmpType == Host
    ensures r <==> Accepts(pool.signedChar, pool.Shape(), x)
    ensures r ==> exists e: Elem :: e in InOrder(pool.tree) && e.key.cmpType == Host
                    && IsDomainOf(Name(e.key), Name(x))
    ensures pool.Clear() && pool.Stored() == AddAll(CanonsOf(pool.signedChar, keys)) ==>
      (r <==> exists i :: 0 <= i < |keys| && IsDomainOf(Name(keys[i]), Name(x)))
  {
    hide Scmp, Keys, KeysOf, Seek, InOrder, ShapeOf, Canon, Canons, CanonsOf, AddAll, Ordered, Sorted, IsDomainOf;
    var v := pool.Get(x);
    r := v != null && v.key.len <= x.len;
    ghost var s := InOrder(pool.tree);
    ShapeFacts(Scmp(pool.signedChar), x, pool.tree);
    if v != null {
      EqualMeansCovers(pool.signedChar, v.key, x);
      EqualMeansCovers(pool.signedChar, x, v.key);
    }
    if pool.Clear() && pool.Stored() == AddAll(CanonsOf(pool.signedChar, keys)) {
      StoredFaithful(pool.signedChar, keys, s, x);
      CheckIsExact(pool.signedChar, s, x, v);
      assert AnyCovers(keys, x) <==> exists i :: 0 <= i < |keys| && IsDomainOf(Name(keys[i]), Name(x));
    }
  }

  /** A longer key found does not hide a covering one. */
  lemma CheckIsExact(signedChar: bool, s: seq<Elem>, x: Key, v: Elem?)
    requires Ordered(signedChar, x.cmpType, s)
    requires v == null ==> forall i :: 0 <= i < |s| ==> !Covers(s[i].key, x) && !Covers(x, s[i].key)
    requires v != null ==> v in s && (Covers(v.key, x) || Covers(x, v.key))
    ensures (v != null && v.key.len <= x.len) <==> exists i :: 0 <= i < |s| && Covers(s[i].key, x)
  {
    hide Scmp, Canon, Canons, Covers;
    if v != null {
      var j :| 0 <= j < |s| && s[j] == v;
      EqualMeansCovers(signedChar, v.key, x);
      EqualMeansCovers(signedChar, x, v.key);
      if v.key.len > x.len && exists i :: 0 <= i < |s| && Covers(s[i].key, x) {
        var i :| 0 <= i < |s| && Covers(s[i].key, x);
        CoversIsPrefix(signedChar, s[i].key, x);
        CoversIsPrefix(signedChar, x, v.key);
        CoversIsPrefix(signedChar, s[i].key, v.key);
        PrefixTransitive(Canon(signedChar, s[i].key), Canon(signedChar, x), Canon(signedChar, v.key));
        EqualMeansCovers(signedChar, s[i].key, v.key);
        OrderedIsAntichain(signedChar, x.cmpType, s, i, j);
      }
    }
  }

  /** The test for address lists: true exactly when some added prefix covers the
      address or is a longer one that begins with it. */
  method CheckIp(pool: Pool, x: Key, ghost keys: seq<Key>) returns (r: bool)
    requires pool.Valid() && pool.cmpType == Bits == x.cmpType
    requires forall i :: 0 <= i < |keys| ==> keys[i].cmpType == Bits
    requires pool.Stored() == AddAll(CanonsOf(pool.signedChar, keys))
    ensures r <==> AnyCovers(keys, x) || AnyExtends(keys, x)
    ensures (r <==> AnyCovers(keys, x)) <==> (AnyCovers(keys, x) || !AnyExtends(keys, x))
    ensures (forall i :: 0 <= i < |keys| ==> keys[i].len <= x.len) ==> (r <==> AnyCovers(keys, x))
  {
    var v := pool.Get(x);
    r := v != null;
    ghost var s := InOrder(pool.tree);
    StoredFaithful(pool.signedChar, keys, s, x);
    StoredExtends(pool.signedChar, keys, s, x);
    if forall i :: 0 <= i < |keys| ==> keys[i].len <= x.len {
      NoLonger(keys, x);
    }
  }

  /** Does some key begin with the query? */
  ghost predicate AnyExtends(keys: seq<Key>, x: Key)
    requires forall i :: 0 <= i < |keys| ==> keys[i].cmpType == x.cmpType
  {
    exists i :: 0 <= i < |keys| && Covers(x, keys[i])
  }

  /** A prefix of an IPv6 address in the same list: the rule for 2001:db8::1 accepts
      the IPv4 address 32.1.13.184, which no rule covers. */
  method LongerPrefix() returns (r: bool)
    ensures r
    ensures !AnyCovers([RawKey(Bits, [0x20, 1, 13, 184, 0, 0, 0, 0, 0, 0, 0, 0, 0, 0, 0, 1], 128)],
                       RawKey(Bits, [32, 1, 13, 184], 32))
  {
    hide Canon, CanonsOf, AddAll, Scmp, Canons, Covers;
    var rule: Key := RawKey(Bits, [0x20, 1, 13, 184, 0, 0, 0, 0, 0, 0, 0, 0, 0, 0, 0, 1], 128);
    var x: Key := RawKey(Bits, [32, 1, 13, 184], 32);
    var pool := Fill(false, Bits, [rule]);
    r := CheckIp(pool, x, [rule]);
    LongerNotCovering(rule, x);
    assert [rule][0] == rule;
    LongerExtends(rule, x);
  }

  lemma LongerExtends(rule: Key, x: Key)
    requires rule == RawKey(Bits, [0x20, 1, 13, 184, 0, 0, 0, 0, 0, 0, 0, 0, 0, 0, 0, 1], 128)
    requires x == RawKey(Bits, [32, 1, 13, 184], 32)
    ensures Covers(x, rule)
  {
    BitStringSame(x.data, rule.data, 32);
  }

  /** A stored key is comparable with the query exactly when an added one is. */
  lemma StoredExtends(signedChar: bool, keys: seq<Key>, s: seq<Elem>, x: Key)
    requires forall i :: 0 <= i < |keys| ==> keys[i].cmpType == x.cmpType
    requires Ordered(signedChar, x.cmpType, s) && Canons(signedChar, s) == AddAll(CanonsOf(signedChar, keys))
    ensures (exists i :: 0 <= i < |s| && (Covers(s[i].key, x) || Covers(x, s[i].key))) <==>
      AnyCovers(keys, x) || AnyExtends(keys, x)
  {
    hide Canon, Scmp, AddAll, Covers, Canons, Clean;
    StoredFaithful(signedChar, keys, s, x);
    forall i | 0 <= i < |s| && Covers(x, s[i].key)
      ensures AnyExtends(keys, x)
    {
      StoredWasAdded(signedChar, keys, s, x.cmpType, i, x);
    }
    forall j | 0 <= j < |keys| && Covers(x, keys[j])
      ensures exists i :: 0 <= i < |s| && (Covers(s[i].key, x) || Covers(x, s[i].key))
    {
      StoredFaithful(signedChar, keys, s, keys[j]);
      assert Covers(keys[j], keys[j]) by { CoversIsPrefix(signedChar, keys[j], keys[j]); }
      var i :| 0 <= i < |s| && Covers(s[i].key, keys[j]);
      CoversIsPrefix(signedChar, s[i].key, keys[j]);
      CoversIsPrefix(signedChar, x, keys[j]);
      CoversIsPrefix(signedChar, s[i].key, x);
      CoversIsPrefix(signedChar, x, s[i].key);
      PrefixesMeet(Canon(signedChar, s[i].key), Canon(signedChar, x), Canon(signedChar, keys[j]));
    }
  }

  lemma PrefixesMeet(a: seq<int>, b: seq<int>, c: seq<int>)
    requires a <= c && b <= c
    ensures a <= b || b <= a
  {
  }

  lemma StoredWasAdded(signedChar: bool, keys: seq<Key>, s: seq<Elem>, ct: CmpType, i: nat, x: Key)
    requires forall j :: 0 <= j < |keys| ==> keys[j].cmpType == ct
    requires Ordered(signedChar, ct, s) && Canons(signedChar, s) == AddAll(CanonsOf(signedChar, keys))
    requires i < |s| && x.cmpType == ct && Covers(x, s[i].key)
    ensures exists j :: 0 <= j < |keys| && Covers(x, keys[j])
  {
    hide Canon, Scmp, AddAll, Covers, Clean;
    var cs := CanonsOf(signedChar, keys);
    CanonsOfAt(signedChar, keys);
    AddAllAdded(cs);
    assert Canon(signedChar, s[i].key) in Canons(signedChar, s);
    var j :| 0 <= j < |cs| && cs[j] == Canon(signedChar, s[i].key);
    CoversIsPrefix(signedChar, x, s[i].key);
    CoversIsPrefix(signedChar, x, keys[j]);
  }

  lemma NoLonger(keys: seq<Key>, x: Key)
    requires forall i :: 0 <= i < |keys| ==> keys[i].cmpType == x.cmpType && keys[i].len <= x.len
    ensures AnyExtends(keys, x) ==> AnyCovers(keys, x)
  {
    hide Canon, Covers, Scmp;
    if AnyExtends(keys, x) {
      var i :| 0 <= i < |keys| && Covers(x, keys[i]);
      EqualMeansCovers(false, keys[i], x);
      assert Covers(keys[i], x);
    }
  }

  lemma LongerNotCovering(rule: Key, x: Key)
    requires rule.cmpType == x.cmpType == Bits && rule.len > x.len
    ensures !Covers(rule, x)
  {
  }
}
