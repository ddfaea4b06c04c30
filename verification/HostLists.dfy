/** When a list of host names answers as it should: whether the names and the queries it
    is meant for contain a byte below the dot. */
module HostLists {
  import opened Octets
  import opened Prefixes
  import opened Elements
  import opened Comparators
  import opened KeyTrees
  import opened KeyOrder
  import opened AvlTrees
  import Kavl

  /** The names of a list. */
  predicate Hosts(keys: seq<Key>) {
    forall i :: 0 <= i < |keys| ==> keys[i].cmpType == Host
  }

  predicate HostsOver(cs: set<Byte>, keys: seq<Key>) {
    forall i :: 0 <= i < |keys| ==> keys[i].cmpType == Host && Over(cs, Name(keys[i]))
  }

  /** Some name is the query or a parent domain of it. */
  predicate Listed(keys: seq<Key>, x: Key)
    requires Hosts(keys) && x.cmpType == Host
  {
    exists i :: 0 <= i < |keys| && IsDomainOf(Name(keys[i]), Name(x))
  }

  /** For every list of names over the alphabet, in any order, and every query, the test
      accepts exactly the listed names and their sub-domains. */
  ghost predicate LookupExact(sc: bool, cs: set<Byte>) {
    forall keys: seq<Key>, s: Shape, x: Key ::
      HostsOver(cs, keys) && AllAdded(Scmp(sc), keys, s) && x.cmpType == Host ==>
          (Accepts(sc, s, x) <==> Listed(keys, x))
  }

  // ---------- Clean names ----------

  /** Clean names in ascending order. */
  ghost predicate Good(sc: bool, ks: seq<Key>) {
    && (forall i :: 0 <= i < |ks| ==> ks[i].cmpType == Host && Clean(sc, ks[i]))
    && forall i, j :: 0 <= i < j < |ks| ==> Scmp(sc)(ks[i], ks[j]) < 0
  }

  lemma GoodParts(sc: bool, a: seq<Key>, k: Key, b: seq<Key>)
    requires Good(sc, a + [k] + b)
    ensures Good(sc, a) && Good(sc, b) && k.cmpType == Host && Clean(sc, k)
    ensures forall i :: 0 <= i < |a| ==> Scmp(sc)(a[i], k) < 0
    ensures forall i :: 0 <= i < |b| ==> Scmp(sc)(k, b[i]) < 0
  {
    hide Scmp, Clean;
    var ks := a + [k] + b;
    assert ks[|a|] == k && forall i :: 0 <= i < |a| ==> ks[i] == a[i];
    forall i | 0 <= i < |b|
      ensures b[i] == ks[|a| + 1 + i]
    {
    }
    forall i, j | 0 <= i < j < |b|
      ensures Scmp(sc)(b[i], b[j]) < 0
    {
      assert Scmp(sc)(ks[|a| + 1 + i], ks[|a| + 1 + j]) < 0;
    }
    forall i | 0 <= i < |b|
      ensures Scmp(sc)(k, b[i]) < 0 && b[i].cmpType == Host && Clean(sc, b[i])
    {
      assert Scmp(sc)(ks[|a|], ks[|a| + 1 + i]) < 0;
    }
  }

  /** On clean names the search finds what compares as equal, or the gap. */
  ghost predicate Placed(sc: bool, x: Key, ks: seq<Key>, at: Kavl.Place) {
    match at
    case Found(i) => i < |ks| && Scmp(sc)(x, ks[i]) == 0
    case Absent(i) =>
      && i <= |ks| && (forall j :: 0 <= j < i ==> Scmp(sc)(x, ks[j]) > 0)
      && forall j :: i <= j < |ks| ==> Scmp(sc)(x, ks[j]) < 0
  }

  lemma {:induction false} SeekPlaces(sc: bool, x: Key, s: Shape)
    requires Good(sc, Keys(s)) && x.cmpType == Host
    ensures Placed(sc, x, Keys(s), Seek(Scmp(sc), x, s))
  {
    hide Good, Scmp;
    match s
    case Nil =>
    case Node(l, k, r) =>
      GoodParts(sc, Keys(l), k, Keys(r));
      SeekPlaces(sc, x, l);
      SeekPlaces(sc, x, r);
      SidesFall(sc, x, Keys(l), k, Keys(r));
      var c := Scmp(sc)(x, k);
      if c < 0 {
        LeftPlaced(sc, x, Keys(l), k, Keys(r), Seek(Scmp(sc), x, l));
      } else if c > 0 {
        RightPlaced(sc, x, Keys(l), k, Keys(r), Seek(Scmp(sc), x, r));
      }
  }

  /** The comparison with any name falls along the list. */
  lemma SidesFall(sc: bool, x: Key, a: seq<Key>, k: Key, b: seq<Key>)
    requires Good(sc, a + [k] + b) && x.cmpType == Host
    ensures Scmp(sc)(x, k) < 0 ==> forall j :: 0 <= j < |b| ==> Scmp(sc)(x, b[j]) < 0
    ensures Scmp(sc)(x, k) > 0 ==> forall j :: 0 <= j < |a| ==> Scmp(sc)(x, a[j]) > 0
  {
    hide Good, Scmp, Clean;
    GoodParts(sc, a, k, b);
    GoodKeys(sc, a);
    GoodKeys(sc, b);
    forall j | 0 <= j < |b|
      ensures Sign(Scmp(sc)(x, k)) >= Sign(Scmp(sc)(x, b[j]))
    {
      ScmpFalls(sc, x, k, b[j]);
    }
    forall j | 0 <= j < |a|
      ensures Sign(Scmp(sc)(x, a[j])) >= Sign(Scmp(sc)(x, k))
    {
      ScmpFalls(sc, x, a[j], k);
    }
  }

  lemma GoodKeys(sc: bool, ks: seq<Key>)
    requires Good(sc, ks)
    ensures forall i :: 0 <= i < |ks| ==> ks[i].cmpType == Host && Clean(sc, ks[i])
    ensures Hosts(ks)
  {
  }

  lemma LeftPlaced(sc: bool, x: Key, a: seq<Key>, k: Key, b: seq<Key>, at: Kavl.Place)
    requires Placed(sc, x, a, at) && Scmp(sc)(x, k) < 0 && forall j :: 0 <= j < |b| ==> Scmp(sc)(x, b[j]) < 0
    ensures Placed(sc, x, a + [k] + b, at)
  {
    hide Scmp;
  }

  lemma RightPlaced(sc: bool, x: Key, a: seq<Key>, k: Key, b: seq<Key>, at: Kavl.Place)
    requires Placed(sc, x, b, at) && Scmp(sc)(x, k) > 0 && forall j :: 0 <= j < |a| ==> Scmp(sc)(x, a[j]) > 0
    ensures Placed(sc, x, a + [k] + b, at.Shift(|a| + 1))
  {
    hide Scmp;
    var ks, n := a + [k] + b, |a| + 1;
    assert forall j :: 0 <= j < |b| ==> ks[n + j] == b[j];
    if at.Absent? {
      forall j | n + at.at <= j < |ks|
        ensures Scmp(sc)(x, ks[j]) < 0
      {
        assert ks[j] == b[j - n];
      }
    }
  }

  /** Equal names in a good list are one and the same. */
  lemma GoodApart(sc: bool, ks: seq<Key>, i: nat, j: nat)
    requires Good(sc, ks) && i < |ks| && j < |ks| && Scmp(sc)(ks[i], ks[j]) == 0
    ensures i == j
  {
    ScmpAntisymmetric(sc, ks[i], ks[j]);
  }

  lemma GoodPutIn(sc: bool, ks: seq<Key>, i: nat, x: Key)
    requires Good(sc, ks) && x.cmpType == Host && Clean(sc, x) && Placed(sc, x, ks, Kavl.Absent(i))
    ensures Good(sc, PutIn(ks, i, x))
  {
    hide Scmp, Clean;
    var us := PutIn(ks, i, x);
    forall p | 0 <= p < |us|
      ensures us[p] == if p < i then ks[p] else if p == i then x else ks[p - 1]
    {
    }
    forall p, q | 0 <= p < q < |us|
      ensures Scmp(sc)(us[p], us[q]) < 0
    {
      if q == i {
        ScmpAntisymmetric(sc, x, ks[p]);
      }
    }
  }

  lemma GoodTakenOut(sc: bool, ks: seq<Key>, i: nat)
    requires Good(sc, ks) && i < |ks|
    ensures Good(sc, TakenOut(ks, i))
  {
    hide Scmp, Clean;
    var us := TakenOut(ks, i);
    forall p | 0 <= p < |us|
      ensures us[p] == if p < i then ks[p] else ks[p + 1]
    {
    }
  }

  lemma ListedPutIn(ks: seq<Key>, i: nat, x: Key, q: Key)
    requires Hosts(ks) && x.cmpType == q.cmpType == Host && i <= |ks|
    ensures Hosts(PutIn(ks, i, x)) && (Listed(PutIn(ks, i, x), q) <==> Listed(ks, q) || IsDomainOf(Name(x), Name(q)))
  {
    hide IsDomainOf;
    var us := PutIn(ks, i, x);
    assert us[i] == x;
    forall p | 0 <= p < |ks|
      ensures ks[p] == us[if p < i then p else p + 1]
    {
    }
    forall p | 0 <= p < |us| && p != i
      ensures us[p] == ks[if p < i then p else p - 1]
    {
    }
  }

  lemma ListedTakenOut(ks: seq<Key>, i: nat, q: Key)
    requires Hosts(ks) && q.cmpType == Host && i < |ks|
    ensures Hosts(TakenOut(ks, i))
    ensures (Listed(ks, q) <==> Listed(TakenOut(ks, i), q) || IsDomainOf(Name(ks[i]), Name(q)))
  {
    hide IsDomainOf;
    var us := TakenOut(ks, i);
    forall p | 0 <= p < |us|
      ensures us[p] == ks[if p < i then p else p + 1]
    {
    }
    forall p | 0 <= p < |ks| && p != i
      ensures ks[p] == us[if p < i then p else p - 1]
    {
    }
  }

  /** Adding a clean name keeps the list good and adds exactly what the name covers. */
  lemma {:induction false} AddedGood(sc: bool, s: Shape, x: Key, s': Shape, q: Key)
    requires Good(sc, Keys(s)) && x.cmpType == q.cmpType == Host && Clean(sc, x) && Added(Scmp(sc), s, x, s')
    ensures Good(sc, Keys(s')) && Hosts(Keys(s)) && Hosts(Keys(s'))
    ensures Listed(Keys(s'), q) <==> Listed(Keys(s), q) || IsDomainOf(Name(x), Name(q))
    decreases |Keys(s)|
  {
    hide Good, Scmp, Clean, Keys, IsDomainOf, Seek, Listed;
    GoodKeys(sc, Keys(s));
    SeekPlaces(sc, x, s);
    var at := Seek(Scmp(sc), x, s);
    if at.Absent? {
      GoodPutIn(sc, Keys(s), at.at, x);
      ListedPutIn(Keys(s), at.at, x, q);
    } else {
      var v := Keys(s)[at.at];
      EqualMeansCovers(sc, x, v);
      EqualMeansCovers(sc, v, x);
      if x.len < v.len {
        var u :| |Keys(u)| < |Keys(s)| && Deleted(Scmp(sc), s, v, u) && Added(Scmp(sc), u, x, s');
        EvictedIs(sc, s, at.at, u);
        GoodTakenOut(sc, Keys(s), at.at);
        ListedTakenOut(Keys(s), at.at, q);
        AddedGood(sc, u, x, s', q);
        CoversThrough(sc, x, v, q);
      } else {
        ListedThrough(Keys(s), at.at, x, q);
        CoversThrough(sc, v, x, q);
      }
    }
  }

  lemma ListedThrough(ks: seq<Key>, i: nat, x: Key, q: Key)
    requires Hosts(ks) && i < |ks| && q.cmpType == x.cmpType == Host
    ensures IsDomainOf(Name(ks[i]), Name(q)) ==> Listed(ks, q)
  {
  }

  lemma CoversThrough(sc: bool, a: Key, b: Key, q: Key)
    requires a.cmpType == b.cmpType == q.cmpType == Host && Covers(a, b)
    ensures IsDomainOf(Name(b), Name(q)) ==> IsDomainOf(Name(a), Name(q))
  {
    CoversIsPrefix(sc, a, b);
    CoversIsPrefix(sc, b, q);
    CoversIsPrefix(sc, a, q);
    if Covers(b, q) {
      PrefixTransitive(Canon(sc, a), Canon(sc, b), Canon(sc, q));
    }
  }

  /** Deleting by the key of a stored name takes out that very name. */
  lemma EvictedIs(sc: bool, s: Shape, i: nat, u: Shape)
    requires Good(sc, Keys(s)) && i < |Keys(s)| && Deleted(Scmp(sc), s, Keys(s)[i], u)
    ensures Keys(u) == TakenOut(Keys(s), i)
  {
    hide Good, Scmp, Keys;
    var v := Keys(s)[i];
    GoodKeys(sc, Keys(s));
    SeekPlaces(sc, v, s);
    GoodApart(sc, Keys(s), i, Seek(Scmp(sc), v, s).at);
  }

  lemma {:induction false} AllAddedGood(sc: bool, keys: seq<Key>, s: Shape, q: Key)
    requires Hosts(keys) && (forall i :: 0 <= i < |keys| ==> Clean(sc, keys[i])) && q.cmpType == Host
    requires AllAdded(Scmp(sc), keys, s)
    ensures Good(sc, Keys(s)) && Hosts(Keys(s)) && (Listed(Keys(s), q) <==> Listed(keys, q))
    decreases |keys|
  {
    hide Scmp, Clean, IsDomainOf, Added, Good;
    if keys == [] {
      NothingGood(sc);
    } else {
      var front, last := keys[..|keys| - 1], keys[|keys| - 1];
      var t :| AllAdded(Scmp(sc), front, t) && Added(Scmp(sc), t, last, s);
      AllAddedGood(sc, front, t, q);
      AddedGood(sc, t, last, s, q);
      ListedPutIn(front, |front|, last, q);
      assert PutIn(front, |front|, last) == keys;
    }
  }

  lemma NothingGood(sc: bool)
    ensures Good(sc, [])
  {
  }

  /** A longer name found does not hide a listed one. */
  lemma AcceptsExactly(sc: bool, s: Shape, x: Key)
    requires Good(sc, Keys(s)) && x.cmpType == Host
    ensures Hosts(Keys(s)) && (Accepts(sc, s, x) <==> Listed(Keys(s), x))
  {
    hide Good, Scmp, Keys, Seek, Clean, Canon;
    var ks, at := Keys(s), Seek(Scmp(sc), x, s);
    GoodKeys(sc, ks);
    SeekPlaces(sc, x, s);
    forall i | 0 <= i < |ks| && Covers(ks[i], x)
      ensures Accepts(sc, s, x)
    {
      EqualMeansCovers(sc, x, ks[i]);
      EqualMeansCovers(sc, ks[i], x);
      assert at.Found?;
      var v := ks[at.at];
      EqualMeansCovers(sc, x, v);
      EqualMeansCovers(sc, v, x);
      if v.len > x.len {
        CoversThrough(sc, ks[i], x, v);
        EqualMeansCovers(sc, ks[i], v);
        GoodApart(sc, ks, i, at.at);
      }
    }
    if Accepts(sc, s, x) {
      EqualMeansCovers(sc, x, ks[at.at]);
      EqualMeansCovers(sc, ks[at.at], x);
      assert Covers(ks[at.at], x);
    }
  }

  // ---------- The exact condition ----------

  /** Host lists over an alphabet with the dot answer exactly, whatever the names, their
      order and the query, if and only if no character of the alphabet is below the dot. */
  lemma LookupExactIff(sc: bool, cs: set<Byte>)
    requires DOT in cs
    ensures LookupExact(sc, cs) <==> forall c :: c in cs ==> CharValue(sc, c) >= CharValue(sc, DOT)
  {
    hide AllAdded, Accepts, Listed, Scmp;
    if forall c :: c in cs ==> CharValue(sc, c) >= CharValue(sc, DOT) {
      forall keys: seq<Key>, s: Shape, x: Key | HostsOver(cs, keys) && AllAdded(Scmp(sc), keys, s) && x.cmpType == Host
        ensures Accepts(sc, s, x) <==> Listed(keys, x)
      {
        OverIsClean(sc, cs, keys);
        AllAddedGood(sc, keys, s, x);
        AcceptsExactly(sc, s, x);
      }
    } else {
      var c: Byte :| c in cs && CharValue(sc, c) < CharValue(sc, DOT);
      Shadowed(sc, c);
      assert Name(Longer(c)) == [c, c] && Name(Parent(c)) == [c];
      assert HostsOver(cs, [Longer(c), Parent(c)]);
    }
  }

  lemma OverIsClean(sc: bool, cs: set<Byte>, keys: seq<Key>)
    requires HostsOver(cs, keys) && forall c :: c in cs ==> CharValue(sc, c) >= CharValue(sc, DOT)
    ensures Hosts(keys) && forall i :: 0 <= i < |keys| ==> Clean(sc, keys[i])
  {
  }

  function Longer(c: Byte): Key {
    RawKey(Host, [c, c], 2)
  }

  function Parent(c: Byte): Key {
    RawKey(Host, [c], 1)
  }

  function Query(c: Byte): Key {
    RawKey(Host, [DOT, c], 2)
  }

  function ShadowTree(c: Byte): Shape {
    Node(Node(Nil, Parent(c), Nil), Longer(c), Nil)
  }

  /** With a character `c` below the dot, the name `c` does not cover its sub-domain `.c`
      once the name `cc` has been added before it. */
  lemma Shadowed(sc: bool, c: Byte)
    requires CharValue(sc, c) < CharValue(sc, DOT)
    ensures AllAdded(Scmp(sc), [Longer(c), Parent(c)], ShadowTree(c))
    ensures Listed([Longer(c), Parent(c)], Query(c)) && Seek(Scmp(sc), Query(c), ShadowTree(c)).Absent?
    ensures !Accepts(sc, ShadowTree(c), Query(c))
    ensures Scmp(sc)(Parent(c), Longer(c)) < 0 && IsDomainOf(Name(Parent(c)), Name(Query(c)))
  {
    HostMisordered(sc, c);
    assert Name(Longer(c)) == [c, c] && Name(Parent(c)) == [c] && Name(Query(c)) == [DOT, c];
    assert Scmp(sc)(Parent(c), Longer(c)) < 0 && Scmp(sc)(Query(c), Longer(c)) > 0;
    assert [Longer(c), Parent(c)][1] == Parent(c);
    hide Scmp, AllAdded, Seek, IsDomainOf, Name;
    TwoAdded(Scmp(sc), Longer(c), Parent(c), Query(c));
  }

  /** The same with the tree itself: the second name hangs left of the first, and the
      search for the query goes right. */
  method ShadowedParent(sc: bool, c: Byte) returns (root: Elem?, v: Elem?, ghost t: Tree)
    requires CharValue(sc, c) < CharValue(sc, DOT)
    ensures Kavl.Valid(root, t) && KeysOf(InOrder(t)) == [Parent(c), Longer(c)]
    ensures AllAdded(Scmp(sc), [Longer(c), Parent(c)], ShapeOf(t))
    ensures IsDomainOf(Name(Parent(c)), Name(Query(c))) && Kavl.Locate(Scmp(sc), Query(c), t).Absent? && v == null
  {
    Shadowed(sc, c);
    var a := new Elem(Longer(c));
    var b := new Elem(Parent(c));
    var cmp := Scmp(sc);
    ShadowSteps(sc, a, b);
    ShapeSeek(cmp, Query(c), Fork(Kavl.Single1(b), a, Leaf));
    hide Scmp, IsDomainOf, Height, Holds, Nodes, Kavl.Graft, Kavl.Locate, Kavl.Single1, Balanced, Distinct, Count;
    hide AllAdded, Listed, Seek, ShapeOf, Keys, InOrder;
    var r, cnt;
    root, r, cnt, t := Kavl.Insert(null, a, cmp, Leaf);
    root, r, cnt, t := Kavl.Insert(root, b, cmp, t);
    v, cnt := Kavl.Find(root, Query(c), cmp, t);
  }

  lemma ShadowSteps(sc: bool, a: Elem, b: Elem)
    requires Scmp(sc)(b.key, a.key) < 0
    ensures var cmp, one, two := Scmp(sc), Kavl.Single1(a), Fork(Kavl.Single1(b), a, Leaf);
      && Kavl.Locate(cmp, a.key, Leaf) == Kavl.Absent(0) && Kavl.Graft(cmp, a.key, one, Leaf) == one
      && Kavl.Graft(cmp, b.key, Kavl.Single1(b), one) == two && Kavl.Locate(cmp, b.key, one) == Kavl.Absent(0)
      && Balanced(one) && Balanced(two) && Kavl.Valid(null, Leaf)
      && Count(Leaf) == 0 && Count(one) == 1 && Count(two) == 2
      && (forall e: Elem :: e !in Nodes(Leaf)) && Nodes(one) == {a}
      && ShapeOf(two) == Node(Node(Nil, b.key, Nil), a.key, Nil) && KeysOf(InOrder(two)) == [b.key, a.key]
  {
    hide Scmp;
    assert Height(Kavl.Single1(b)) == 1 && Balanced(Kavl.Single1(b)) && Height(Leaf) == 0;
    assert InOrder(Fork(Kavl.Single1(b), a, Leaf)) == [b, a];
  }
}
