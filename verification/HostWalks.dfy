/** For one given list of host names: exactly when the test answers for it as it should. A
    name is good for all its sub-domains if the search for it walks past no stored name
    that has one byte more in front of it, and that byte below the dot. */
module HostWalks {
  import opened Octets
  import opened Prefixes
  import opened Elements
  import opened Comparators
  import opened KeyTrees
  import opened KeyOrder
  import opened HostLists
  import Kavl

  /** `u` goes on in front of its end `a` with a byte below the dot. */
  predicate Branches(sc: bool, a: seq<Byte>, u: seq<Byte>) {
    |a| < |u| && u[|u| - |a|..] == a && CharValue(sc, u[|u| - |a| - 1]) < CharValue(sc, DOT)
  }

  /** The search for `k` ends at a name that covers it, and never turns where the search
      for a sub-domain would turn the other way. */
  predicate Reached(sc: bool, s: Shape, k: Key)
    requires k.cmpType == Host
  {
    match s
    case Nil => false
    case Node(l, u, r) =>
      var c := Scmp(sc)(k, u);
      if c == 0 then u.len <= k.len
      else if c > 0 then Reached(sc, r, k)
      else !(u.cmpType == Host && Branches(sc, Name(k), Name(u))) && Reached(sc, l, k)
  }

  // ---------- One comparison ----------

  lemma LastOff(a: seq<Byte>, u: seq<Byte>)
    requires a != [] && u != [] && a[|a| - 1] == u[|u| - 1]
    ensures var a', u' := a[..|a| - 1], u[..|u| - 1];
      |a| < |u| ==> (u[|u| - |a|..] == a <==> u'[|u'| - |a'|..] == a')
  {
    var a', u' := a[..|a| - 1], u[..|u| - 1];
    assert a == a' + [a[|a| - 1]];
    if |a| < |u| {
      assert u[|u| - |a|..] == u'[|u'| - |a'|..] + [u[|u| - 1]];
    }
  }

  /** A sub-domain `x` of `a` turns as `a` does, except where the name it meets branches. */
  lemma {:induction false} SameTurn(sc: bool, a: seq<Byte>, x: seq<Byte>, u: seq<Byte>)
    requires IsDomainOf(a, x)
    ensures HostCmpNames(sc, a, u) > 0 ==> HostCmpNames(sc, x, u) > 0
    ensures HostCmpNames(sc, a, u) < 0 && !Branches(sc, a, u) ==> HostCmpNames(sc, x, u) < 0
    ensures HostCmpNames(sc, a, u) < 0 && Branches(sc, a, u) && x != a ==> HostCmpNames(sc, x, u) > 0
  {
    if a == [] {
      if x != [] && u != [] {
        assert x[|x|..] == a && u[|u|..] == a && x[|x| - 1] == DOT;
      }
    } else {
      DomainStep(a, x);
      if u != [] && a[|a| - 1] == u[|u| - 1] {
        LastOff(a, u);
        SameTurn(sc, a[..|a| - 1], x[..|x| - 1], u[..|u| - 1]);
        if x != a {
          NotShortened(a, x);
        }
      }
    }
  }

  lemma NotShortened(a: seq<Byte>, x: seq<Byte>)
    requires a != [] && x != [] && a[|a| - 1] == x[|x| - 1] && x != a
    ensures x[..|x| - 1] != a[..|a| - 1]
  {
    assert a == a[..|a| - 1] + [a[|a| - 1]] && x == x[..|x| - 1] + [x[|x| - 1]];
  }

  lemma DomainTransitive(a: seq<Byte>, b: seq<Byte>, c: seq<Byte>)
    requires IsDomainOf(a, b) && IsDomainOf(b, c)
    ensures IsDomainOf(a, c)
  {
    LabelsPrefix(false, a, b);
    LabelsPrefix(false, b, c);
    LabelsPrefix(false, a, c);
  }

  lemma HostMeans(sc: bool, a: Key, b: Key)
    requires a.cmpType == b.cmpType == Host
    ensures Scmp(sc)(a, b) == HostCmpNames(sc, Name(a), Name(b))
    ensures Scmp(sc)(a, b) == 0 ==> (a.len <= b.len <==> IsDomainOf(Name(a), Name(b)))
    ensures Scmp(sc)(a, b) == 0 ==> (b.len <= a.len <==> IsDomainOf(Name(b), Name(a)))
    ensures IsDomainOf(Name(a), Name(b)) ==> Scmp(sc)(a, b) == 0 && Scmp(sc)(b, a) == 0
  {
    EqualMeansCovers(sc, a, b);
    EqualMeansCovers(sc, b, a);
  }

  // ---------- The walk ----------

  lemma AcceptsStep(sc: bool, l: Shape, u: Key, r: Shape, x: Key)
    ensures var c := Scmp(sc)(x, u);
      Accepts(sc, Node(l, u, r), x) <==>
        if c == 0 then u.len <= x.len else if c < 0 then Accepts(sc, l, x) else Accepts(sc, r, x)
  {
    hide Scmp;
    var s := Node(l, u, r);
    assert Keys(s) == Keys(l) + [u] + Keys(r);
    InRange(sc, l, x);
    InRange(sc, r, x);
  }

  lemma {:induction false} InRange(sc: bool, s: Shape, x: Key)
    ensures Seek(Scmp(sc), x, s).Found? ==> Seek(Scmp(sc), x, s).at < |Keys(s)|
  {
    hide Scmp;
    if s.Node? {
      InRange(sc, s.l, x);
      InRange(sc, s.r, x);
    }
  }

  /** Sub-domains of a name that is reached are accepted ... */
  lemma {:induction false} ReachedServes(sc: bool, s: Shape, k: Key, x: Key)
    requires Hosts(Keys(s)) && k.cmpType == x.cmpType == Host && IsDomainOf(Name(k), Name(x)) && Reached(sc, s, k)
    ensures Accepts(sc, s, x)
  {
    hide Scmp, IsDomainOf, Branches, Accepts, Name, Keys;
    match s
    case Node(l, u, r) =>
      HostParts(l, u, r);
      AcceptsStep(sc, l, u, r, x);
      HostMeans(sc, k, u);
      HostMeans(sc, x, u);
      HostMeans(sc, u, x);
      SameTurn(sc, Name(k), Name(x), Name(u));
      if Scmp(sc)(k, u) == 0 {
        DomainTransitive(Name(u), Name(k), Name(x));
      } else if Scmp(sc)(k, u) > 0 {
        ReachedServes(sc, r, k, x);
      } else {
        ReachedServes(sc, l, k, x);
      }
  }

  lemma HostParts(l: Shape, u: Key, r: Shape)
    requires Hosts(Keys(Node(l, u, r)))
    ensures u.cmpType == Host && Hosts(Keys(l)) && Hosts(Keys(r))
  {
    var ks := Keys(l) + [u] + Keys(r);
    assert ks[|Keys(l)|] == u;
    forall i | 0 <= i < |Keys(l)|
      ensures Keys(l)[i].cmpType == Host
    {
      assert ks[i] == Keys(l)[i];
    }
    forall i | 0 <= i < |Keys(r)|
      ensures Keys(r)[i].cmpType == Host
    {
      assert ks[|Keys(l)| + 1 + i] == Keys(r)[i];
    }
  }

  // ---------- A sub-domain that is missed ----------

  /** A sub-domain of `a` longer than `n` and with no dot in front of its label. */
  function Deep(a: seq<Byte>, n: nat): (x: seq<Byte>) {
    seq(n, _ => 0 as Byte) + [DOT] + a
  }

  lemma DeepIsDomain(a: seq<Byte>, n: nat)
    ensures IsDomainOf(a, Deep(a, n)) && Deep(a, n) != a && |Deep(a, n)| == n + 1 + |a|
  {
    var x := Deep(a, n);
    assert x[|x| - |a|..] == a && x[|x| - |a| - 1] == DOT;
  }

  /** An end comes before the name in the order. */
  lemma {:induction false} EndIsLess(sc: bool, a: seq<Byte>, u: seq<Byte>)
    requires |a| <= |u| && u[|u| - |a|..] == a
    ensures a == u || Less(Backward(sc, a), Backward(sc, u))
  {
    if a != [] {
      assert u[|u| - |a|..][|a| - 1] == u[|u| - 1];
      var a', u' := a[..|a| - 1], u[..|u| - 1];
      assert u'[|u'| - |a'|..] == u[|u| - |a|..][..|a| - 1];
      EndIsLess(sc, a', u');
      assert a == a' + [a[|a| - 1]] && u == u' + [u[|u| - 1]];
    }
  }

  /** No name after `a` in the order and not longer than `n` covers the deep one. */
  lemma NothingCoversDeep(sc: bool, a: seq<Byte>, v: seq<Byte>, n: nat)
    requires Less(Backward(sc, a), Backward(sc, v)) && |v| <= n
    ensures !IsDomainOf(v, Deep(a, n))
  {
    hide Less, Backward;
    var x := Deep(a, n);
    if IsDomainOf(v, x) && |v| <= |a| {
      assert a[|a| - |v|..] == x[|x| - |v|..];
      EndIsLess(sc, v, a);
      if v != a {
        LessOneWay(Backward(sc, v), Backward(sc, a));
      } else {
        NotItself(Backward(sc, a));
      }
    }
  }

  lemma AcceptedCovers(sc: bool, s: Shape, x: Key)
    requires Sorted(sc, Host, Keys(s)) && x.cmpType == Host && Accepts(sc, s, x)
    ensures exists i :: 0 <= i < |Keys(s)| && Keys(s)[i].cmpType == Host && IsDomainOf(Name(Keys(s)[i]), Name(x))
  {
    hide Sorted, Scmp, IsDomainOf, Seek, Keys;
    var at := Seek(Scmp(sc), x, s);
    SeekEnds(sc, x, s);
    SortedKind(sc, Host, Keys(s), at.at);
    HostMeans(sc, x, Keys(s)[at.at]);
  }

  /** Past a name that branches nothing covers the deep sub-domain. */
  lemma PastBranch(sc: bool, k: Key, u: Key, r: Shape, n: nat, x: Key)
    requires Sorted(sc, Host, Keys(r)) && k.cmpType == u.cmpType == x.cmpType == Host
    requires forall i :: 0 <= i < |Keys(r)| ==> Less(Line(sc, u), Line(sc, Keys(r)[i])) && Keys(r)[i].len <= n
    requires Branches(sc, Name(k), Name(u)) && Name(x) == Deep(Name(k), n)
    ensures !Accepts(sc, r, x)
  {
    hide Sorted, Accepts, IsDomainOf, Keys, Less, Backward, Deep;
    SortedKinds(sc, Keys(r));
    EndIsLess(sc, Name(k), Name(u));
    forall i | 0 <= i < |Keys(r)|
      ensures !IsDomainOf(Name(Keys(r)[i]), Name(x))
    {
      LessTransitive(Line(sc, k), Line(sc, u), Line(sc, Keys(r)[i]));
      NothingCoversDeep(sc, Name(k), Name(Keys(r)[i]), n);
    }
    if Accepts(sc, r, x) {
      AcceptedCovers(sc, r, x);
    }
  }

  lemma SortedKinds(sc: bool, ks: seq<Key>)
    requires Sorted(sc, Host, ks)
    ensures Hosts(ks)
  {
  }

  /** ... and of a name that is not reached, the name itself or a deep sub-domain is not
      accepted. */
  lemma {:induction false} UnreachedFails(sc: bool, s: Shape, k: Key, n: nat, x: Key)
    requires Sorted(sc, Host, Keys(s)) && k.cmpType == x.cmpType == Host && !Reached(sc, s, k)
    requires Name(x) == Deep(Name(k), n) && forall i :: 0 <= i < |Keys(s)| ==> Keys(s)[i].len <= n
    ensures !Accepts(sc, s, k) || !Accepts(sc, s, x)
  {
    hide Sorted, Scmp, IsDomainOf, Branches, Name, Deep, Accepts, Keys, Less, Line;
    match s
    case Nil =>
      NilRefuses(sc, k);
    case Node(l, u, r) =>
      JoinedKeys(l, u, r);
      SortedParts(sc, Host, Keys(l), u, Keys(r));
      AcceptsStep(sc, l, u, r, k);
      AcceptsStep(sc, l, u, r, x);
      HostMeans(sc, k, u);
      HostMeans(sc, x, u);
      DeepIsDomain(Name(k), n);
      SameTurn(sc, Name(k), Name(x), Name(u));
      PartsShort(Keys(l), u, Keys(r), n);
      if Scmp(sc)(k, u) > 0 {
        UnreachedFails(sc, r, k, n, x);
      } else if Scmp(sc)(k, u) < 0 {
        if Branches(sc, Name(k), Name(u)) {
          PastBranch(sc, k, u, r, n, x);
        } else {
          UnreachedFails(sc, l, k, n, x);
        }
      }
  }

  lemma NilRefuses(sc: bool, k: Key)
    ensures !Accepts(sc, Nil, k)
  {
    hide Scmp;
  }

  lemma JoinedKeys(l: Shape, u: Key, r: Shape)
    ensures Keys(Node(l, u, r)) == Keys(l) + [u] + Keys(r)
  {
  }

  lemma PartsShort(a: seq<Key>, u: Key, b: seq<Key>, n: nat)
    requires forall i :: 0 <= i < |a + [u] + b| ==> (a + [u] + b)[i].len <= n
    ensures (forall i :: 0 <= i < |a| ==> a[i].len <= n) && forall i :: 0 <= i < |b| ==> b[i].len <= n
  {
    var ks := a + [u] + b;
    forall i | 0 <= i < |a|
      ensures a[i].len <= n
    {
      assert ks[i] == a[i];
    }
    forall i | 0 <= i < |b|
      ensures b[i].len <= n
    {
      assert ks[|a| + 1 + i] == b[i];
    }
  }

  lemma {:induction false} Longest(ks: seq<Key>) returns (n: nat)
    ensures forall i :: 0 <= i < |ks| ==> ks[i].len <= n
  {
    n := 0;
    if ks != [] {
      var m := Longest(ks[1..]);
      n := if ks[0].len < m then m else ks[0].len;
      forall i | 0 <= i < |ks|
        ensures ks[i].len <= n
      {
        assert i > 0 ==> ks[i] == ks[1..][i - 1];
      }
    }
  }

  // ---------- The exact condition for one list ----------

  /** Nothing is accepted that is not listed, whatever the names. */
  lemma AcceptsOnlyListed(sc: bool, keys: seq<Key>, s: Shape, x: Key)
    requires Hosts(keys) && AllAdded(Scmp(sc), keys, s) && x.cmpType == Host && Accepts(sc, s, x)
    ensures Listed(keys, x)
  {
    hide Scmp, AllAdded, Accepts, Keys, IsDomainOf, Sorted;
    AllAddedSorted(sc, Host, keys, s);
    AllStoredAdded(Scmp(sc), keys, s);
    AcceptedCovers(sc, s, x);
    var i :| 0 <= i < |Keys(s)| && Keys(s)[i].cmpType == Host && IsDomainOf(Name(Keys(s)[i]), Name(x));
    assert Keys(s)[i] in keys;
  }

  /** The test answers exactly for the list `keys`: for every query, it accepts the listed
      names and their sub-domains and nothing else. */
  ghost predicate AnswersExactly(sc: bool, keys: seq<Key>, s: Shape)
    requires Hosts(keys)
  {
    forall x: Key :: x.cmpType == Host ==> (Accepts(sc, s, x) <==> Listed(keys, x))
  }

  /** Whatever the names: the test answers exactly if and only if the tree that came of
      adding them reaches every one of them. */
  lemma ListExactIff(sc: bool, keys: seq<Key>, s: Shape)
    requires Hosts(keys) && AllAdded(Scmp(sc), keys, s)
    ensures AnswersExactly(sc, keys, s) <==> forall i :: 0 <= i < |keys| ==> Reached(sc, s, keys[i])
  {
    hide Scmp, AllAdded, Accepts, Keys, IsDomainOf, Sorted, Reached, Deep, Name;
    AllAddedSorted(sc, Host, keys, s);
    SortedKinds(sc, Keys(s));
    if forall i :: 0 <= i < |keys| ==> Reached(sc, s, keys[i]) {
      forall x: Key | x.cmpType == Host
        ensures Accepts(sc, s, x) <==> Listed(keys, x)
      {
        if Accepts(sc, s, x) {
          AcceptsOnlyListed(sc, keys, s, x);
        }
        forall i | 0 <= i < |keys| && IsDomainOf(Name(keys[i]), Name(x))
          ensures Accepts(sc, s, x)
        {
          ReachedServes(sc, s, keys[i], x);
        }
      }
    }
    if AnswersExactly(sc, keys, s) {
      forall i | 0 <= i < |keys|
        ensures Reached(sc, s, keys[i])
      {
        ExactReaches(sc, keys, s, i);
      }
    }
  }

  lemma ExactReaches(sc: bool, keys: seq<Key>, s: Shape, i: nat)
    requires Hosts(keys) && Sorted(sc, Host, Keys(s)) && AnswersExactly(sc, keys, s) && i < |keys|
    ensures Reached(sc, s, keys[i])
  {
    hide Scmp, Accepts, Keys, Sorted, Reached, Deep;
    var n := Longest(Keys(s));
    var name := Deep(Name(keys[i]), n);
    var x: Key := RawKey(Host, name, |name|);
    assert Name(x) == name;
    DeepIsDomain(Name(keys[i]), n);
    assert Listed(keys, x) && Listed(keys, keys[i]);
    assert Accepts(sc, s, x) && Accepts(sc, s, keys[i]);
    if !Reached(sc, s, keys[i]) {
      UnreachedFails(sc, s, keys[i], n, x);
    }
  }

  // ---------- A condition on the names alone ----------

  /** No listed name is a parent domain of `keys[i]`. */
  predicate Minimal(keys: seq<Key>, i: nat)
    requires Hosts(keys) && i < |keys|
  {
    forall j :: 0 <= j < |keys| && IsDomainOf(Name(keys[j]), Name(keys[i])) ==> Name(keys[j]) == Name(keys[i])
  }

  /** No listed name continues, with a byte below the dot, one that no other listed name covers. */
  predicate Spread(sc: bool, keys: seq<Key>)
    requires Hosts(keys)
  {
    forall i, j :: 0 <= i < |keys| && 0 <= j < |keys| && Minimal(keys, i) ==>
      !Branches(sc, Name(keys[i]), Name(keys[j]))
  }

  /** The name `m` is not continued by one of `ks` with a byte below the dot, nor covered by another one. */
  ghost predicate Clear(sc: bool, m: seq<Byte>, ks: seq<Key>) {
    forall e :: e in ks ==>
      e.cmpType == Host && !Branches(sc, m, Name(e)) && (IsDomainOf(Name(e), m) ==> Name(e) == m)
  }

  ghost predicate Stored(m: seq<Byte>, ks: seq<Key>) {
    exists e :: e in ks && e.cmpType == Host && Name(e) == m
  }

  /** No name of `ks` is a proper sub-domain of `m`. */
  ghost predicate Alone(m: seq<Byte>, ks: seq<Key>) {
    forall e :: e in ks && e.cmpType == Host && IsDomainOf(m, Name(e)) ==> Name(e) == m
  }

  lemma ClearParts(sc: bool, m: seq<Byte>, a: seq<Key>, u: Key, b: seq<Key>)
    requires Clear(sc, m, a + [u] + b)
    ensures Clear(sc, m, a) && Clear(sc, m, b) && Clear(sc, m, [u])
  {
    hide IsDomainOf, Branches;
    forall e | e in a || e in b || e == u
      ensures e in a + [u] + b
    {
    }
  }

  /** Where a stored name is, by the order. */
  lemma SideOf(sc: bool, l: Shape, u: Key, r: Shape, x: Key)
    requires Sorted(sc, Host, Keys(Node(l, u, r))) && x in Keys(Node(l, u, r))
    ensures Less(Line(sc, x), Line(sc, u)) ==> x in Keys(l)
    ensures Less(Line(sc, u), Line(sc, x)) ==> x in Keys(r)
  {
    hide Sorted, Less, Line, Keys;
    JoinedKeys(l, u, r);
    SortedParts(sc, Host, Keys(l), u, Keys(r));
    NotItself(Line(sc, u));
    if x in Keys(l) {
      LessOneWay(Line(sc, x), Line(sc, u));
    }
    if x in Keys(r) {
      LessOneWay(Line(sc, u), Line(sc, x));
    }
  }

  /** The search for `k` finds something if a sub-domain of it is stored. */
  lemma {:induction false} FindsSub(sc: bool, s: Shape, k: Key, x: Key)
    requires Sorted(sc, Host, Keys(s)) && k.cmpType == Host && Clear(sc, Name(k), Keys(s))
    requires x in Keys(s) && x.cmpType == Host && IsDomainOf(Name(k), Name(x))
    ensures Seek(Scmp(sc), k, s).Found?
  {
    hide Sorted, Scmp, IsDomainOf, Branches, Name, Less, Line, Clear, Keys;
    match s
    case Nil =>
      NoKeys();
    case Node(l, u, r) =>
      JoinedKeys(l, u, r);
      SortedParts(sc, Host, Keys(l), u, Keys(r));
      ClearParts(sc, Name(k), Keys(l), u, Keys(r));
      ClearOne(sc, Name(k), u);
      HostMeans(sc, k, u);
      HostMeans(sc, x, u);
      SameTurn(sc, Name(k), Name(x), Name(u));
      CmpFollows(sc, x, u);
      SideOf(sc, l, u, r, x);
      if Scmp(sc)(k, u) < 0 {
        FindsSub(sc, l, k, x);
      } else if Scmp(sc)(k, u) > 0 {
        FindsSub(sc, r, k, x);
      }
  }

  lemma ClearOne(sc: bool, m: seq<Byte>, u: Key)
    requires Clear(sc, m, [u])
    ensures u.cmpType == Host && !Branches(sc, m, Name(u)) && (IsDomainOf(Name(u), m) ==> Name(u) == m)
  {
    assert u in [u];
  }

  /** A name that is stored, clear and alone is reached. */
  lemma {:induction false} AloneReached(sc: bool, s: Shape, k: Key, e: Key)
    requires Sorted(sc, Host, Keys(s)) && k.cmpType == Host && Clear(sc, Name(k), Keys(s)) && Alone(Name(k), Keys(s))
    requires e in Keys(s) && e.cmpType == Host && Name(e) == Name(k)
    ensures Reached(sc, s, k)
  {
    hide Sorted, Scmp, IsDomainOf, Branches, Name, Less, Line, Clear, Alone, Keys;
    match s
    case Nil =>
      NoKeys();
    case Node(l, u, r) =>
      JoinedKeys(l, u, r);
      SortedParts(sc, Host, Keys(l), u, Keys(r));
      ClearParts(sc, Name(k), Keys(l), u, Keys(r));
      AloneParts(Name(k), Keys(l), u, Keys(r));
      ClearOne(sc, Name(k), u);
      HostMeans(sc, k, u);
      HostMeans(sc, e, u);
      CmpFollows(sc, e, u);
      SideOf(sc, l, u, r, e);
      if Scmp(sc)(k, u) == 0 {
        SameLength(u, k);
      } else if Scmp(sc)(k, u) < 0 {
        AloneReached(sc, l, k, e);
      } else {
        AloneReached(sc, r, k, e);
      }
  }

  lemma SameLength(a: Key, b: Key)
    requires a.cmpType == b.cmpType == Host
    ensures |Name(a)| == a.len && (Name(a) == Name(b) ==> a.len == b.len)
  {
  }

  lemma AloneParts(m: seq<Byte>, a: seq<Key>, u: Key, b: seq<Key>)
    requires Alone(m, a + [u] + b)
    ensures Alone(m, a) && Alone(m, b) && (u.cmpType == Host && IsDomainOf(m, Name(u)) ==> Name(u) == m)
  {
    hide IsDomainOf;
    forall e | e in a || e in b || e == u
      ensures e in a + [u] + b
    {
    }
  }

  /** Adding a name keeps a clear one, once it is stored, stored and alone. */
  lemma {:induction false} AddedAlone(sc: bool, s: Shape, x: Key, s': Shape, m: seq<Byte>)
    requires Sorted(sc, Host, Keys(s)) && x.cmpType == Host && Added(Scmp(sc), s, x, s')
    requires Clear(sc, m, Keys(s)) && Clear(sc, m, [x]) && (Stored(m, Keys(s)) ==> Alone(m, Keys(s)))
    ensures Stored(m, Keys(s')) ==> Alone(m, Keys(s'))
    ensures Stored(m, Keys(s)) || Name(x) == m ==> Stored(m, Keys(s'))
    decreases |Keys(s)|
  {
    hide Sorted, Scmp, IsDomainOf, Branches, Name, Clear, Alone, Stored, Keys, Seek, Deleted, Inserted;
    var at := Seek(Scmp(sc), x, s);
    SeekEnds(sc, x, s);
    if at.Absent? {
      InsertedAlone(sc, s, x, s', m);
    } else {
      var v := Keys(s)[at.at];
      SortedKind(sc, Host, Keys(s), at.at);
      if x.len < v.len {
        var u :| |Keys(u)| < |Keys(s)| && Deleted(Scmp(sc), s, v, u) && Added(Scmp(sc), u, x, s');
        DeletedSorted(sc, Host, s, v, u);
        DeletedAlone(sc, s, x, v, u, m);
        AddedAlone(sc, u, x, s', m);
      } else {
        StandsAlone(sc, s, x, v, m);
      }
    }
  }

  /** A shorter name stands: it is `x` that is covered. */
  lemma StandsAlone(sc: bool, s: Shape, x: Key, v: Key, m: seq<Byte>)
    requires v in Keys(s) && x.cmpType == v.cmpType == Host && Scmp(sc)(x, v) == 0 && v.len <= x.len
    requires Clear(sc, m, Keys(s))
    ensures Name(x) == m ==> Stored(m, Keys(s))
  {
    hide Scmp, IsDomainOf, Branches, Keys;
    HostMeans(sc, x, v);
  }

  lemma InsertedAlone(sc: bool, s: Shape, x: Key, s': Shape, m: seq<Byte>)
    requires Sorted(sc, Host, Keys(s)) && x.cmpType == Host && Inserted(Scmp(sc), s, x, s')
    requires Clear(sc, m, Keys(s)) && Clear(sc, m, [x]) && (Stored(m, Keys(s)) ==> Alone(m, Keys(s)))
    ensures Stored(m, Keys(s')) ==> Alone(m, Keys(s'))
    ensures Stored(m, Keys(s)) || Name(x) == m ==> Stored(m, Keys(s'))
  {
    hide Sorted, Scmp, IsDomainOf, Branches, Keys, Seek, Clear;
    PutInMembers(Keys(s), Seek(Scmp(sc), x, s).at, x);
    if Name(x) == m {
      forall e | e in Keys(s) && e.cmpType == Host
        ensures !IsDomainOf(m, Name(e))
      {
        if IsDomainOf(m, Name(e)) {
          FindsSub(sc, s, x, e);
        }
      }
    } else if Stored(m, Keys(s)) {
      var e :| e in Keys(s) && e.cmpType == Host && Name(e) == m;
      assert e in Keys(s');
      if IsDomainOf(m, Name(x)) {
        StoredAccepts(sc, s, x, e);
      }
    }
  }

  lemma PutInMembers(ks: seq<Key>, i: nat, x: Key)
    requires i <= |ks|
    ensures forall e :: e in PutIn(ks, i, x) <==> e in ks || e == x
  {
    assert ks == ks[..i] + ks[i..];
  }

  /** The search for a sub-domain of a name that is stored and alone finds something. */
  lemma StoredAccepts(sc: bool, s: Shape, x: Key, e: Key)
    requires Sorted(sc, Host, Keys(s)) && x.cmpType == e.cmpType == Host && e in Keys(s)
    requires Clear(sc, Name(e), Keys(s)) && Alone(Name(e), Keys(s)) && IsDomainOf(Name(e), Name(x))
    ensures Seek(Scmp(sc), x, s).Found? && Accepts(sc, s, x)
  {
    hide Sorted, Scmp, IsDomainOf, Name, Clear, Alone, Keys, Seek, Reached;
    AloneReached(sc, s, e, e);
    SortedKinds(sc, Keys(s));
    ReachedServes(sc, s, e, x);
  }

  /** What is deleted for `x` is no clear name that is stored. */
  lemma DeletedAlone(sc: bool, s: Shape, x: Key, v: Key, u: Shape, m: seq<Byte>)
    requires Sorted(sc, Host, Keys(s)) && x.cmpType == v.cmpType == Host && Deleted(Scmp(sc), s, v, u)
    requires v in Keys(s) && Scmp(sc)(x, v) == 0 && x.len < v.len
    requires Clear(sc, m, Keys(s)) && Clear(sc, m, [x]) && (Stored(m, Keys(s)) ==> Alone(m, Keys(s)))
    ensures Clear(sc, m, Keys(u)) && (Stored(m, Keys(u)) ==> Alone(m, Keys(u)))
    ensures Stored(m, Keys(s)) ==> Stored(m, Keys(u))
  {
    hide Sorted, Scmp, IsDomainOf, Branches, Keys, Seek;
    var i := Seek(Scmp(sc), v, s).at;
    SeekEnds(sc, v, s);
    TakenOutMembers(Keys(s), i);
    var gone := Keys(s)[i];
    SortedKind(sc, Host, Keys(s), i);
    if Stored(m, Keys(s)) {
      var e :| e in Keys(s) && e.cmpType == Host && Name(e) == m;
      HostMeans(sc, v, gone);
      ClearOne(sc, m, x);
      LongerApart(sc, Keys(s), x, v, m);
      assert e in Keys(u);
    }
  }

  /** A name longer than `x` that `x` meets is not comparable with a clear one that is alone. */
  lemma LongerApart(sc: bool, ks: seq<Key>, x: Key, v: Key, m: seq<Byte>)
    requires x.cmpType == v.cmpType == Host && v in ks && Scmp(sc)(x, v) == 0 && x.len < v.len
    requires Clear(sc, m, ks) && Alone(m, ks) && (IsDomainOf(Name(x), m) ==> Name(x) == m)
    ensures !IsDomainOf(m, Name(v)) && !IsDomainOf(Name(v), m)
  {
    hide Scmp, IsDomainOf, Branches, Name;
    HostMeans(sc, x, v);
    SameLength(x, v);
  }

  lemma TakenOutMembers(ks: seq<Key>, i: nat)
    requires i < |ks|
    ensures forall e :: e in TakenOut(ks, i) ==> e in ks
    ensures forall e :: e in ks && e != ks[i] ==> e in TakenOut(ks, i)
  {
    assert ks == ks[..i] + [ks[i]] + ks[i + 1..];
  }

  /** After all additions a clear listed name is stored and alone. */
  lemma {:induction false} AllAddedAlone(sc: bool, keys: seq<Key>, s: Shape, m: seq<Byte>)
    requires Hosts(keys) && AllAdded(Scmp(sc), keys, s) && Clear(sc, m, keys)
    ensures Stored(m, Keys(s)) ==> Alone(m, Keys(s))
    ensures Stored(m, keys) ==> Stored(m, Keys(s))
    decreases |keys|
  {
    hide Scmp, Added, IsDomainOf, Branches, Name, Keys, Sorted, Alone;
    if keys == [] {
      NoKeys();
      assert !Stored(m, Keys(s));
    } else {
      var front, last := keys[..|keys| - 1], keys[|keys| - 1];
      var t :| AllAdded(Scmp(sc), front, t) && Added(Scmp(sc), t, last, s);
      assert keys == front + [last];
      AllAddedAlone(sc, front, t, m);
      AllAddedSorted(sc, Host, front, t);
      AllStoredAdded(Scmp(sc), front, t);
      AddedAlone(sc, t, last, s, m);
    }
  }

  lemma {:induction false} MinimalCovers(keys: seq<Key>, i: nat) returns (j: nat)
    requires Hosts(keys) && i < |keys|
    ensures j < |keys| && Minimal(keys, j) && IsDomainOf(Name(keys[j]), Name(keys[i]))
    decreases |Name(keys[i])|
  {
    if Minimal(keys, i) {
      j := i;
    } else {
      var k :| 0 <= k < |keys| && IsDomainOf(Name(keys[k]), Name(keys[i])) && Name(keys[k]) != Name(keys[i]);
      j := MinimalCovers(keys, k);
      DomainTransitive(Name(keys[j]), Name(keys[k]), Name(keys[i]));
    }
  }

  /** In whatever order the names come: if none of them continues, with a byte below the dot,
      one that no other covers, the test answers exactly. */
  lemma SpreadIsExact(sc: bool, keys: seq<Key>, s: Shape)
    requires Hosts(keys) && AllAdded(Scmp(sc), keys, s) && Spread(sc, keys)
    ensures AnswersExactly(sc, keys, s)
  {
    hide Scmp, AllAdded, Accepts, Keys, IsDomainOf, Branches, Sorted, Reached, Name, Clear, Alone;
    AllAddedSorted(sc, Host, keys, s);
    forall x: Key | x.cmpType == Host
      ensures Accepts(sc, s, x) <==> Listed(keys, x)
    {
      if Accepts(sc, s, x) {
        AcceptsOnlyListed(sc, keys, s, x);
      }
      if Listed(keys, x) {
        var i :| 0 <= i < |keys| && IsDomainOf(Name(keys[i]), Name(x));
        var j := MinimalCovers(keys, i);
        DomainTransitive(Name(keys[j]), Name(keys[i]), Name(x));
        MinimalClear(sc, keys, j);
        AllAddedAlone(sc, keys, s, Name(keys[j]));
        assert keys[j] in keys;
        var e :| e in Keys(s) && e.cmpType == Host && Name(e) == Name(keys[j]);
        AllStoredAdded(Scmp(sc), keys, s);
        ClearFewer(sc, Name(e), keys, Keys(s));
        StoredAccepts(sc, s, x, e);
      }
    }
  }

  lemma MinimalClear(sc: bool, keys: seq<Key>, j: nat)
    requires Hosts(keys) && j < |keys| && Minimal(keys, j) && Spread(sc, keys)
    ensures Clear(sc, Name(keys[j]), keys)
  {
    hide IsDomainOf, Branches;
  }

  lemma ClearFewer(sc: bool, m: seq<Byte>, keys: seq<Key>, ks: seq<Key>)
    requires Clear(sc, m, keys) && forall e :: e in ks ==> e in keys
    ensures Clear(sc, m, ks)
  {
    hide IsDomainOf, Branches;
  }
}
