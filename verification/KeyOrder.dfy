/** The order in which a pool keeps its keys, whatever the keys: names by their bytes from
    the end, a proper end first. Where a comparison is not zero it agrees with this order,
    so stored keys are always found again and the loop of an addition always ends. */
module KeyOrder {
  import opened Octets
  import opened Prefixes
  import opened Elements
  import opened Comparators
  import opened KeyTrees
  import opened AvlTrees
  import Kavl

  /** Strictly before, a proper prefix first. */
  predicate Less(s: seq<int>, t: seq<int>) {
    t != [] && (s == [] || s[0] < t[0] || (s[0] == t[0] && Less(s[1..], t[1..])))
  }

  lemma {:induction false} LessTransitive(a: seq<int>, b: seq<int>, c: seq<int>)
    requires Less(a, b) && Less(b, c)
    ensures Less(a, c)
  {
    if a != [] && a[0] == b[0] == c[0] {
      LessTransitive(a[1..], b[1..], c[1..]);
    }
  }

  lemma {:induction false} LessOneWay(a: seq<int>, b: seq<int>)
    requires Less(a, b)
    ensures !Less(b, a) && a != b
  {
    if a != [] && a[0] == b[0] {
      LessOneWay(a[1..], b[1..]);
    }
  }

  /** The values of a name's bytes, from its end. */
  function Backward(sc: bool, a: seq<Byte>): (s: seq<int>)
    ensures |s| == |a|
  {
    if a == [] then [] else [CharValue(sc, a[|a| - 1])] + Backward(sc, a[..|a| - 1])
  }

  function Line(sc: bool, k: Key): seq<int> {
    if k.cmpType == Host then Backward(sc, Name(k)) else Canon(sc, k)
  }

  lemma {:induction false} NamesFollow(sc: bool, a: seq<Byte>, b: seq<Byte>)
    ensures HostCmpNames(sc, a, b) < 0 ==> Less(Backward(sc, a), Backward(sc, b))
    ensures HostCmpNames(sc, a, b) > 0 ==> Less(Backward(sc, b), Backward(sc, a))
  {
    if a != [] && b != [] && a[|a| - 1] == b[|b| - 1] {
      NamesFollow(sc, a[..|a| - 1], b[..|b| - 1]);
    }
  }

  lemma {:induction false} PrefixFollows(s: seq<int>, t: seq<int>)
    ensures PrefixCmp(s, t) < 0 ==> Less(s, t)
    ensures PrefixCmp(s, t) > 0 ==> Less(t, s)
  {
    if s != [] && t != [] && s[0] == t[0] {
      PrefixFollows(s[1..], t[1..]);
    }
  }

  /** Where it is not zero a comparison agrees with the order, for all keys. */
  lemma CmpFollows(sc: bool, a: Key, b: Key)
    requires a.cmpType == b.cmpType
    ensures Scmp(sc)(a, b) < 0 ==> Less(Line(sc, a), Line(sc, b))
    ensures Scmp(sc)(a, b) > 0 ==> Less(Line(sc, b), Line(sc, a))
  {
    if a.cmpType == Host {
      NamesFollow(sc, Name(a), Name(b));
    } else {
      ScmpIsPrefixCmp(sc, a, b);
      PrefixFollows(Canon(sc, a), Canon(sc, b));
    }
  }

  /** Keys of one kind in strictly ascending order. */
  ghost predicate Sorted(sc: bool, ct: CmpType, ks: seq<Key>) {
    && (forall i :: 0 <= i < |ks| ==> ks[i].cmpType == ct)
    && forall i, j :: 0 <= i < j < |ks| ==> Less(Line(sc, ks[i]), Line(sc, ks[j]))
  }

  lemma SortedParts(sc: bool, ct: CmpType, a: seq<Key>, k: Key, b: seq<Key>)
    requires Sorted(sc, ct, a + [k] + b)
    ensures Sorted(sc, ct, a) && Sorted(sc, ct, b) && k.cmpType == ct
    ensures forall i :: 0 <= i < |a| ==> Less(Line(sc, a[i]), Line(sc, k))
    ensures forall i :: 0 <= i < |b| ==> Less(Line(sc, k), Line(sc, b[i]))
  {
    hide Less, Line;
    var ks := a + [k] + b;
    assert ks[|a|] == k && forall i :: 0 <= i < |a| ==> ks[i] == a[i];
    forall i | 0 <= i < |b|
      ensures b[i] == ks[|a| + 1 + i] && b[i].cmpType == ct && Less(Line(sc, k), Line(sc, b[i]))
    {
      assert Less(Line(sc, ks[|a|]), Line(sc, ks[|a| + 1 + i]));
    }
    forall i, j | 0 <= i < j < |b|
      ensures Less(Line(sc, b[i]), Line(sc, b[j]))
    {
      assert Less(Line(sc, ks[|a| + 1 + i]), Line(sc, ks[|a| + 1 + j]));
    }
  }

  /** Where a search ends: at a key that compares as equal, or in the gap of the order. */
  ghost predicate Ends(sc: bool, x: Key, ks: seq<Key>, at: Kavl.Place) {
    match at
    case Found(i) => i < |ks| && Scmp(sc)(x, ks[i]) == 0
    case Absent(i) =>
      && i <= |ks| && (forall j :: 0 <= j < i ==> Less(Line(sc, ks[j]), Line(sc, x)))
      && forall j :: i <= j < |ks| ==> Less(Line(sc, x), Line(sc, ks[j]))
  }

  lemma {:induction false} SeekEnds(sc: bool, x: Key, s: Shape)
    requires Sorted(sc, x.cmpType, Keys(s))
    ensures Ends(sc, x, Keys(s), Seek(Scmp(sc), x, s))
  {
    hide Sorted, Scmp, Less, Line;
    match s
    case Nil =>
    case Node(l, k, r) =>
      SortedParts(sc, x.cmpType, Keys(l), k, Keys(r));
      SeekEnds(sc, x, l);
      SeekEnds(sc, x, r);
      CmpFollows(sc, x, k);
      var c := Scmp(sc)(x, k);
      if c < 0 {
        EndsLeft(sc, x, Keys(l), k, Keys(r), Seek(Scmp(sc), x, l));
      } else if c > 0 {
        EndsRight(sc, x, Keys(l), k, Keys(r), Seek(Scmp(sc), x, r));
      }
  }

  lemma EndsLeft(sc: bool, x: Key, a: seq<Key>, k: Key, b: seq<Key>, at: Kavl.Place)
    requires Ends(sc, x, a, at) && Less(Line(sc, x), Line(sc, k))
    requires forall j :: 0 <= j < |b| ==> Less(Line(sc, k), Line(sc, b[j]))
    ensures Ends(sc, x, a + [k] + b, at)
  {
    hide Scmp, Less, Line;
    forall j | 0 <= j < |b|
      ensures Less(Line(sc, x), Line(sc, b[j]))
    {
      LessTransitive(Line(sc, x), Line(sc, k), Line(sc, b[j]));
    }
  }

  lemma EndsRight(sc: bool, x: Key, a: seq<Key>, k: Key, b: seq<Key>, at: Kavl.Place)
    requires Ends(sc, x, b, at) && Less(Line(sc, k), Line(sc, x))
    requires forall j :: 0 <= j < |a| ==> Less(Line(sc, a[j]), Line(sc, k))
    ensures Ends(sc, x, a + [k] + b, at.Shift(|a| + 1))
  {
    hide Scmp, Less, Line;
    var ks, n := a + [k] + b, |a| + 1;
    forall j | 0 <= j < |a|
      ensures ks[j] == a[j] && Less(Line(sc, a[j]), Line(sc, x))
    {
      LessTransitive(Line(sc, a[j]), Line(sc, k), Line(sc, x));
    }
    assert forall j :: 0 <= j < |b| ==> ks[n + j] == b[j];
    if at.Absent? {
      forall j | 0 <= j < |ks|
        ensures j < n + at.at ==> Less(Line(sc, ks[j]), Line(sc, x))
        ensures n + at.at <= j ==> Less(Line(sc, x), Line(sc, ks[j]))
      {
        assert j >= n ==> ks[j] == b[j - n];
      }
    }
  }

  /** The search for a stored key always finds something, though not always that key. */
  lemma {:induction false} StoredIsFound(sc: bool, s: Shape, i: nat)
    requires i < |Keys(s)| && Sorted(sc, Keys(s)[i].cmpType, Keys(s))
    ensures Seek(Scmp(sc), Keys(s)[i], s).Found?
  {
    hide Less, Line, Scmp;
    var x := Keys(s)[i];
    SeekEnds(sc, x, s);
    NotInGap(sc, Keys(s), i, Seek(Scmp(sc), x, s));
  }

  lemma NotInGap(sc: bool, ks: seq<Key>, i: nat, at: Kavl.Place)
    requires i < |ks| && Ends(sc, ks[i], ks, at)
    ensures at.Found?
  {
    hide Less, Line, Scmp;
    NotItself(Line(sc, ks[i]));
  }

  lemma NotItself(s: seq<int>)
    ensures !Less(s, s)
  {
    if Less(s, s) {
      LessOneWay(s, s);
    }
  }

  lemma InsertedSorted(sc: bool, s: Shape, x: Key, s': Shape)
    requires Sorted(sc, x.cmpType, Keys(s)) && Inserted(Scmp(sc), s, x, s')
    ensures Sorted(sc, x.cmpType, Keys(s'))
  {
    hide Less, Line, Scmp, Keys, Seek;
    SeekEnds(sc, x, s);
    var ks, us, i := Keys(s), Keys(s'), Seek(Scmp(sc), x, s).at;
    forall p | 0 <= p < |us|
      ensures us[p] == if p < i then ks[p] else if p == i then x else ks[p - 1]
    {
    }
  }

  lemma DeletedSorted(sc: bool, ct: CmpType, s: Shape, x: Key, s': Shape)
    requires Sorted(sc, ct, Keys(s)) && Deleted(Scmp(sc), s, x, s')
    ensures Sorted(sc, ct, Keys(s')) && |Keys(s')| == |Keys(s)| - 1
  {
    hide Less, Line, Scmp, Keys, Seek;
    var ks, us, i := Keys(s), Keys(s'), Seek(Scmp(sc), x, s).at;
    forall p | 0 <= p < |us|
      ensures us[p] == if p < i then ks[p] else ks[p + 1]
    {
    }
  }

  /** Whatever is added, and whatever is evicted for it, the keys stay in order. */
  lemma {:induction false} AddedSorted(sc: bool, s: Shape, x: Key, s': Shape)
    requires Sorted(sc, x.cmpType, Keys(s)) && Added(Scmp(sc), s, x, s')
    ensures Sorted(sc, x.cmpType, Keys(s'))
    decreases |Keys(s)|
  {
    hide Sorted, Scmp, Keys, Seek, Inserted, Deleted;
    var at := Seek(Scmp(sc), x, s);
    if at.Absent? {
      InsertedSorted(sc, s, x, s');
    } else {
      var v := Keys(s)[at.at];
      if x.len < v.len {
        var u :| |Keys(u)| < |Keys(s)| && Deleted(Scmp(sc), s, v, u) && Added(Scmp(sc), u, x, s');
        DeletedSorted(sc, x.cmpType, s, v, u);
        AddedSorted(sc, u, x, s');
      }
    }
  }

  /** Every list of keys of one kind gives trees that are in order. */
  lemma {:induction false} AllAddedSorted(sc: bool, ct: CmpType, keys: seq<Key>, s: Shape)
    requires (forall i :: 0 <= i < |keys| ==> keys[i].cmpType == ct) && AllAdded(Scmp(sc), keys, s)
    ensures Sorted(sc, ct, Keys(s))
    decreases |keys|
  {
    hide Scmp, Added, Less, Line;
    if keys != [] {
      var front, last := keys[..|keys| - 1], keys[|keys| - 1];
      var t :| AllAdded(Scmp(sc), front, t) && Added(Scmp(sc), t, last, s);
      AllAddedSorted(sc, ct, front, t);
      AddedSorted(sc, t, last, s);
    }
  }

  /** check_host: an entry is found that is not longer than the query. */
  predicate Accepts(sc: bool, s: Shape, x: Key) {
    var at := Seek(Scmp(sc), x, s);
    at.Found? && at.at < |Keys(s)| && Keys(s)[at.at].len <= x.len
  }

  // ---------- The loop ends ----------

  /** A balanced tree of the given keys. */
  function Level(ks: seq<Key>): (s: Shape)
    ensures Keys(s) == ks
    decreases |ks|
  {
    if ks == [] then Nil
    else
      var m := |ks| / 2;
      assert ks == ks[..m] + [ks[m]] + ks[m + 1..];
      Node(Level(ks[..m]), ks[m], Level(ks[m + 1..]))
  }

  function Levels(n: nat): nat {
    if n == 0 then 0 else 1 + Levels(n / 2)
  }

  lemma {:induction false} LevelsGrow(n: nat)
    ensures Levels(n) <= Levels(n + 1) <= Levels(n) + 1
    decreases n
  {
    if n > 0 {
      if n % 2 == 1 {
        LevelsGrow(n / 2);
        assert (n + 1) / 2 == n / 2 + 1;
      }
    }
  }

  lemma {:induction false} LevelEven(ks: seq<Key>)
    ensures Tall(Level(ks)) == Levels(|ks|) && Even(Level(ks))
    decreases |ks|
  {
    hide Keys, Level, Levels, Even, Tall;
    if ks == [] {
      LevelOfNone();
    } else {
      var m := |ks| / 2;
      LevelEven(ks[..m]);
      LevelEven(ks[m + 1..]);
      LevelSplits(ks);
      LevelsGrow(|ks| - 1 - m);
      LevelsSplit(|ks|);
      EvenFork(Level(ks[..m]), ks[m], Level(ks[m + 1..]));
    }
  }

  lemma LevelOfNone()
    ensures Level([]) == Nil && Tall(Nil) == 0 && Even(Nil) && Levels(0) == 0
  {
  }

  lemma LevelSplits(ks: seq<Key>)
    requires ks != []
    ensures Level(ks) == Node(Level(ks[..|ks| / 2]), ks[|ks| / 2], Level(ks[|ks| / 2 + 1..]))
  {
    hide Keys;
  }

  lemma LevelsSplit(n: nat)
    requires n > 0
    ensures Levels(n) == 1 + Levels(n / 2) && (n - 1 - n / 2 == n / 2 || n - 1 - n / 2 + 1 == n / 2)
  {
  }

  lemma EvenFork(l: Shape, k: Key, r: Shape)
    requires Even(l) && Even(r) && Tall(r) <= Tall(l) <= Tall(r) + 1
    ensures Even(Node(l, k, r)) && Tall(Node(l, k, r)) == 1 + Tall(l)
  {
  }

  lemma {:induction false} HungKeys(cmp: Kavl.Comparator, x: Key, s: Shape)
    requires Seek(cmp, x, s).Absent?
    ensures Seek(cmp, x, s).at <= |Keys(s)| && Keys(Hung(cmp, x, s)) == PutIn(Keys(s), Seek(cmp, x, s).at, x)
  {
    match s
    case Nil =>
    case Node(l, k, r) =>
      if cmp(x, k) < 0 {
        HungKeys(cmp, x, l);
        PutInLeft(Keys(l), Seek(cmp, x, l).at, x, k, Keys(r));
      } else {
        HungKeys(cmp, x, r);
        PutInRight(Keys(l), k, Keys(r), Seek(cmp, x, r).at, x);
      }
  }

  lemma PutInLeft(a: seq<Key>, i: nat, x: Key, k: Key, b: seq<Key>)
    requires i <= |a|
    ensures PutIn(a, i, x) + [k] + b == PutIn(a + [k] + b, i, x)
  {
  }

  lemma PutInRight(a: seq<Key>, k: Key, b: seq<Key>, i: nat, x: Key)
    requires i <= |b|
    ensures a + [k] + PutIn(b, i, x) == PutIn(a + [k] + b, |a| + 1 + i, x)
  {
    assert (a + [k] + b)[..|a| + 1 + i] == a + [k] + b[..i] && (a + [k] + b)[|a| + 1 + i..] == b[i..];
  }

  /** An addition always comes to an end. */
  lemma {:induction false} AddedEnds(sc: bool, s: Shape, x: Key) returns (s': Shape)
    requires Sorted(sc, x.cmpType, Keys(s))
    ensures Added(Scmp(sc), s, x, s')
    decreases |Keys(s)|
  {
    hide Sorted, Scmp, Keys, Level, Even;
    var cmp, ks := Scmp(sc), Keys(s);
    var at := Seek(cmp, x, s);
    SeekEnds(sc, x, s);
    if at.Absent? {
      HungKeys(cmp, x, s);
      LevelEven(PutIn(ks, at.at, x));
      s' := if Even(Hung(cmp, x, s)) then Hung(cmp, x, s) else Level(PutIn(ks, at.at, x));
    } else if x.len < ks[at.at].len {
      var v := ks[at.at];
      SortedKind(sc, x.cmpType, ks, at.at);
      StoredIsFound(sc, s, at.at);
      SeekEnds(sc, v, s);
      var i := Seek(cmp, v, s).at;
      var u := Level(TakenOut(ks, i));
      LevelEven(TakenOut(ks, i));
      assert Deleted(cmp, s, v, u);
      DeletedSorted(sc, x.cmpType, s, v, u);
      s' := AddedEnds(sc, u, x);
    } else {
      s' := s;
    }
  }

  lemma SortedKind(sc: bool, ct: CmpType, ks: seq<Key>, i: nat)
    requires Sorted(sc, ct, ks) && i < |ks|
    ensures ks[i].cmpType == ct
  {
  }

  /** Any list can be added. */
  lemma {:induction false} AllAddedEnds(sc: bool, ct: CmpType, keys: seq<Key>) returns (s: Shape)
    requires forall i :: 0 <= i < |keys| ==> keys[i].cmpType == ct
    ensures AllAdded(Scmp(sc), keys, s)
    decreases |keys|
  {
    hide Scmp, Added, AllAdded, Sorted;
    if keys == [] {
      NoneAddedYet(Scmp(sc));
      s := Nil;
    } else {
      var front, last := keys[..|keys| - 1], keys[|keys| - 1];
      var t := AllAddedEnds(sc, ct, front);
      AllAddedSorted(sc, ct, front, t);
      s := AddedEnds(sc, t, last);
      AddedOneMore(Scmp(sc), front, last, t, s);
      assert front + [last] == keys;
    }
  }

  /** The keys of the tree are among those added. */
  lemma {:induction false} StoredAdded(cmp: Kavl.Comparator, s: Shape, x: Key, s': Shape)
    requires Added(cmp, s, x, s')
    ensures forall k :: k in Keys(s') ==> k in Keys(s) || k == x
    decreases |Keys(s)|
  {
    hide Keys, Seek, Hung;
    var at := Seek(cmp, x, s);
    if at.Found? {
      var v := Keys(s)[at.at];
      if x.len < v.len {
        var u :| |Keys(u)| < |Keys(s)| && Deleted(cmp, s, v, u) && Added(cmp, u, x, s');
        StoredAdded(cmp, u, x, s');
      }
    }
  }

  lemma {:induction false} AllStoredAdded(cmp: Kavl.Comparator, keys: seq<Key>, s: Shape)
    requires AllAdded(cmp, keys, s)
    ensures forall k :: k in Keys(s) ==> k in keys
    decreases |keys|
  {
    hide Added, Keys;
    if keys == [] {
      assert Keys(Nil) == [] by { NoKeys(); }
    } else {
      var front, last := keys[..|keys| - 1], keys[|keys| - 1];
      var t :| AllAdded(cmp, front, t) && Added(cmp, t, last, s);
      AllStoredAdded(cmp, front, t);
      StoredAdded(cmp, t, last, s);
    }
  }

  lemma NoKeys()
    ensures Keys(Nil) == []
  {
  }
}
