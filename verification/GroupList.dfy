/** The list of strategy groups: doubly linked, with two groups exchanged in place. */
module GroupList {
  const NONE: int := -1

  /** What a group is tried after, and how. */
  datatype Cause = HttpRedirect | TlsError | Reset | ConnectError

  datatype Level = OnReconn | NoReconn | Sort

  datatype Group = Group(next: int, prev: int, detect: set<Cause>, level: set<Level>, pri: int)

  function At(order: seq<int>, k: int): int {
    if 0 <= k < |order| then order[k] else NONE
  }

  ghost predicate NodeAt(groups: seq<Group>, order: seq<int>, k: int)
    requires 0 <= k < |order|
  {
    && 0 <= order[k] < |groups|
    && groups[order[k]].next == At(order, k + 1) && groups[order[k]].prev == At(order, k - 1)
  }

  /** `order` is the list of all groups, linked both ways from `head`. */
  ghost predicate Listed(groups: seq<Group>, head: int, order: seq<int>)
  {
    && (forall i, j :: 0 <= i < j < |order| ==> order[i] != order[j])
    && (forall k :: 0 <= k < |order| ==> NodeAt(groups, order, k))
    && (forall g :: 0 <= g < |groups| ==> g in order)
    && head == At(order, 0)
  }

  /** The elements at `i` and `j` exchanged. */
  function Exchanged<T>(s: seq<T>, i: nat, j: nat): (t: seq<T>)
    requires i < |s| && j < |s|
    ensures |t| == |s|
  {
    s[i := s[j]][j := s[i]]
  }

  /** The groups after swop_groups: new links, and the triggers stay at their positions. */
  ghost predicate Swopped(groups: seq<Group>, next: seq<Group>, c: int, n: int)
  {
    && |next| == |groups| && 0 <= c < |groups| && 0 <= n < |groups|
    && next[c].detect == groups[n].detect && next[c].level == groups[n].level
    && next[n].detect == groups[c].detect && next[n].level == groups[c].level
    && (forall g :: 0 <= g < |groups| ==> next[g].pri == groups[g].pri)
    && forall g :: 0 <= g < |groups| && g != c && g != n ==>
        next[g].detect == groups[g].detect && next[g].level == groups[g].level
  }

  class Groups {
    var groups: seq<Group>
    var head: int
    ghost var order: seq<int>

    ghost predicate Valid()
      reads this
    {
      Listed(groups, head, order)
    }

    /** The first assignments to links in swop_groups: both groups take each other's
        links, and what lies outside of the two follows. */
    method RelinkOuter(c: int, n: int)
      requires Apart(groups, c, n)
      modifies this`groups
      ensures |groups| == |old(groups)|
      ensures forall g :: 0 <= g < |groups| ==> groups[g] == Outer(old(groups), c, n, g)
    {
      hide WithNext, WithPrev;
      var cp := groups[c];
      groups := WithNext(groups, c, groups[n].next);
      groups := WithPrev(groups, c, groups[n].prev);
      groups := WithPrev(groups, n, cp.prev);
      groups := WithNext(groups, n, cp.next);
      if groups[n].prev != NONE {
        groups := WithNext(groups, groups[n].prev, n);
      }
      if groups[c].next != NONE {
        groups := WithPrev(groups, groups[c].next, c);
      }
    }

    /** The assignments to links in swop_groups. */
    method Relink(c: int, n: int)
      requires Apart(groups, c, n)
      modifies this`groups
      ensures |groups| == |old(groups)|
      ensures forall g :: 0 <= g < |groups| ==>
        groups[g] == old(groups)[g].(next := NextOf(old(groups), c, n, g), prev := PrevOf(old(groups), c, n, g))
    {
      hide WithNext, WithPrev;
      var next := groups[c].next;
      RelinkOuter(c, n);
      if next != n {
        groups := WithPrev(groups, groups[n].next, n);
        groups := WithNext(groups, groups[c].prev, c);
      } else {
        groups := WithPrev(groups, c, n);
        groups := WithNext(groups, n, c);
      }
    }

    /** swop_groups: exchanges a group with a later one. */
    method Swop(c: int, n: int, ghost i: nat, ghost j: nat)
      requires Valid() && i < j < |order| && order[i] == c && order[j] == n
      modifies this
      ensures Valid() && order == Exchanged(old(order), i, j) && Swopped(old(groups), groups, c, n)
    {
      hide Listed, Apart, NextOf, PrevOf;
      ghost var was, o := groups, order;
      ListedApart(was, head, o, i, j);
      NeighboursOf(was, head, o, i);
      NeighboursOf(was, head, o, j);
      var cp := groups[c];
      Relink(c, n);
      ghost var linked := groups;
      groups := groups[c := groups[c].(detect := groups[n].detect)];
      groups := groups[c := groups[c].(level := groups[n].level)];
      groups := groups[n := groups[n].(detect := cp.detect)];
      groups := groups[n := groups[n].(level := cp.level)];
      order := Exchanged(o, i, j);
      ExchangedListed(was, head, o, i, j, groups);
      if head == c {
        head := n;
      }
    }
  }

  function WithNext(groups: seq<Group>, g: int, x: int): (t: seq<Group>)
    requires 0 <= g < |groups|
    ensures |t| == |groups|
    ensures forall k :: 0 <= k < |t| ==> t[k] == if k == g then groups[k].(next := x) else groups[k]
  {
    groups[g := groups[g].(next := x)]
  }

  function WithPrev(groups: seq<Group>, g: int, x: int): (t: seq<Group>)
    requires 0 <= g < |groups|
    ensures |t| == |groups|
    ensures forall k :: 0 <= k < |t| ==> t[k] == if k == g then groups[k].(prev := x) else groups[k]
  {
    groups[g := groups[g].(prev := x)]
  }

  /** Two groups whose links stay within the list and meet only if they are neighbours. */
  ghost predicate Apart(groups: seq<Group>, c: int, n: int) {
    && 0 <= c < |groups| && 0 <= n < |groups| && c != n
    && Inside(groups, groups[c].prev) && Inside(groups, groups[n].next)
    && Inside(groups, groups[c].next) && Inside(groups, groups[n].prev)
    && groups[c].prev != c && groups[c].prev != n && groups[n].next != c && groups[n].next != n
    && (groups[n].next != NONE ==>
        groups[n].next != groups[c].next && groups[n].next != groups[c].prev && groups[n].next != groups[n].prev)
    && (groups[c].prev != NONE ==> groups[c].prev != groups[c].next && groups[c].prev != groups[n].prev)
    && (groups[c].next == n <==> groups[n].prev == c)
    && (groups[c].next != n ==>
        groups[c].next != NONE && groups[n].prev != NONE && groups[c].next != c && groups[n].prev != n)
  }

  predicate Inside(groups: seq<Group>, g: int) {
    g == NONE || 0 <= g < |groups|
  }

  /** A group after the first assignments of swop_groups. */
  function Outer(groups: seq<Group>, c: int, n: int, g: int): Group
    requires 0 <= c < |groups| && 0 <= n < |groups| && 0 <= g < |groups|
  {
    if g == c then groups[c].(next := groups[n].next, prev := groups[n].prev)
    else if g == n then groups[n].(next := groups[c].next, prev := groups[c].prev)
    else if g == groups[c].prev then groups[g].(next := n)
    else if g == groups[n].next then groups[g].(prev := c)
    else groups[g]
  }

  /** The link to the next group once `c` and `n` have changed places. */
  function NextOf(groups: seq<Group>, c: int, n: int, g: int): int
    requires 0 <= c < |groups| && 0 <= n < |groups| && 0 <= g < |groups|
  {
    if g == c then groups[n].next
    else if g == n then (if groups[c].next == n then c else groups[c].next)
    else if g == groups[c].prev then n
    else if g == groups[n].prev then c
    else groups[g].next
  }

  function PrevOf(groups: seq<Group>, c: int, n: int, g: int): int
    requires 0 <= c < |groups| && 0 <= n < |groups| && 0 <= g < |groups|
  {
    if g == n then groups[c].prev
    else if g == c then (if groups[c].next == n then n else groups[n].prev)
    else if g == groups[n].next then c
    else if g == groups[c].next then n
    else groups[g].prev
  }

  /** A group's neighbours are the ones before and after it in the list. */
  lemma NeighboursOf(groups: seq<Group>, head: int, order: seq<int>, k: nat)
    requires Listed(groups, head, order) && k < |order|
    ensures 0 <= order[k] < |groups|
    ensures groups[order[k]].next == At(order, k + 1) && groups[order[k]].prev == At(order, k - 1)
    ensures Inside(groups, groups[order[k]].next) && Inside(groups, groups[order[k]].prev)
  {
    assert NodeAt(groups, order, k);
    assert k + 1 < |order| ==> NodeAt(groups, order, k + 1);
    assert k > 0 ==> NodeAt(groups, order, k - 1);
  }

  lemma AtEqual(order: seq<int>, groups: seq<Group>, head: int, i: int, j: int)
    requires Listed(groups, head, order)
    ensures At(order, i) == At(order, j) <==> i == j || (At(order, i) == NONE && At(order, j) == NONE)
    ensures At(order, i) == NONE <==> !(0 <= i < |order|)
  {
    assert 0 <= i < |order| ==> NodeAt(groups, order, i);
    assert 0 <= j < |order| ==> NodeAt(groups, order, j);
  }

  lemma ListedApart(groups: seq<Group>, head: int, order: seq<int>, i: nat, j: nat)
    requires Listed(groups, head, order) && i < j < |order|
    ensures Apart(groups, order[i], order[j])
  {
    hide Listed;
    NeighboursOf(groups, head, order, i);
    NeighboursOf(groups, head, order, j);
    AtEqual(order, groups, head, i, j);
    AtEqual(order, groups, head, i - 1, i);
    AtEqual(order, groups, head, i - 1, j);
    AtEqual(order, groups, head, j + 1, i);
    AtEqual(order, groups, head, j + 1, j);
    AtEqual(order, groups, head, j + 1, i + 1);
    AtEqual(order, groups, head, j + 1, i - 1);
    AtEqual(order, groups, head, j + 1, j - 1);
    AtEqual(order, groups, head, i - 1, i + 1);
    AtEqual(order, groups, head, i - 1, j - 1);
    AtEqual(order, groups, head, i + 1, j);
    AtEqual(order, groups, head, j - 1, i);
    AtEqual(order, groups, head, i + 1, i);
    AtEqual(order, groups, head, j - 1, j);
  }

  lemma ExchangedAt(order: seq<int>, i: nat, j: nat, k: int)
    requires i < j < |order|
    ensures At(Exchanged(order, i, j), k) == At(order, if k == i then j else if k == j then i else k)
  {
  }

  /** The links of the `k`-th group of the new list. */
  lemma ExchangedNode(groups: seq<Group>, head: int, order: seq<int>, i: nat, j: nat, next: seq<Group>, k: nat)
    requires Listed(groups, head, order) && i < j < |order| && k < |order|
    requires 0 <= order[i] < |groups| && 0 <= order[j] < |groups| && |next| == |groups|
    requires forall g :: 0 <= g < |groups| ==>
      next[g].next == NextOf(groups, order[i], order[j], g) && next[g].prev == PrevOf(groups, order[i], order[j], g)
    ensures NodeAt(next, Exchanged(order, i, j), k)
  {
    hide Listed;
    var q := if k == i then j else if k == j then i else k;
    ExchangedAt(order, i, j, k);
    ExchangedAt(order, i, j, k + 1);
    ExchangedAt(order, i, j, k - 1);
    NeighboursOf(groups, head, order, i);
    NeighboursOf(groups, head, order, j);
    NeighboursOf(groups, head, order, q);
    AtEqual(order, groups, head, q, i);
    AtEqual(order, groups, head, q, j);
    AtEqual(order, groups, head, q, i - 1);
    AtEqual(order, groups, head, q, j - 1);
    AtEqual(order, groups, head, q, i + 1);
    AtEqual(order, groups, head, q, j + 1);
    AtEqual(order, groups, head, i + 1, j);
  }

  lemma ExchangedListed(groups: seq<Group>, head: int, order: seq<int>, i: nat, j: nat, next: seq<Group>)
    requires Listed(groups, head, order) && i < j < |order| && |next| == |groups|
    requires 0 <= order[i] < |groups| && 0 <= order[j] < |groups|
    requires forall g :: 0 <= g < |groups| ==>
      next[g].next == NextOf(groups, order[i], order[j], g) && next[g].prev == PrevOf(groups, order[i], order[j], g)
    ensures Listed(next, if head == order[i] then order[j] else head, Exchanged(order, i, j))
  {
    hide NextOf, PrevOf, NodeAt;
    var o := Exchanged(order, i, j);
    forall k | 0 <= k < |o|
      ensures NodeAt(next, o, k)
    {
      ExchangedNode(groups, head, order, i, j, next, k);
    }
    forall g | 0 <= g < |next|
      ensures g in o
    {
      assert g in order;
      var k :| 0 <= k < |order| && order[k] == g;
      assert o[if k == i then j else if k == j then i else k] == g;
    }
    AtEqual(order, groups, head, 0, i);
    ExchangedAt(order, i, j, 0);
  }

  // ---------- Order by priority ----------

  /** How many of `s` are less than `x`. */
  function Less(x: int, s: seq<int>): nat {
    if s == [] then 0 else (if s[0] < x then 1 else 0) + Less(x, s[1..])
  }

  /** The pairs that stand in the wrong order. */
  function Inversions(s: seq<int>): nat {
    if s == [] then 0 else Less(s[0], s[1..]) + Inversions(s[1..])
  }

  /** The pairs of an element of `a` and a smaller one of `b`. */
  function Across(a: seq<int>, b: seq<int>): nat {
    if a == [] then 0 else Less(a[0], b) + Across(a[1..], b)
  }

  lemma {:induction false} LessConcat(x: int, a: seq<int>, b: seq<int>)
    ensures Less(x, a + b) == Less(x, a) + Less(x, b)
  {
    if a == [] {
      assert a + b == b;
    } else {
      LessConcat(x, a[1..], b);
      assert (a + b)[1..] == a[1..] + b;
    }
  }

  lemma {:induction false} LessMore(x: int, y: int, s: seq<int>)
    requires x <= y
    ensures Less(x, s) <= Less(y, s)
  {
    if s != [] {
      LessMore(x, y, s[1..]);
    }
  }

  lemma {:induction false} InversionsConcat(a: seq<int>, b: seq<int>)
    ensures Inversions(a + b) == Inversions(a) + Across(a, b) + Inversions(b)
  {
    if a == [] {
      assert a + b == b;
    } else {
      InversionsConcat(a[1..], b);
      LessConcat(a[0], a[1..], b);
      assert (a + b)[1..] == a[1..] + b;
    }
  }

  lemma {:induction false} AcrossConcat(a: seq<int>, b: seq<int>, c: seq<int>)
    ensures Across(a, b + c) == Across(a, b) + Across(a, c)
  {
    if a != [] {
      LessConcat(a[0], b, c);
      AcrossConcat(a[1..], b, c);
    }
  }

  /** Fewer elements of `a` exceed a greater bound. */
  lemma {:induction false} AcrossOne(a: seq<int>, x: int, y: int)
    requires y < x
    ensures Across(a, [x]) <= Across(a, [y])
  {
    if a != [] {
      AcrossOne(a[1..], x, y);
      assert [x][1..] == [] && [y][1..] == [];
    }
  }

  /** `a` meets the same elements whichever way round `x` and `y` stand. */
  lemma {:induction false} AcrossExchanged(a: seq<int>, x: int, m: seq<int>, y: int, b: seq<int>)
    ensures Across(a, [x] + m + [y] + b) == Across(a, [y] + m + [x] + b)
  {
    if a != [] {
      AcrossExchanged(a[1..], x, m, y, b);
      LessExchanged(a[0], x, m, y, b);
      LessExchanged(a[0], y, m, x, b);
    }
  }

  lemma LessExchanged(z: int, x: int, m: seq<int>, y: int, b: seq<int>)
    ensures Less(z, [x] + m + [y] + b) == Less(z, [x]) + Less(z, m) + Less(z, [y]) + Less(z, b)
  {
    LessConcat(z, [x] + m + [y], b);
    LessConcat(z, [x] + m, [y]);
    LessConcat(z, [x], m);
  }

  /** The inversions of four parts. */
  lemma InversionsParts(x: int, m: seq<int>, y: int, b: seq<int>)
    ensures Inversions([x] + m + [y] + b)
      == Less(x, m) + Less(x, [y]) + Less(x, b) + Inversions(m) + Across(m, [y]) + Across(m, b)
         + Less(y, b) + Inversions(b)
  {
    var t := [y] + b;
    assert [x] + m + [y] + b == [x] + (m + t);
    assert ([x] + (m + t))[1..] == m + t;
    LessConcat(x, m, t);
    LessConcat(x, [y], b);
    InversionsConcat(m, t);
    AcrossConcat(m, [y], b);
    assert t[1..] == b;
  }

  /** Exchanging two elements that stand the wrong way round leaves fewer inversions. */
  lemma ExchangeLowers(s: seq<int>, i: nat, j: nat)
    requires i < j < |s| && s[i] > s[j]
    ensures Inversions(Exchanged(s, i, j)) < Inversions(s)
  {
    hide Inversions, Less, Across, Exchanged;
    var a, x, m, y, b := s[..i], s[i], s[i + 1..j], s[j], s[j + 1..];
    var u, v := [x] + m + [y] + b, [y] + m + [x] + b;
    ExchangedParts(s, i, j);
    InversionsConcat(a, u);
    InversionsConcat(a, v);
    AcrossExchanged(a, x, m, y, b);
    InversionsParts(x, m, y, b);
    InversionsParts(y, m, x, b);
    LessMore(y, x, m);
    AcrossOne(m, x, y);
    LessOne(x, y);
    LessOne(y, x);
  }

  lemma LessOne(x: int, y: int)
    ensures Less(x, [y]) == if y < x then 1 else 0
  {
    assert [y][1..] == [];
  }

  lemma ExchangedParts(s: seq<int>, i: nat, j: nat)
    requires i < j < |s|
    ensures s == s[..i] + ([s[i]] + s[i + 1..j] + [s[j]] + s[j + 1..])
    ensures Exchanged(s, i, j) == s[..i] + ([s[j]] + s[i + 1..j] + [s[i]] + s[j + 1..])
  {
  }

  /** The priorities along the list. */
  ghost function Priorities(groups: seq<Group>, order: seq<int>): seq<int>
    requires forall k :: 0 <= k < |order| ==> 0 <= order[k] < |groups|
  {
    seq(|order|, k requires 0 <= k < |order| => groups[order[k]].pri)
  }

  /** Each exchange of a group with a later one of lower priority leaves fewer inversions. */
  lemma SwopLowers(groups: seq<Group>, next: seq<Group>, order: seq<int>, i: nat, j: nat)
    requires i < j < |order| && forall k :: 0 <= k < |order| ==> 0 <= order[k] < |groups|
    requires Swopped(groups, next, order[i], order[j]) && groups[order[i]].pri > groups[order[j]].pri
    ensures forall k :: 0 <= k < |order| ==> 0 <= Exchanged(order, i, j)[k] < |next|
    ensures Inversions(Priorities(next, Exchanged(order, i, j))) < Inversions(Priorities(groups, order))
  {
    var p := Priorities(groups, order);
    ExchangeLowers(p, i, j);
    assert Priorities(next, Exchanged(order, i, j)) == Exchanged(p, i, j);
  }
}
