/** The slots of the event pool and the timer list that runs through them. */
module TimerList {
  /** Pointers to slots; NONE is NULL. */
  const NONE: int := -1

  datatype Eval = Eval(fd: int, index: int, modIter: nat, tvMs: int, tvNext: int, tvPrev: int, pair: int,
                       buff: int, sqBuff: int)

  const CLEARED := Eval(-1, 0, 0, 0, NONE, NONE, NONE, NONE, NONE)

  predicate Active(items: seq<Eval>, s: int) {
    0 <= s < |items| && items[s].fd != -1
  }

  /** Everything but the links of the timer list. */
  function Body(e: Eval): Eval {
    e.(tvNext := NONE, tvPrev := NONE)
  }

  /** The `k`-th timer, or NONE outside the list. */
  function At(ts: seq<int>, k: int): int {
    if 0 <= k < |ts| then ts[k] else NONE
  }

  ghost predicate Distinct(ts: seq<int>) {
    forall i, j :: 0 <= i < j < |ts| ==> ts[i] != ts[j]
  }

  /** The slot `ts[k]` is linked to its neighbours and armed. */
  ghost predicate TimerAt(items: seq<Eval>, ts: seq<int>, k: int)
    requires 0 <= k < |ts|
  {
    && 0 <= ts[k] < |items| && items[ts[k]].tvMs != 0
    && items[ts[k]].tvNext == At(ts, k + 1) && items[ts[k]].tvPrev == At(ts, k - 1)
  }

  ghost predicate Unarmed(items: seq<Eval>, s: int)
    requires 0 <= s < |items|
  {
    items[s].tvMs == 0 && items[s].tvNext == NONE && items[s].tvPrev == NONE
  }

  ghost predicate Linked(items: seq<Eval>, ts: seq<int>) {
    && Distinct(ts)
    && (forall k :: 0 <= k < |ts| ==> TimerAt(items, ts, k))
    && (forall s :: Active(items, s) && s !in ts ==> Unarmed(items, s))
  }

  ghost predicate Sorted(items: seq<Eval>, ts: seq<int>) {
    forall i, j :: 0 <= i <= j < |ts| && 0 <= ts[i] < |items| && 0 <= ts[j] < |items| ==>
        items[ts[i]].tvMs <= items[ts[j]].tvMs
  }

  /** A doubly linked list in order of time, with `start` and `end` its ends. */
  ghost predicate TimersOk(items: seq<Eval>, ts: seq<int>, start: int, end: int) {
    Linked(items, ts) && Sorted(items, ts) && start == At(ts, 0) && end == At(ts, |ts| - 1)
  }

  ghost predicate AllActive(items: seq<Eval>, ts: seq<int>) {
    forall k :: 0 <= k < |ts| ==> Active(items, ts[k])
  }

  /** Slots that differ in timer links only. */
  ghost predicate SameBodies(items: seq<Eval>, next: seq<Eval>) {
    |next| == |items| && forall s :: 0 <= s < |items| ==> Body(next[s]) == Body(items[s])
  }

  ghost predicate SameBodiesBut(items: seq<Eval>, next: seq<Eval>, v: int) {
    |next| == |items| && forall s :: 0 <= s < |items| && s != v ==> Body(next[s]) == Body(items[s])
  }

  /** `ts` without its `k`-th element. */
  function Without(ts: seq<int>, k: nat): seq<int>
    requires k < |ts|
  {
    ts[..k] + ts[k + 1..]
  }

  /** `ts` without the first `v`. */
  function Minus(ts: seq<int>, v: int): seq<int> {
    if ts == [] then []
    else if ts[0] == v then ts[1..]
    else [ts[0]] + Minus(ts[1..], v)
  }

  lemma {:induction false} MinusIs(ts: seq<int>, k: nat)
    requires Distinct(ts) && k < |ts|
    ensures Minus(ts, ts[k]) == Without(ts, k)
    decreases k
  {
    if k > 0 {
      assert ts[0] != ts[k] && ts[1..][k - 1] == ts[k];
      MinusIs(ts[1..], k - 1);
    }
  }

  lemma {:induction false} MinusMembers(ts: seq<int>, v: int)
    requires Distinct(ts)
    ensures forall s :: s in Minus(ts, v) <==> s in ts && s != v
    ensures v !in ts ==> Minus(ts, v) == ts
    decreases |ts|
  {
    if ts != [] {
      var rest := ts[1..];
      assert forall i :: 0 <= i < |rest| ==> rest[i] == ts[i + 1];
      assert ts == [ts[0]] + rest;
      if ts[0] != v {
        MinusMembers(rest, v);
      }
    }
  }

  /** The links around the `k`-th timer closed and the slot cleared. */
  function Closed(items: seq<Eval>, v: int): seq<Eval>
    requires 0 <= v < |items|
  {
    var p, n := items[v].tvPrev, items[v].tvNext;
    var a := if 0 <= p < |items| then items[p := items[p].(tvNext := n)] else items;
    var b := if 0 <= n < |a| then a[n := a[n].(tvPrev := p)] else a;
    b[v := b[v].(tvMs := 0, tvNext := NONE, tvPrev := NONE)]
  }

  lemma ClosedBodies(items: seq<Eval>, v: int)
    requires 0 <= v < |items|
    ensures SameBodiesBut(items, Closed(items, v), v)
    ensures Body(Closed(items, v)[v]) == Body(items[v]).(tvMs := 0) && Unarmed(Closed(items, v), v)
  {
  }

  lemma ClosedLinked(items: seq<Eval>, ts: seq<int>, k: nat)
    requires Linked(items, ts) && k < |ts|
    ensures 0 <= ts[k] < |items| && Linked(Closed(items, ts[k]), Without(ts, k))
  {
    assert TimerAt(items, ts, k);
    var v, us := ts[k], Without(ts, k);
    var next := Closed(items, v);
    ClosedBodies(items, v);
    forall j | 0 <= j < |us|
      ensures TimerAt(next, us, j)
    {
      ClosedAt(items, ts, k, j);
    }
    forall s | Active(next, s) && s !in us
      ensures Unarmed(next, s)
    {
      if s != v {
        WithoutOther(ts, k, s);
        ClosedOutside(items, ts, k, s);
      }
    }
  }

  lemma WithoutOther(ts: seq<int>, k: nat, s: int)
    requires k < |ts| && s !in Without(ts, k) && s != ts[k]
    ensures s !in ts
  {
    forall i | 0 <= i < |ts|
      ensures ts[i] != s
    {
      if i < k {
        assert Without(ts, k)[i] == ts[i];
      } else if i > k {
        assert Without(ts, k)[i - 1] == ts[i];
      }
    }
  }

  lemma ClosedOutside(items: seq<Eval>, ts: seq<int>, k: nat, s: int)
    requires Linked(items, ts) && k < |ts| && s !in ts && 0 <= s < |items| && Active(items, s)
    ensures 0 <= ts[k] < |items| && Unarmed(Closed(items, ts[k]), s)
  {
    assert TimerAt(items, ts, k);
    assert At(ts, k + 1) == NONE || At(ts, k + 1) in ts;
    assert At(ts, k - 1) == NONE || At(ts, k - 1) in ts;
  }

  lemma ClosedAt(items: seq<Eval>, ts: seq<int>, k: nat, j: nat)
    requires Linked(items, ts) && k < |ts| && j < |ts| - 1
    ensures 0 <= ts[k] < |items| && TimerAt(Closed(items, ts[k]), Without(ts, k), j)
  {
    var i := if j < k then j else j + 1;
    assert Without(ts, k)[j] == ts[i];
    assert TimerAt(items, ts, k) && TimerAt(items, ts, i);
    assert k > 0 ==> TimerAt(items, ts, k - 1);
    assert k + 1 < |ts| ==> TimerAt(items, ts, k + 1);
  }

  lemma SortedWithout(items: seq<Eval>, ts: seq<int>, next: seq<Eval>, k: nat)
    requires Sorted(items, ts) && k < |ts| && SameBodiesBut(items, next, ts[k]) && Distinct(ts)
    ensures Sorted(next, Without(ts, k))
  {
    var us := Without(ts, k);
    forall i, j | 0 <= i <= j < |us| && 0 <= us[i] < |next| && 0 <= us[j] < |next|
      ensures next[us[i]].tvMs <= next[us[j]].tvMs
    {
      var a, b := if i < k then i else i + 1, if j < k then j else j + 1;
      assert us[i] == ts[a] && us[j] == ts[b];
      assert Body(next[us[i]]) == Body(items[us[i]]) && Body(next[us[j]]) == Body(items[us[j]]);
    }
  }

  /** `v` before the `k`-th element. */
  function With(ts: seq<int>, k: nat, v: int): seq<int>
    requires k <= |ts|
  {
    ts[..k] + [v] + ts[k..]
  }

  /** The slot `v` armed for `ms` and linked between `p` and `n`. */
  function Opened(items: seq<Eval>, v: int, p: int, n: int, ms: int): seq<Eval>
    requires 0 <= v < |items|
  {
    var a := items[v := items[v].(tvMs := ms, tvNext := n, tvPrev := p)];
    var b := if 0 <= n < |a| then a[n := a[n].(tvPrev := v)] else a;
    if 0 <= p < |b| then b[p := b[p].(tvNext := v)] else b
  }

  lemma OpenedBodies(items: seq<Eval>, v: int, p: int, n: int, ms: int)
    requires 0 <= v < |items| && p != v && n != v
    ensures SameBodiesBut(items, Opened(items, v, p, n, ms), v)
    ensures Opened(items, v, p, n, ms)[v] == items[v].(tvMs := ms, tvNext := n, tvPrev := p)
  {
  }

  lemma OpenedLinked(items: seq<Eval>, ts: seq<int>, k: nat, v: int, ms: int)
    requires Linked(items, ts) && k <= |ts| && Active(items, v) && v !in ts && ms != 0
    ensures Linked(Opened(items, v, At(ts, k - 1), At(ts, k), ms), With(ts, k, v))
  {
    var us := With(ts, k, v);
    var p, n := At(ts, k - 1), At(ts, k);
    var next := Opened(items, v, p, n, ms);
    NeighboursIn(ts, k, v);
    OpenedBodies(items, v, p, n, ms);
    forall j | 0 <= j < |us|
      ensures TimerAt(next, us, j)
    {
      OpenedAt(items, ts, k, v, ms, j);
    }
    forall s | Active(next, s) && s !in us
      ensures Unarmed(next, s)
    {
      assert us[k] == v;
      WithOther(ts, k, v, s);
    }
  }

  lemma NeighboursIn(ts: seq<int>, k: nat, v: int)
    requires k <= |ts| && v !in ts
    ensures At(ts, k - 1) == NONE || (At(ts, k - 1) in ts && At(ts, k - 1) != v)
    ensures At(ts, k) == NONE || (At(ts, k) in ts && At(ts, k) != v)
  {
  }

  lemma WithOther(ts: seq<int>, k: nat, v: int, s: int)
    requires k <= |ts| && s !in With(ts, k, v)
    ensures s !in ts && s != v
  {
    assert With(ts, k, v)[k] == v;
    forall i | 0 <= i < |ts|
      ensures ts[i] != s
    {
      assert With(ts, k, v)[if i < k then i else i + 1] == ts[i];
    }
  }

  lemma OpenedAt(items: seq<Eval>, ts: seq<int>, k: nat, v: int, ms: int, j: nat)
    requires Linked(items, ts) && k <= |ts| && Active(items, v) && v !in ts && ms != 0 && j <= |ts|
    ensures TimerAt(Opened(items, v, At(ts, k - 1), At(ts, k), ms), With(ts, k, v), j)
  {
    var us := With(ts, k, v);
    NeighboursIn(ts, k, v);
    assert k > 0 ==> TimerAt(items, ts, k - 1);
    assert k < |ts| ==> TimerAt(items, ts, k);
    assert us[k] == v;
    if j != k {
      var i := if j < k then j else j - 1;
      assert us[j] == ts[i];
      assert TimerAt(items, ts, i);
      assert j + 1 < |us| && j + 1 != k ==> us[j + 1] == ts[i + 1];
      assert j > 0 && j - 1 != k ==> us[j - 1] == ts[i - 1];
    } else {
      assert k + 1 < |us| ==> us[k + 1] == ts[k];
      assert k > 0 ==> us[k - 1] == ts[k - 1];
    }
  }

  lemma SortedWith(items: seq<Eval>, ts: seq<int>, next: seq<Eval>, k: nat, v: int)
    requires Sorted(items, ts) && k <= |ts| && SameBodiesBut(items, next, v) && v !in ts && 0 <= v < |items|
    requires forall i :: 0 <= i < |ts| ==> 0 <= ts[i] < |items|
    requires k > 0 ==> items[ts[k - 1]].tvMs < next[v].tvMs
    requires k < |ts| ==> next[v].tvMs <= items[ts[k]].tvMs
    ensures Sorted(next, With(ts, k, v))
  {
    var us := With(ts, k, v);
    forall i, j | 0 <= i <= j < |us| && 0 <= us[i] < |next| && 0 <= us[j] < |next|
      ensures next[us[i]].tvMs <= next[us[j]].tvMs
    {
      SortedWithAt(items, ts, next, k, v, i, j);
    }
  }

  lemma SortedPair(items: seq<Eval>, ts: seq<int>, i: nat, j: nat)
    requires Sorted(items, ts) && i <= j < |ts| && 0 <= ts[i] < |items| && 0 <= ts[j] < |items|
    ensures items[ts[i]].tvMs <= items[ts[j]].tvMs
  {
  }

  lemma SortedWithAt(items: seq<Eval>, ts: seq<int>, next: seq<Eval>, k: nat, v: int, i: nat, j: nat)
    requires Sorted(items, ts) && k <= |ts| && SameBodiesBut(items, next, v) && v !in ts && 0 <= v < |items|
    requires forall i :: 0 <= i < |ts| ==> 0 <= ts[i] < |items|
    requires k > 0 ==> items[ts[k - 1]].tvMs < next[v].tvMs
    requires k < |ts| ==> next[v].tvMs <= items[ts[k]].tvMs
    requires i <= j <= |ts|
    ensures var us := With(ts, k, v); 0 <= us[i] < |next| && 0 <= us[j] < |next| && next[us[i]].tvMs <= next[us[j]].tvMs
  {
    hide Sorted;
    var us := With(ts, k, v);
    assert us[k] == v;
    if i != k {
      var a := if i < k then i else i - 1;
      assert us[i] == ts[a];
      assert Body(next[ts[a]]) == Body(items[ts[a]]);
    }
    if j != k {
      var b := if j < k then j else j - 1;
      assert us[j] == ts[b];
      assert Body(next[ts[b]]) == Body(items[ts[b]]);
      if i == k {
        SortedPair(items, ts, k, b);
      } else {
        SortedPair(items, ts, if i < k then i else i - 1, b);
      }
    } else if i < k {
      SortedPair(items, ts, i, k - 1);
    }
  }
}
