/** Comparing sequences only as far as the shorter one goes: neither is larger
    when one is a prefix of the other. The relation "neither is larger" is not
    transitive, yet the comparison is regular enough for ordered search. */
module Prefixes {

  function Sign(c: int): int {
    if c < 0 then -1 else if c == 0 then 0 else 1
  }

  function PrefixCmp(s: seq<int>, t: seq<int>): (r: int)
    ensures -1 <= r <= 1
  {
    if s == [] || t == [] then 0
    else if s[0] != t[0] then Sign(s[0] - t[0])
    else PrefixCmp(s[1..], t[1..])
  }

  lemma {:induction false} PrefixCmpAntisymmetric(s: seq<int>, t: seq<int>)
    ensures PrefixCmp(s, t) == -PrefixCmp(t, s)
  {
    if s != [] && t != [] && s[0] == t[0] {
      PrefixCmpAntisymmetric(s[1..], t[1..]);
    }
  }

  /** Zero means that one is a prefix of the other. */
  lemma {:induction false} PrefixCmpZero(s: seq<int>, t: seq<int>)
    ensures PrefixCmp(s, t) == 0 <==> s <= t || t <= s
  {
    if s != [] && t != [] {
      if s[0] == t[0] {
        PrefixCmpZero(s[1..], t[1..]);
        assert s == [s[0]] + s[1..] && t == [t[0]] + t[1..];
        assert s <= t <==> s[1..] <= t[1..];
        assert t <= s <==> t[1..] <= s[1..];
      }
    }
  }

  /** Going up from `s` to a larger `t`, the comparison with any `x` can only go down. */
  lemma {:induction false} PrefixCmpFalls(x: seq<int>, s: seq<int>, t: seq<int>)
    requires PrefixCmp(s, t) < 0
    ensures PrefixCmp(x, s) >= PrefixCmp(x, t)
  {
    if x != [] && s[0] == t[0] && x[0] == s[0] {
      PrefixCmpFalls(x[1..], s[1..], t[1..]);
    }
  }

  /** Comparison of two sequences in two stages. */
  lemma {:induction false} PrefixCmpConcat(a: seq<int>, b: seq<int>, c: seq<int>, d: seq<int>)
    requires |a| == |c|
    ensures PrefixCmp(a + b, c + d) == if PrefixCmp(a, c) != 0 then PrefixCmp(a, c) else PrefixCmp(b, d)
  {
    if a == [] {
      assert a + b == b && c + d == d;
    } else {
      assert (a + b)[1..] == a[1..] + b && (c + d)[1..] == c[1..] + d;
      if a[0] == c[0] {
        PrefixCmpConcat(a[1..], b, c[1..], d);
      }
    }
  }

  // ---------- Sets without comparable elements ----------

  ghost predicate Antichain(ps: set<seq<int>>) {
    forall s, t :: s in ps && t in ps && s != t ==> PrefixCmp(s, t) != 0
  }

  ghost predicate Covered(ps: set<seq<int>>, q: seq<int>) {
    exists s :: s in ps && s <= q
  }

  /** One addition: an entry that is covered already is dropped; otherwise it
      replaces all the entries that it covers. */
  ghost function AddPrefix(ps: set<seq<int>>, c: seq<int>): set<seq<int>> {
    if Covered(ps, c) then ps else (set s | s in ps && !(c <= s)) + {c}
  }

  ghost function AddAll(cs: seq<seq<int>>): set<seq<int>> {
    if cs == [] then {} else AddPrefix(AddAll(cs[..|cs| - 1]), cs[|cs| - 1])
  }

  lemma AddKeepsAntichain(ps: set<seq<int>>, c: seq<int>)
    requires Antichain(ps)
    ensures Antichain(AddPrefix(ps, c))
  {
    if !Covered(ps, c) {
      var qs := AddPrefix(ps, c);
      forall s, t | s in qs && t in qs && s != t
        ensures PrefixCmp(s, t) != 0
      {
        PrefixCmpZero(s, t);
        PrefixCmpZero(t, s);
        PrefixCmpAntisymmetric(s, t);
      }
    }
  }

  lemma AddCoverage(ps: set<seq<int>>, c: seq<int>, q: seq<int>)
    ensures Covered(AddPrefix(ps, c), q) <==> Covered(ps, q) || c <= q
  {
    var qs := AddPrefix(ps, c);
    if Covered(ps, q) {
      var s :| s in ps && s <= q;
      if s !in qs {
        assert c <= s;
        PrefixTransitive(c, s, q);
        assert c in qs;
      } else {
        assert s in qs && s <= q;
      }
    } else if c <= q {
      if Covered(ps, c) {
        var s :| s in ps && s <= c;
        PrefixTransitive(s, c, q);
        assert false;
      } else {
        assert c in qs;
      }
    }
  }

  lemma PrefixTransitive<T>(a: seq<T>, b: seq<T>, c: seq<T>)
    requires a <= b <= c
    ensures a <= c
  {
  }

  /** However entries are added, no two stored ones are comparable, and exactly
      what some added entry covers is covered. */
  lemma {:induction false} AddAllFaithful(cs: seq<seq<int>>, q: seq<int>)
    ensures Antichain(AddAll(cs))
    ensures Covered(AddAll(cs), q) <==> exists i :: 0 <= i < |cs| && cs[i] <= q
  {
    if cs != [] {
      var rest, c := cs[..|cs| - 1], cs[|cs| - 1];
      AddAllFaithful(rest, q);
      AddKeepsAntichain(AddAll(rest), c);
      AddCoverage(AddAll(rest), c, q);
      if exists i :: 0 <= i < |cs| && cs[i] <= q {
        var i :| 0 <= i < |cs| && cs[i] <= q;
        assert i < |rest| ==> rest[i] <= q;
      }
      if exists i :: 0 <= i < |rest| && rest[i] <= q {
        var i :| 0 <= i < |rest| && rest[i] <= q;
        assert cs[i] <= q;
      }
    }
  }

  /** The stored entries are the shortest added ones: each was added, and none
      added is a proper prefix of it. */
  lemma AddAllMinimal(cs: seq<seq<int>>, s: seq<int>)
    ensures s in AddAll(cs) <==> s in cs && forall i :: 0 <= i < |cs| && cs[i] <= s ==> cs[i] == s
  {
    AddAllFaithful(cs, s);
    AddAllAdded(cs);
    var ps := AddAll(cs);
    if s in ps {
      forall i | 0 <= i < |cs| && cs[i] <= s
        ensures cs[i] == s
      {
        AddAllFaithful(cs, cs[i]);
        assert cs[i] <= cs[i];
        var r :| r in ps && r <= cs[i];
        PrefixTransitive(r, cs[i], s);
        PrefixCmpZero(r, s);
      }
    }
    if s in cs && forall i :: 0 <= i < |cs| && cs[i] <= s ==> cs[i] == s {
      var i :| 0 <= i < |cs| && cs[i] == s;
      assert cs[i] <= s;
      var r :| r in ps && r <= s;
      var j :| 0 <= j < |cs| && cs[j] == r;
    }
  }

  lemma {:induction false} AddAllAdded(cs: seq<seq<int>>)
    ensures forall s :: s in AddAll(cs) ==> s in cs
  {
    if cs != [] {
      AddAllAdded(cs[..|cs| - 1]);
    }
  }
}
