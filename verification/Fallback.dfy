/** Falling back from one strategy group to the next when a connection fails.
    A mask of groups is the set of its bits; with at most 31 groups, bit `1 << id`
    is the single bit `id`. */
module Fallback {
  import opened GroupList

  const MAX_GROUPS := 31

  /** What a client connection remembers about the groups. */
  class Client {
    var dp: int
    var dpMask: set<int>
    var detect: set<Cause>

    constructor (dp: int, dpMask: set<int>, detect: set<Cause>)
      ensures this.dp == dp && this.dpMask == dpMask && this.detect == detect
    {
      this.dp, this.dpMask, this.detect := dp, dpMask, detect;
    }
  }

  /** The groups there are. */
  function Full(n: nat): (s: set<int>)
    ensures |s| == n && forall g :: g in s <==> 0 <= g < n
  {
    if n == 0 then {} else Full(n - 1) + {n - 1}
  }

  function Members(s: seq<int>): set<int> {
    set g | g in s
  }

  ghost predicate Ready(m: Groups, c: Client)
    reads m, c
  {
    && m.Valid() && 0 < |m.groups| <= MAX_GROUPS && c.dpMask <= Full(|m.groups|)
    && (c.dp == NONE || 0 <= c.dp < |m.groups|)
  }

  /** The group is untried, triggered by what happened (or the one to start with), and fits. */
  ghost predicate Eligible(groups: seq<Group>, mask: set<int>, detect: set<Cause>, init: int, ok: int -> bool, g: int)
    requires 0 <= g < |groups|
  {
    g !in mask && (g == init || groups[g].detect == {} || detect * groups[g].detect != {}) && ok(g)
  }

  /** Where `x` stands in `s`; at the end if it is not there. */
  function Position(s: seq<int>, x: int): (i: nat)
    ensures i <= |s| && (i < |s| ==> s[i] == x) && (x in s ==> i < |s|)
  {
    if s == [] || s[0] == x then 0 else 1 + Position(s[1..], x)
  }

  /** The list from `init` on, and then round from its head. */
  function Round(order: seq<int>, init: int): (r: seq<int>)
    ensures |r| == |order|
  {
    var i := Position(order, init);
    order[i..] + order[..i]
  }

  /** `dp` is the first of `round` that is eligible, or there is none. */
  ghost predicate FirstEligible(groups: seq<Group>, mask: set<int>, detect: set<Cause>, init: int, ok: int -> bool,
                                round: seq<int>, dp: int, t: nat)
  {
    && t <= |round| && (forall u :: 0 <= u < |round| ==> 0 <= round[u] < |groups|)
    && (forall u :: 0 <= u < t ==> !Eligible(groups, mask, detect, init, ok, round[u]))
    && (if dp == NONE then t == |round|
        else t < |round| && dp == round[t] && Eligible(groups, mask, detect, init, ok, dp))
  }

  /** The place in the list of the `u`-th group of the round. */
  function Turned(i: nat, n: nat, u: nat): int
    requires i <= n
  {
    if u < n - i then i + u else u - (n - i)
  }

  lemma RoundAt(order: seq<int>, init: int, u: nat)
    requires u < |order|
    ensures var i := Position(order, init);
      0 <= Turned(i, |order|, u) < |order| && Round(order, init)[u] == order[Turned(i, |order|, u)]
  {
  }

  /** The round visits every group once, along the links. */
  lemma RoundSteps(groups: seq<Group>, head: int, order: seq<int>, init: int, u: nat)
    requires Listed(groups, head, order) && u < |order| && (init == NONE || 0 <= init < |groups|)
    ensures var r := Round(order, init);
      && 0 <= r[u] < |groups|
      && (u == 0 ==> r[0] == if init == NONE then head else init)
      && (u + 1 < |r| ==> r[u + 1] == if groups[r[u]].next == NONE then head else groups[r[u]].next)
  {
    hide Round, Position;
    var i, n := Position(order, init), |order|;
    RoundAt(order, init, u);
    var k := Turned(i, n, u);
    assert NodeAt(groups, order, k);
    if init != NONE {
      assert init in order;
    } else {
      NotListed(groups, head, order);
    }
    if u + 1 < n {
      RoundAt(order, init, u + 1);
      assert k + 1 < n ==> NodeAt(groups, order, k + 1);
    }
  }

  lemma NotListed(groups: seq<Group>, head: int, order: seq<int>)
    requires Listed(groups, head, order)
    ensures NONE !in order && Position(order, NONE) == |order|
  {
    forall k | 0 <= k < |order|
      ensures order[k] != NONE
    {
      assert NodeAt(groups, order, k);
    }
  }

  lemma RoundHas(order: seq<int>, init: int, g: int)
    requires g in order
    ensures g in Round(order, init) && |order| > 0
  {
    var i := Position(order, init);
    assert order == order[..i] + order[i..];
  }

  lemma RoundCovers(groups: seq<Group>, head: int, order: seq<int>, init: int)
    requires Listed(groups, head, order)
    ensures Full(|groups|) <= Members(Round(order, init)) && (|groups| > 0 ==> |order| > 0)
  {
    hide Round, Full;
    var r := Round(order, init);
    forall g | 0 <= g < |groups|
      ensures g in r && |order| > 0
    {
      RoundHas(order, init, g);
    }
    FullRange(|groups|);
  }

  lemma FullRange(n: nat)
    ensures forall g :: g in Full(n) <==> 0 <= g < n
  {
  }

  /** As long as some group is not marked the round is not over. */
  lemma AllVisited(was: set<int>, mask: set<int>, r: seq<int>, t: nat, n: nat)
    requires t <= |r| && mask == was + Members(r[..t]) && mask <= Full(n) <= Members(r) && mask != Full(n)
    ensures t < |r|
  {
    if t == |r| {
      assert r[..t] == r;
    }
  }

  lemma NotAgain(groups: seq<Group>, head: int, order: seq<int>, init: int, t: nat, s: nat)
    requires Listed(groups, head, order) && s <= t < |order|
    ensures var r := Round(order, init); r[t] !in r[..s]
  {
    hide Round, Position;
    var i, n, r := Position(order, init), |order|, Round(order, init);
    RoundAt(order, init, t);
    forall u | 0 <= u < s
      ensures r[u] != r[t]
    {
      RoundAt(order, init, u);
      assert Turned(i, n, u) != Turned(i, n, t);
      TurnedApart(groups, head, order, Turned(i, n, u), Turned(i, n, t));
    }
  }

  lemma TurnedApart(groups: seq<Group>, head: int, order: seq<int>, i: int, j: int)
    requires Listed(groups, head, order) && 0 <= i < |order| && 0 <= j < |order| && i != j
    ensures order[i] != order[j]
  {
  }

  lemma RoundRange(groups: seq<Group>, head: int, order: seq<int>, init: int)
    requires Listed(groups, head, order) && (init == NONE || 0 <= init < |groups|)
    ensures forall u :: 0 <= u < |Round(order, init)| ==> 0 <= Round(order, init)[u] < |groups|
  {
    forall u | 0 <= u < |Round(order, init)|
      ensures 0 <= Round(order, init)[u] < |groups|
    {
      RoundSteps(groups, head, order, init, u);
    }
  }

  /** With every group marked, those not visited were marked from the start. */
  lemma NoneLeft(groups: seq<Group>, head: int, order: seq<int>, was: set<int>, detect: set<Cause>, init: int,
                 ok: int -> bool,
                 t: nat)
    requires Listed(groups, head, order) && t <= |order|
    requires forall u :: 0 <= u < |order| ==> 0 <= Round(order, init)[u] < |groups|
    requires was + Members(Round(order, init)[..t]) == Full(|groups|)
    requires forall u :: 0 <= u < t ==> !Eligible(groups, was, detect, init, ok, Round(order, init)[u])
    ensures forall u :: 0 <= u < |order| ==> !Eligible(groups, was, detect, init, ok, Round(order, init)[u])
  {
    hide Round, Full;
    var r := Round(order, init);
    FullRange(|groups|);
    forall u | t <= u < |order|
      ensures !Eligible(groups, was, detect, init, ok, r[u])
    {
      NotAgain(groups, head, order, init, u, t);
      assert r[u] in Full(|groups|);
    }
  }

  /** The first `t` groups of the round were passed over and marked, and `dp` is next. */
  ghost predicate Visiting(groups: seq<Group>, was: set<int>, mask: set<int>, detect: set<Cause>, init: int,
                           ok: int -> bool,
                           r: seq<int>, t: nat, dp: int)
  {
    && t <= |r| && (t < |r| ==> dp == r[t]) && mask == was + Members(r[..t]) && mask <= Full(|groups|)
    && (forall u :: 0 <= u < |r| ==> 0 <= r[u] < |groups|)
    && forall u :: 0 <= u < t ==> !Eligible(groups, was, detect, init, ok, r[u])
  }

  lemma VisitFirst(groups: seq<Group>, head: int, order: seq<int>, was: set<int>, detect: set<Cause>, init: int,
                   ok: int -> bool)
    requires Listed(groups, head, order) && |groups| > 0 && was <= Full(|groups|)
    requires (init == NONE || 0 <= init < |groups|)
    ensures Visiting(groups, was, was, detect, init, ok, Round(order, init), 0, if init == NONE then head else init)
  {
    hide Round, Full, Listed;
    RoundRange(groups, head, order, init);
    RoundCovers(groups, head, order, init);
    RoundSteps(groups, head, order, init, 0);
  }

  lemma MembersMore(was: set<int>, r: seq<int>, t: nat)
    requires t < |r|
    ensures was + Members(r[..t + 1]) == was + Members(r[..t]) + {r[t]}
  {
    assert r[..t + 1] == r[..t] + [r[t]];
  }

  lemma VisitedOn(groups: seq<Group>, was: set<int>, mask: set<int>, detect: set<Cause>, init: int,
                  ok: int -> bool, r: seq<int>, t: nat, dp: int, next: int)
    requires Visiting(groups, was, mask, detect, init, ok, r, t, dp) && t < |r| && dp in Full(|groups|)
    requires 0 <= dp < |groups| && !Eligible(groups, was, detect, init, ok, dp) && (t + 1 < |r| ==> next == r[t + 1])
    ensures Visiting(groups, was, mask + {dp}, detect, init, ok, r, t + 1, next)
  {
    hide Eligible, Full, Members;
    MembersMore(was, r, t);
  }

  /** A visit is either the answer or one group further. */
  lemma VisitNext(groups: seq<Group>, head: int, order: seq<int>, was: set<int>, mask: set<int>, detect: set<Cause>,
                  init: int,
                  ok: int -> bool, t: nat, dp: int)
    requires Listed(groups, head, order) && (init == NONE || 0 <= init < |groups|) && mask != Full(|groups|)
    requires Visiting(groups, was, mask, detect, init, ok, Round(order, init), t, dp)
    ensures t < |order| && 0 <= dp < |groups| && dp == Round(order, init)[t]
    ensures Eligible(groups, was, detect, init, ok, dp) <==> Eligible(groups, mask, detect, init, ok, dp)
    ensures !Eligible(groups, was, detect, init, ok, dp) ==>
      Visiting(groups, was, mask + {dp}, detect, init, ok, Round(order, init), t + 1,
               if groups[dp].next == NONE then head else groups[dp].next)
  {
    hide Round, Full, Listed;
    var r := Round(order, init);
    FullRange(|groups|);
    RoundCovers(groups, head, order, init);
    AllVisited(was, mask, r, t, |groups|);
    RoundSteps(groups, head, order, init, t);
    NotAgain(groups, head, order, init, t, t);
    if !Eligible(groups, was, detect, init, ok, dp) {
      var next := if groups[dp].next == NONE then head else groups[dp].next;
      VisitedOn(groups, was, mask, detect, init, ok, r, t, dp, next);
    }
  }

  lemma VisitDone(groups: seq<Group>, head: int, order: seq<int>, was: set<int>, mask: set<int>, detect: set<Cause>,
                  init: int,
                  ok: int -> bool, t: nat, dp: int)
    requires Listed(groups, head, order) && Visiting(groups, was, mask, detect, init, ok, Round(order, init), t, dp)
    ensures mask == Full(|groups|) ==> FirstEligible(groups, was, detect, init, ok, Round(order, init), NONE, |order|)
    ensures t < |order| && 0 <= dp && Eligible(groups, was, detect, init, ok, Round(order, init)[t]) ==>
      FirstEligible(groups, was, detect, init, ok, Round(order, init), dp, t)
  {
    hide Round, Full, Listed;
    if mask == Full(|groups|) {
      NoneLeft(groups, head, order, was, detect, init, ok, t);
    }
  }

  lemma StartPassed(groups: seq<Group>, head: int, order: seq<int>, init: int, t: nat)
    requires Listed(groups, head, order) && t < |order| && (init == NONE || 0 <= init < |groups|)
    ensures init != NONE && Round(order, init)[t] != init ==> init in Members(Round(order, init)[..t])
  {
    hide Round;
    RoundSteps(groups, head, order, init, 0);
    if t > 0 {
      assert Round(order, init)[..t][0] == Round(order, init)[0];
    }
  }

  /** find_dp: the first group of the round that is eligible. Groups passed over are marked as tried. */
  method FindDp(m: Groups, c: Client, ok: int -> bool) returns (dp: int, ghost t: nat)
    requires Ready(m, c)
    modifies c`dpMask
    ensures Ready(m, c)
    ensures FirstEligible(m.groups, old(c.dpMask), c.detect, c.dp, ok, Round(m.order, c.dp), dp, t)
    ensures dp != NONE ==> c.dpMask == old(c.dpMask) + Members(Round(m.order, c.dp)[..t]) && dp !in c.dpMask
    ensures dp != NONE ==> 0 <= dp < |m.groups| && (c.dp != NONE && dp != c.dp ==> c.dp in c.dpMask)
    ensures dp == NONE ==> c.dpMask == Full(|m.groups|)
    ensures dp != NONE ==>
      && dp !in old(c.dpMask) && ok(dp)
      && (dp == c.dp || m.groups[dp].detect == {} || c.detect * m.groups[dp].detect != {})
    ensures t <= |Round(m.order, c.dp)| && forall u :: 0 <= u < t ==>
      var g := Round(m.order, c.dp)[u];
      && 0 <= g < |m.groups|
      && (g in old(c.dpMask) || !ok(g)
          || (g != c.dp && m.groups[g].detect != {} && c.detect * m.groups[g].detect == {}))
    ensures dp == NONE ==> forall g :: 0 <= g < |m.groups| ==>
      (g in old(c.dpMask) || !ok(g)
       || (g != c.dp && m.groups[g].detect != {} && c.detect * m.groups[g].detect == {}))
    ensures var r := Round(m.order, c.dp);
      && |r| > 0 && r[0] == (if c.dp == NONE then m.head else c.dp)
      && forall u :: 0 <= u && u + 1 < |r| ==>
          0 <= r[u] < |m.groups| && r[u + 1] == if m.groups[r[u]].next == NONE then m.head else m.groups[r[u]].next
  {
    hide Round, Listed, Full, Visiting, Eligible;
    ghost var was, gs := c.dpMask, m.groups;
    RoundLinks(gs, m.head, m.order, c.dp);
    dp, t := c.dp, 0;
    if dp == NONE {
      dp := m.head;
    }
    VisitFirst(gs, m.head, m.order, was, c.detect, c.dp, ok);
    VisitingFacts(gs, was, c.dpMask, c.detect, c.dp, ok, Round(m.order, c.dp), t, dp);
    while c.dpMask != Full(|m.groups|)
      invariant Visiting(gs, was, c.dpMask, c.detect, c.dp, ok, Round(m.order, c.dp), t, dp) && t <= |m.order|
      decreases |m.order| - t
    {
      VisitNext(gs, m.head, m.order, was, c.dpMask, c.detect, c.dp, ok, t, dp);
      VisitingFacts(gs, was, c.dpMask, c.detect, c.dp, ok, Round(m.order, c.dp), t, dp);
      if dp !in c.dpMask && (dp == c.dp || m.groups[dp].detect == {} || c.detect * m.groups[dp].detect != {})
          && ok(dp) {
        VisitHere(gs, was, c.dpMask, c.detect, c.dp, ok, dp);
        VisitDone(gs, m.head, m.order, was, c.dpMask, c.detect, c.dp, ok, t, dp);
        StartPassed(gs, m.head, m.order, c.dp, t);
        FirstTells(gs, m.head, m.order, was, c.detect, c.dp, ok, dp, t);
        return;
      }
      VisitHere(gs, was, c.dpMask, c.detect, c.dp, ok, dp);
      c.dpMask := c.dpMask + {dp};
      t := t + 1;
      dp := m.groups[dp].next;
      if dp == NONE {
        dp := m.head;
      }
    }
    VisitDone(gs, m.head, m.order, was, c.dpMask, c.detect, c.dp, ok, t, dp);
    dp, t := NONE, |m.order|;
    FirstTells(gs, m.head, m.order, was, c.detect, c.dp, ok, dp, t);
  }

  /** Whether a group is eligible, by its fields. */
  lemma VisitHere(groups: seq<Group>, was: set<int>, mask: set<int>, detect: set<Cause>, init: int, ok: int -> bool,
                  g: int)
    requires 0 <= g < |groups|
    requires Eligible(groups, was, detect, init, ok, g) <==> Eligible(groups, mask, detect, init, ok, g)
    ensures Eligible(groups, was, detect, init, ok, g) <==>
      g !in mask && (g == init || groups[g].detect == {} || detect * groups[g].detect != {}) && ok(g)
  {
  }

  /** What the first eligible group, or that there is none, says of the fields of all groups. */
  lemma FirstTells(groups: seq<Group>, head: int, order: seq<int>, mask: set<int>, detect: set<Cause>, init: int,
                   ok: int -> bool, dp: int, t: nat)
    requires Listed(groups, head, order)
    requires FirstEligible(groups, mask, detect, init, ok, Round(order, init), dp, t)
    ensures dp != NONE ==>
      && 0 <= dp < |groups| && dp !in mask && ok(dp)
      && (dp == init || groups[dp].detect == {} || detect * groups[dp].detect != {})
    ensures t <= |Round(order, init)| && forall u :: 0 <= u < t ==>
      var g := Round(order, init)[u];
      && 0 <= g < |groups|
      && (g in mask || !ok(g) || (g != init && groups[g].detect != {} && detect * groups[g].detect == {}))
    ensures dp == NONE ==> forall g :: 0 <= g < |groups| ==>
      (g in mask || !ok(g) || (g != init && groups[g].detect != {} && detect * groups[g].detect == {}))
  {
    hide Round, Listed, Full;
    RoundCovers(groups, head, order, init);
    FullRange(|groups|);
    if dp == NONE {
      forall g | 0 <= g < |groups|
        ensures g in mask || !ok(g) || (g != init && groups[g].detect != {} && detect * groups[g].detect == {})
      {
        assert g in Members(Round(order, init));
        var u :| 0 <= u < t && Round(order, init)[u] == g;
      }
    }
  }

  /** The round starts with the group in use, or the first one, and follows the links. */
  lemma RoundLinks(groups: seq<Group>, head: int, order: seq<int>, init: int)
    requires Listed(groups, head, order) && |groups| > 0 && (init == NONE || 0 <= init < |groups|)
    ensures var r := Round(order, init);
      && |r| > 0 && r[0] == (if init == NONE then head else init)
      && forall u :: 0 <= u && u + 1 < |r| ==>
          0 <= r[u] < |groups| && r[u + 1] == if groups[r[u]].next == NONE then head else groups[r[u]].next
  {
    hide Round, Listed;
    var r := Round(order, init);
    RoundCovers(groups, head, order, init);
    RoundSteps(groups, head, order, init, 0);
    forall u | 0 <= u && u + 1 < |r|
      ensures 0 <= r[u] < |groups| && r[u + 1] == if groups[r[u]].next == NONE then head else groups[r[u]].next
    {
      RoundSteps(groups, head, order, init, u);
    }
  }

  lemma VisitingFacts(groups: seq<Group>, was: set<int>, mask: set<int>, detect: set<Cause>, init: int, ok: int -> bool,
                      r: seq<int>, t: nat, dp: int)
    requires Visiting(groups, was, mask, detect, init, ok, r, t, dp)
    ensures t <= |r| && mask == was + Members(r[..t]) && mask <= Full(|groups|)
  {
  }

  // ---------- What a failure triggers ----------

  /** A cache entry for an address. */
  datatype Entry = Entry(dpMask: set<int>, detect: set<Cause>, dp: int)

  /** The group is untried and meant for this failure. */
  ghost predicate Answers(groups: seq<Group>, tried: set<int>, cause: set<Cause>, canReconn: bool, g: int) {
    && 0 <= g < |groups| && g !in tried && (groups[g].detect == {} || groups[g].detect * cause != {})
    && (OnReconn in groups[g].level ==> canReconn)
  }

  /** All groups tried lie before position `q`, and the one there waits for no failure. */
  ghost predicate Stops(groups: seq<Group>, order: seq<int>, tried: set<int>, q: int) {
    0 <= q < |order| && 0 <= order[q] < |groups| && tried <= Members(order[..q]) && groups[order[q]].detect == {}
  }

  /** `next` at position `p` is the first group in the list that answers, unless the search stops before. */
  ghost predicate NextGroup(groups: seq<Group>, order: seq<int>, tried: set<int>, cause: set<Cause>, canReconn: bool,
                            next: int, p: nat)
  {
    && p <= |order|
    && (forall q :: 0 <= q < p ==>
        !Answers(groups, tried, cause, canReconn, order[q]) && !Stops(groups, order, tried, q))
    && (if next == NONE then p == |order| || Stops(groups, order, tried, p)
        else p < |order| && next == order[p] && Answers(groups, tried, cause, canReconn, next))
  }

  lemma ListStep(groups: seq<Group>, head: int, order: seq<int>, p: nat)
    requires Listed(groups, head, order) && p <= |order|
    ensures p < |order| ==>
      0 <= order[p] < |groups| && groups[order[p]].next == At(order, p + 1) && At(order, p) == order[p]
    ensures At(order, p) == NONE <==> p == |order|
    ensures p < |order| ==> order[p] !in order[..p] && order[..p + 1] == order[..p] + [order[p]]
  {
    if p < |order| {
      assert NodeAt(groups, order, p);
    }
  }

  /** The loop of on_trigger. Every group passed over is marked as tried. */
  method FindNext(m: Groups, c: Client, cause: set<Cause>, canReconn: bool)
    returns (next: int, unchecked: set<int>, ghost p: nat)
    requires Ready(m, c)
    modifies c`dpMask
    ensures Ready(m, c) && NextGroup(m.groups, m.order, old(c.dpMask), cause, canReconn, next, p)
    ensures c.dpMask == old(c.dpMask) + Members(m.order[..p]) && unchecked == old(c.dpMask) - Members(m.order[..p])
  {
    hide Listed, Full, Answers, Stops;
    ghost var was, gs, order := c.dpMask, m.groups, m.order;
    unchecked := c.dpMask;
    next, p := NONE, 0;
    var dp := m.head;
    HeadFirst(gs, m.head, order);
    FullRange(|gs|);
    while dp != NONE
      invariant p <= |order| && dp == At(order, p) && Ready(m, c) && next == NONE
      invariant c.dpMask == was + Members(order[..p]) && unchecked == was - Members(order[..p])
      invariant forall q :: 0 <= q < p ==> !Answers(gs, was, cause, canReconn, order[q]) && !Stops(gs, order, was, q)
      decreases |order| - p
    {
      ListStep(gs, m.head, order, p);
      StopsHere(gs, order, was, unchecked, p);
      AnswersHere(gs, was, cause, canReconn, order, p);
      if unchecked == {} && m.groups[dp].detect == {} {
        return;
      }
      if dp !in c.dpMask && (m.groups[dp].detect == {} || m.groups[dp].detect * cause != {})
        && (OnReconn !in m.groups[dp].level || canReconn) {
        next := dp;
        return;
      }
      unchecked := unchecked - {dp};
      c.dpMask := c.dpMask + {dp};
      dp := m.groups[dp].next;
      p := p + 1;
    }
    ListStep(gs, m.head, order, p);
  }

  lemma HeadFirst(groups: seq<Group>, head: int, order: seq<int>)
    requires Listed(groups, head, order)
    ensures head == At(order, 0)
  {
  }

  lemma StopsHere(groups: seq<Group>, order: seq<int>, was: set<int>, unchecked: set<int>, p: nat)
    requires p < |order| && 0 <= order[p] < |groups| && unchecked == was - Members(order[..p])
    ensures Stops(groups, order, was, p) <==> unchecked == {} && groups[order[p]].detect == {}
  {
    if unchecked == {} {
      forall g | g in was
        ensures g in Members(order[..p])
      {
        assert g !in unchecked;
      }
    }
  }

  lemma AnswersHere(groups: seq<Group>, was: set<int>, cause: set<Cause>, canReconn: bool, order: seq<int>, p: nat)
    requires p < |order| && 0 <= order[p] < |groups| && order[p] !in order[..p]
    ensures var g := order[p];
      Answers(groups, was, cause, canReconn, g) <==>
      (g !in was + Members(order[..p]) && (groups[g].detect == {} || groups[g].detect * cause != {})
       && (OnReconn !in groups[g].level || canReconn))
  {
  }

  /** on_trigger changes places of the group that failed and the next one: the failure is new to
      the cache entry, the next group is to be sorted and better, and stands behind in the list. */
  ghost predicate Swaps(groups: seq<Group>, order: seq<int>, dp: int, next: int, p: nat, cached: set<int>) {
    && dp !in cached && next != NONE && 0 <= dp < |groups| && 0 <= next < |groups|
    && Sort in groups[next].level && groups[dp].pri > groups[next].pri
    && p <= |order| && dp in order[..p]
  }

  /** What a trigger does to the groups: `mid` are the groups once swapped, if they are. */
  ghost predicate Sorted(groups: seq<Group>, order: seq<int>, mid: seq<Group>, order2: seq<int>, dp: int, next: int,
                         p: nat, cached: set<int>)
  {
    if Swaps(groups, order, dp, next, p, cached) then
      && Position(order, dp) < p < |order| && order2 == Exchanged(order, Position(order, dp), p)
      && Swopped(groups, mid, dp, next) && LowerBy(groups, mid, order, order2) && order2 != order
    else order2 == order && mid == groups
  }

  /** on_trigger: marks the group that failed and finds the next one; a better group
      may change places with it. Tells whether the connection is made again. */
  method OnTrigger(m: Groups, c: Client, cause: set<Cause>, canReconn: bool, cache: Entry)
    returns (again: bool, entry: Entry, ghost next: int, ghost p: nat, ghost mid: seq<Group>)
    requires Ready(m, c) && c.dp != NONE
    modifies c`dpMask, c`detect, m
    ensures Ready(m, c) && c.dp == old(c.dp) && c.detect == cause && |m.groups| == |old(m.groups)|
    ensures NextGroup(old(m.groups), old(m.order), old(c.dpMask) + {c.dp}, cause, canReconn, next, p)
    ensures c.dpMask == old(c.dpMask) + {c.dp} + Members(old(m.order)[..p])
    ensures entry == if next == NONE then Entry({}, {}, m.head) else Entry(cache.dpMask + c.dpMask, cause, next)
    ensures again <==> next != NONE && 0 <= next < |m.groups| && NoReconn !in m.groups[next].level && canReconn
    ensures Sorted(old(m.groups), old(m.order), mid, m.order, c.dp, next, p, cache.dpMask)
    ensures m.order != old(m.order) <==>
      && c.dp !in cache.dpMask && next != NONE && 0 <= next < |old(m.groups)| && Sort in old(m.groups)[next].level
      && old(m.groups)[c.dp].pri > old(m.groups)[next].pri && p <= |old(m.order)| && c.dp in old(m.order)[..p]
    ensures next != NONE ==>
      && 0 <= next < |old(m.groups)| && next !in old(c.dpMask) && next != c.dp
      && (old(m.groups)[next].detect == {} || old(m.groups)[next].detect * cause != {})
      && (OnReconn in old(m.groups)[next].level ==> canReconn)
    ensures p <= |old(m.order)| && forall q :: 0 <= q < p ==>
      var g := old(m.order)[q];
      && 0 <= g < |old(m.groups)|
      && (g in old(c.dpMask) || g == c.dp
          || (old(m.groups)[g].detect != {} && old(m.groups)[g].detect * cause == {})
          || (OnReconn in old(m.groups)[g].level && !canReconn))
      && !(old(m.groups)[g].detect == {} && old(c.dpMask) + {c.dp} <= Members(old(m.order)[..q]))
    ensures next == NONE && p < |old(m.order)| ==>
      && 0 <= old(m.order)[p] < |old(m.groups)| && old(m.groups)[old(m.order)[p]].detect == {}
      && old(c.dpMask) + {c.dp} <= Members(old(m.order)[..p])
    ensures Ranked(mid, m.groups, c.dp, if c.dp in cache.dpMask then 0 else 1)
  {
    hide Listed, Full, NextGroup, Swopped, LowerBy, Ranked, Answers, Stops, Position;
    ghost var gs, order, first := m.groups, m.order, m.head;
    FullRange(|gs|);
    c.dpMask := c.dpMask + {c.dp};
    c.detect := cause;
    ghost var tried := c.dpMask;
    var found, unchecked;
    found, unchecked, p := FindNext(m, c, cause, canReconn);
    next := found;
    mid := m.groups;
    NextFacts(gs, order, tried, cause, canReconn, next, p);
    NextTells(gs, m.head, order, tried, cause, canReconn, next, p);
    RankedSame(mid, c.dp);
    if c.dp !in cache.dpMask {
      if found != NONE && Sort in m.groups[found].level && m.groups[c.dp].pri > m.groups[found].pri
          && c.dp !in unchecked {
        ghost var i := Position(order, c.dp);
        PositionIn(order, c.dp, p);
        ListStep(gs, m.head, order, i);
        ListStep(gs, m.head, order, p);
        m.Swop(c.dp, found, i, p);
        mid := m.groups;
        Lowered(gs, mid, first, order, i, p);
      }
      Raised(m.groups, m.head, m.order, c.dp);
      m.groups := m.groups[c.dp := m.groups[c.dp].(pri := m.groups[c.dp].pri + 1)];
    }
    if found == NONE {
      entry := Entry({}, {}, m.head);
      again := false;
      return;
    }
    entry := Entry(cache.dpMask + c.dpMask, cause, found);
    again := NoReconn !in m.groups[found].level && canReconn;
  }

  lemma {:induction false} PositionIn(s: seq<int>, x: int, p: nat)
    requires p <= |s| && x in s[..p]
    ensures Position(s, x) < p
  {
    if s[0] != x {
      assert s[..p] == [s[0]] + s[1..][..p - 1];
      PositionIn(s[1..], x, p - 1);
    }
  }

  /** `order2` has `order` with two groups exchanged, and fewer pairs in the wrong order. */
  ghost predicate LowerBy(groups: seq<Group>, mid: seq<Group>, order: seq<int>, order2: seq<int>) {
    && (forall k :: 0 <= k < |order| ==> 0 <= order[k] < |groups|)
    && (forall k :: 0 <= k < |order2| ==> 0 <= order2[k] < |mid|)
    && Inversions(Priorities(mid, order2)) < Inversions(Priorities(groups, order))
  }

  /** The groups but for the priority of one, higher by `d`. */
  ghost predicate Ranked(groups: seq<Group>, next: seq<Group>, g: int, d: int) {
    0 <= g < |groups| && next == groups[g := groups[g].(pri := groups[g].pri + d)]
  }

  lemma NextFacts(groups: seq<Group>, order: seq<int>, tried: set<int>, cause: set<Cause>, canReconn: bool, next: int,
                  p: nat)
    requires NextGroup(groups, order, tried, cause, canReconn, next, p)
    ensures p <= |order| && (next != NONE ==> p < |order| && next == order[p] && 0 <= next < |groups| && next !in tried)
  {
  }

  /** What the next group says of the fields of those before it and of its own. */
  lemma NextTells(groups: seq<Group>, head: int, order: seq<int>, tried: set<int>, cause: set<Cause>, canReconn: bool,
                  next: int, p: nat)
    requires Listed(groups, head, order) && NextGroup(groups, order, tried, cause, canReconn, next, p)
    ensures next != NONE ==>
      && 0 <= next < |groups| && next !in tried && (groups[next].detect == {} || groups[next].detect * cause != {})
      && (OnReconn in groups[next].level ==> canReconn)
    ensures p <= |order| && forall q :: 0 <= q < p ==>
      var g := order[q];
      && 0 <= g < |groups|
      && (g in tried || (groups[g].detect != {} && groups[g].detect * cause == {})
          || (OnReconn in groups[g].level && !canReconn))
      && !(groups[g].detect == {} && tried <= Members(order[..q]))
    ensures next == NONE && p < |order| ==>
      0 <= order[p] < |groups| && groups[order[p]].detect == {} && tried <= Members(order[..p])
  {
    hide Members;
    forall q | 0 <= q < p
      ensures 0 <= order[q] < |groups|
    {
      assert NodeAt(groups, order, q);
    }
  }

  lemma RankedSame(groups: seq<Group>, g: int)
    requires 0 <= g < |groups|
    ensures Ranked(groups, groups, g, 0)
  {
    assert groups[g].(pri := groups[g].pri + 0) == groups[g];
  }

  lemma Lowered(groups: seq<Group>, mid: seq<Group>, head: int, order: seq<int>, i: nat, p: nat)
    requires Listed(groups, head, order) && i < p < |order| && Swopped(groups, mid, order[i], order[p])
    requires 0 <= order[i] < |groups| && 0 <= order[p] < |groups| && groups[order[i]].pri > groups[order[p]].pri
    ensures LowerBy(groups, mid, order, Exchanged(order, i, p)) && Exchanged(order, i, p) != order
    ensures |mid| == |groups|
  {
    forall k | 0 <= k < |order|
      ensures 0 <= order[k] < |groups|
    {
      assert NodeAt(groups, order, k);
    }
    SwopLowers(groups, mid, order, i, p);
    assert Exchanged(order, i, p)[i] == order[p];
  }

  /** The priority of a group has no bearing on the list. */
  lemma Raised(groups: seq<Group>, head: int, order: seq<int>, g: int)
    requires Listed(groups, head, order) && 0 <= g < |groups|
    ensures Listed(groups[g := groups[g].(pri := groups[g].pri + 1)], head, order)
    ensures Ranked(groups, groups[g := groups[g].(pri := groups[g].pri + 1)], g, 1)
  {
    var next := groups[g := groups[g].(pri := groups[g].pri + 1)];
    forall k | 0 <= k < |order|
      ensures NodeAt(next, order, k)
    {
      assert NodeAt(groups, order, k);
    }
    forall x | 0 <= x < |next|
      ensures x in order
    {
    }
  }

  // ---------- A whole connection ----------

  /** A failure, what the groups fit when connecting again, and whether data came and what they fit then. */
  datatype Failure = Failure(cause: set<Cause>, canReconn: bool, cache: Entry, fits: int -> bool, data: bool,
                             fitsData: int -> bool)

  /** The groups and what a connection remembers, at one moment. */
  datatype View = View(groups: seq<Group>, head: int, order: seq<int>, dp: int, mask: set<int>, detect: set<Cause>)

  ghost function Look(m: Groups, c: Client): View
    reads m, c
  {
    View(m.groups, m.head, m.order, c.dp, c.dpMask, c.detect)
  }

  ghost predicate Fit(v: View) {
    && Listed(v.groups, v.head, v.order) && 0 < |v.groups| <= MAX_GROUPS && v.mask <= Full(|v.groups|)
    && (v.dp == NONE || 0 <= v.dp < |v.groups|)
  }

  /** One run of on_trigger: it goes over `p` groups of the list and finds `next`. */
  ghost predicate Triggers(v: View, f: Failure, next: int, p: nat, mid: seq<Group>, w: View, again: bool) {
    && Fit(v) && Fit(w) && v.dp != NONE && |w.groups| == |v.groups| && w.dp == v.dp && w.detect == f.cause
    && NextGroup(v.groups, v.order, v.mask + {v.dp}, f.cause, f.canReconn, next, p)
    && p <= |v.order| && w.mask == v.mask + {v.dp} + Members(v.order[..p])
    && Sorted(v.groups, v.order, mid, w.order, v.dp, next, p, f.cache.dpMask)
    && Ranked(mid, w.groups, v.dp, if v.dp in f.cache.dpMask then 0 else 1)
    && (again <==> next != NONE && 0 <= next < |w.groups| && NoReconn !in w.groups[next].level && f.canReconn)
  }

  /** One run of find_dp, which goes over `t` groups and then takes `dp`. */
  ghost predicate Takes(v: View, ok: int -> bool, dp: int, t: nat, w: View) {
    && Fit(v) && FirstEligible(v.groups, v.mask, v.detect, v.dp, ok, Round(v.order, v.dp), dp, t)
    && (dp == NONE ==> w == v.(mask := Full(|v.groups|)))
    && (dp != NONE ==> (
          && 0 <= dp < |v.groups| && t <= |v.order|
          && w == v.(dp := dp, mask := v.mask + Members(Round(v.order, v.dp)[..t]))))
  }

  /** What happens at one failure: the trigger, the new connection and, if data comes, the
      group for the data, each with the state it leaves. */
  datatype Retry = Retry(before: View, next: int, p: nat, mid: seq<Group>, again: bool, hit: View,
                         pick: int, t: nat, made: View, dp: int, u: nat, after: View)

  /** The connection ends with this failure: it is not made again, or no group is left. */
  ghost predicate Stopped(r: Retry, f: Failure) {
    r.pick == NONE || (f.data && r.dp == NONE)
  }

  ghost predicate RetryOf(r: Retry, f: Failure) {
    && Triggers(r.before, f, r.next, r.p, r.mid, r.hit, r.again)
    && (if r.again then Takes(r.hit, f.fits, r.pick, r.t, r.made) else r.pick == NONE && r.made == r.hit)
    && (if r.pick != NONE && f.data then Takes(r.made, f.fitsData, r.dp, r.u, r.after) else r.after == r.made)
  }

  /** Each retry starts where the last one ended. */
  ghost predicate Chained(v: View, retries: seq<Retry>, w: View) {
    if retries == [] then v == w
    else
      && retries[0].before == v && retries[|retries| - 1].after == w
      && forall k :: 0 <= k && k + 1 < |retries| ==> retries[k].after == retries[k + 1].before
  }

  /** One retry per failure; none before the last one ends the connection. */
  ghost predicate Going(v: View, failures: seq<Failure>, retries: seq<Retry>, w: View) {
    && |retries| <= |failures| && Chained(v, retries, w)
    && (forall k :: 0 <= k < |retries| ==> RetryOf(retries[k], failures[k]))
    && forall k :: 0 <= k < |retries| - 1 ==> !Stopped(retries[k], failures[k])
  }

  /** A whole connection: it goes on until all failures are through or one of them ends it. */
  ghost predicate Runs(v: View, failures: seq<Failure>, retries: seq<Retry>, w: View) {
    && Going(v, failures, retries, w)
    && (|retries| == |failures| || (retries != [] && Stopped(retries[|retries| - 1], failures[|retries| - 1])))
  }

  /** The groups that failed. */
  function Failed(retries: seq<Retry>): (s: seq<int>)
    ensures |s| == |retries| && forall k :: 0 <= k < |s| ==> s[k] == retries[k].before.dp
  {
    seq(|retries|, k requires 0 <= k < |retries| => retries[k].before.dp)
  }

  /** The groups taken for new connections. */
  function Picks(retries: seq<Retry>): seq<int> {
    if retries == [] then []
    else
      var last := retries[|retries| - 1];
      Picks(retries[..|retries| - 1]) + if last.pick == NONE then [] else [last.pick]
  }

  /** Connects again after each failure as long as there is a group to try. (Data that
      arrives may move a connection on to another group before it fails.) */
  method Connection(m: Groups, c: Client, failures: seq<Failure>) returns (ghost retries: seq<Retry>)
    requires Ready(m, c) && c.dp != NONE
    modifies c, m
    ensures Ready(m, c) && Runs(old(Look(m, c)), failures, retries, Look(m, c))
  {
    hide Listed, Full, RetryOf;
    retries := [];
    ghost var v := Look(m, c);
    for i := 0 to |failures|
      invariant Ready(m, c) && c.dp != NONE && |retries| == i && Going(v, failures, retries, Look(m, c))
      invariant i > 0 ==> !Stopped(retries[i - 1], failures[i - 1])
    {
      ghost var w := Look(m, c);
      ghost var r;
      var stop;
      r, stop := Again(m, c, failures[i]);
      GoingOn(v, failures, retries, w, r);
      retries := retries + [r];
      if stop {
        return;
      }
    }
  }

  lemma GoingOn(v: View, failures: seq<Failure>, retries: seq<Retry>, w: View, r: Retry)
    requires Going(v, failures, retries, w) && |retries| < |failures| && r.before == w
    requires RetryOf(r, failures[|retries|])
    requires retries != [] ==> !Stopped(retries[|retries| - 1], failures[|retries| - 1])
    ensures Going(v, failures, retries + [r], r.after)
  {
    hide RetryOf, Stopped;
  }

  /** Marks the group that failed and picks another one, which data may then move on from. */
  method Again(m: Groups, c: Client, f: Failure) returns (ghost r: Retry, stop: bool)
    requires Ready(m, c) && c.dp != NONE
    modifies c, m
    ensures Ready(m, c) && (!stop ==> c.dp != NONE)
    ensures RetryOf(r, f) && r.before == old(Look(m, c)) && r.after == Look(m, c) && (stop <==> Stopped(r, f))
  {
    hide Triggers, Takes, Listed, Full;
    ghost var v := Look(m, c);
    stop := true;
    var again;
    ghost var next, p, mid;
    again, next, p, mid := Trigger(m, c, f);
    r := Retry(v, next, p, mid, again, Look(m, c), NONE, 0, Look(m, c), NONE, 0, Look(m, c));
    if !again {
      return;
    }
    ghost var t;
    var pick;
    pick, t := Take(m, c, f.fits);
    r := r.(pick := pick, t := t, made := Look(m, c), after := Look(m, c));
    if pick == NONE {
      return;
    }
    if f.data {
      var dp;
      ghost var u;
      dp, u := Take(m, c, f.fitsData);
      r := r.(dp := dp, u := u, after := Look(m, c));
      if dp == NONE {
        return;
      }
    }
    stop := false;
  }

  /** on_trigger at a failure. */
  method Trigger(m: Groups, c: Client, f: Failure)
    returns (again: bool, ghost next: int, ghost p: nat, ghost mid: seq<Group>)
    requires Ready(m, c) && c.dp != NONE
    modifies c`dpMask, c`detect, m
    ensures Ready(m, c) && c.dp == old(c.dp)
    ensures Triggers(old(Look(m, c)), f, next, p, mid, Look(m, c), again)
  {
    hide Listed, Full, NextGroup, Ranked, Sorted, Members;
    var entry;
    again, entry, next, p, mid := OnTrigger(m, c, f.cause, f.canReconn, f.cache);
  }

  /** find_dp, and the group taken. */
  method Take(m: Groups, c: Client, ok: int -> bool) returns (dp: int, ghost t: nat)
    requires Ready(m, c)
    modifies c`dpMask, c`dp
    ensures Ready(m, c) && (dp != NONE ==> c.dp == dp)
    ensures Takes(old(Look(m, c)), ok, dp, t, Look(m, c))
  {
    hide Listed, Full, FirstEligible, Round, Members;
    ghost var v := Look(m, c);
    dp, t := FindDp(m, c, ok);
    TakenPlace(v, ok, dp, t);
    if dp != NONE {
      c.dp := dp;
    }
  }

  lemma TakenPlace(v: View, ok: int -> bool, dp: int, t: nat)
    requires FirstEligible(v.groups, v.mask, v.detect, v.dp, ok, Round(v.order, v.dp), dp, t)
    ensures t <= |v.order|
  {
  }

  // ---------- No group twice ----------

  lemma TriggerMarks(v: View, f: Failure, next: int, p: nat, mid: seq<Group>, w: View, again: bool)
    requires Triggers(v, f, next, p, mid, w, again)
    ensures v.mask + {v.dp} <= w.mask && w.dp == v.dp && |w.groups| == |v.groups|
  {
    hide Fit, NextGroup, Sorted, Ranked, Members;
  }

  /** The group taken was not tried; the one the search started with is it, or is marked. */
  lemma TakenIsNew(v: View, ok: int -> bool, dp: int, t: nat, w: View)
    requires Takes(v, ok, dp, t, w)
    ensures v.mask <= w.mask && w.groups == v.groups
    ensures dp != NONE ==> w.dp == dp && 0 <= dp < |v.groups| && dp !in v.mask && dp !in w.mask
    ensures dp != NONE && v.dp != NONE && dp != v.dp ==> v.dp in w.mask
  {
    hide Round, Listed, Full;
    if dp != NONE {
      NotAgain(v.groups, v.head, v.order, v.dp, t, t);
      StartPassed(v.groups, v.head, v.order, v.dp, t);
    }
  }

  /** What a retry comes to: the group that failed is marked, the pick is new, and so is the
      group in use unless the connection ends. */
  lemma RetryMarks(r: Retry, f: Failure)
    requires RetryOf(r, f)
    ensures |r.after.groups| == |r.before.groups| && 0 <= r.before.dp < |r.before.groups|
    ensures r.before.mask + {r.before.dp} <= r.after.mask
    ensures r.pick != NONE ==> 0 <= r.pick < |r.before.groups| && r.pick !in r.before.mask + {r.before.dp}
    ensures !Stopped(r, f) ==>
      && r.after.dp !in r.after.mask && (!f.data ==> r.after.dp == r.pick)
      && (r.pick == r.after.dp || r.pick in r.after.mask)
  {
    hide Triggers, Takes, Fit;
    TriggerMarks(r.before, f, r.next, r.p, r.mid, r.hit, r.again);
    TriggerStarts(r.before, f, r.next, r.p, r.mid, r.hit, r.again);
    if r.again {
      TakenIsNew(r.hit, f.fits, r.pick, r.t, r.made);
      if r.pick != NONE && f.data {
        TakenIsNew(r.made, f.fitsData, r.dp, r.u, r.after);
      }
    }
  }

  /** The group picked fits the new connection, which can be made; the one data moves it to
      fits the data. */
  lemma RetryTells(r: Retry, f: Failure)
    requires RetryOf(r, f)
    ensures r.pick != NONE ==> f.canReconn && f.fits(r.pick) && r.made.dp == r.pick
    ensures r.pick != NONE && !f.data ==> r.after == r.made
    ensures r.pick != NONE && f.data && r.dp != NONE ==> f.fitsData(r.dp) && r.after.dp == r.dp
    ensures r.again <==>
      r.next != NONE && 0 <= r.next < |r.hit.groups| && NoReconn !in r.hit.groups[r.next].level && f.canReconn
    ensures r.again && r.pick == NONE ==> forall g :: 0 <= g < |r.hit.groups| ==>
        (g in r.hit.mask || !f.fits(g)
         || (g != r.hit.dp && r.hit.groups[g].detect != {} && r.hit.detect * r.hit.groups[g].detect == {}))
  {
    hide Triggers, Takes;
    TriggerGoes(r.before, f, r.next, r.p, r.mid, r.hit, r.again);
    if r.again {
      TakeTells(r.hit, f.fits, r.pick, r.t, r.made);
      if r.pick != NONE && f.data {
        TakeTells(r.made, f.fitsData, r.dp, r.u, r.after);
      }
    }
  }

  lemma TriggerGoes(v: View, f: Failure, next: int, p: nat, mid: seq<Group>, w: View, again: bool)
    requires Triggers(v, f, next, p, mid, w, again)
    ensures again <==> next != NONE && 0 <= next < |w.groups| && NoReconn !in w.groups[next].level && f.canReconn
  {
  }

  lemma TakeTells(v: View, ok: int -> bool, dp: int, t: nat, w: View)
    requires Takes(v, ok, dp, t, w)
    ensures dp != NONE ==> ok(dp) && w.dp == dp
    ensures dp == NONE ==> forall g :: 0 <= g < |v.groups| ==>
      (g in v.mask || !ok(g) || (g != v.dp && v.groups[g].detect != {} && v.detect * v.groups[g].detect == {}))
  {
    FirstTells(v.groups, v.head, v.order, v.mask, v.detect, v.dp, ok, dp, t);
  }

  lemma TriggerStarts(v: View, f: Failure, next: int, p: nat, mid: seq<Group>, w: View, again: bool)
    requires Triggers(v, f, next, p, mid, w, again)
    ensures 0 <= v.dp < |v.groups|
  {
  }

  /** Over a whole connection: no group fails twice, no two connections start with the same
      group, and none starts with a group that failed before or was tried before. One group
      fails per retry, the first is the one in use, and where no data comes it is the one
      picked last; so there are at most as many retries as groups. */
  lemma NeverTwice(v: View, failures: seq<Failure>, retries: seq<Retry>, w: View)
    requires Runs(v, failures, retries, w)
    ensures var picks, failed := Picks(retries), Failed(retries);
      && Differ(picks) && Differ(failed) && |picks| <= |failed| <= |picks| + 1 && |failed| <= |v.groups|
      && v.mask <= w.mask && Members(failed) <= w.mask && (failed != [] ==> failed[0] == v.dp)
      && (forall k, j :: 0 <= j <= k < |picks| ==> picks[k] != failed[j])
      && (forall k :: 0 <= k < |picks| ==> picks[k] == retries[k].pick && picks[k] !in v.mask && picks[k] != v.dp)
      && (forall k :: 0 <= k < |picks| && k + 1 < |failed| && !failures[k].data ==> failed[k + 1] == picks[k])
      && (0 < |retries| == |picks| && !failures[|picks| - 1].data ==> w.dp == picks[|picks| - 1])
  {
    hide RetryOf, Differ, Later, Members, Full, Failed, Picks;
    var n, k := |v.groups|, |retries| - 1;
    if retries == [] || !Stopped(retries[k], failures[k]) {
      TrailOf(v, failures, retries, w);
      TrailOutcome(Picks(retries), Failed(retries), v.mask, v.dp, w.mask, w.dp, n);
    } else {
      var r, front := retries[k], retries[..k];
      FrontGoes(v, failures, retries, w);
      TrailOf(v, failures, front, r.before);
      RetryMarks(r, failures[k]);
      TrailStop(Picks(front), Failed(front), v.mask, v.dp, r.before.mask, r.before.dp, n, r.pick, w.mask);
      OneMore(retries);
      FailedIn(Failed(front), r.before.dp, n);
    }
    Told(Picks(retries), Failed(retries), v.mask, v.dp, n, w.mask);
    PicksBounded(Failed(retries), n);
    Follows(v, failures, retries, w);
  }

  lemma OneMore(retries: seq<Retry>)
    requires retries != []
    ensures var r, front := retries[|retries| - 1], retries[..|retries| - 1];
      && Picks(retries) == (if r.pick == NONE then Picks(front) else Picks(front) + [r.pick])
      && Failed(retries) == Failed(front) + [r.before.dp]
  {
  }

  lemma FailedIn(failed: seq<int>, dp: int, n: nat)
    requires Members(failed) <= Full(n) && 0 <= dp < n
    ensures Members(failed + [dp]) <= Full(n)
  {
  }

  lemma FrontGoes(v: View, failures: seq<Failure>, retries: seq<Retry>, w: View)
    requires Going(v, failures, retries, w) && retries != []
    ensures var k := |retries| - 1;
      && k < |failures| && Going(v, failures, retries[..k], retries[k].before) && RetryOf(retries[k], failures[k])
      && (k > 0 ==> !Stopped(retries[k - 1], failures[k - 1])) && retries[k].after == w
  {
    hide RetryOf, Stopped;
  }

  /** As long as nothing ends it there is a pick for every failure. */
  lemma {:induction false} TrailOf(v: View, failures: seq<Failure>, retries: seq<Retry>, w: View)
    requires Going(v, failures, retries, w)
    requires retries != [] ==> !Stopped(retries[|retries| - 1], failures[|retries| - 1])
    ensures Trail(Picks(retries), Failed(retries), v.mask, v.dp, w.mask, w.dp, |v.groups|)
    ensures |Picks(retries)| == |retries| && |w.groups| == |v.groups| && Members(Failed(retries)) <= Full(|v.groups|)
    ensures forall k :: 0 <= k < |retries| ==> Picks(retries)[k] == retries[k].pick
    decreases |retries|
  {
    hide RetryOf, Differ, Later, Trail, Going, Full, Failed, Picks;
    if retries == [] {
      NothingTried(v, failures, w);
    } else {
      var k := |retries| - 1;
      var r, front := retries[k], retries[..k];
      FrontGoes(v, failures, retries, w);
      TrailOf(v, failures, front, r.before);
      RetryMarks(r, failures[k]);
      TrailStep(Picks(front), Failed(front), v.mask, v.dp, r.before.mask, r.before.dp, |v.groups|, r.pick, w.mask,
                w.dp);
      OneMore(retries);
      FailedIn(Failed(front), r.before.dp, |v.groups|);
    }
  }

  lemma NothingTried(v: View, failures: seq<Failure>, w: View)
    requires Going(v, failures, [], w)
    ensures w == v && Picks([]) == Failed([]) == [] && Trail([], [], v.mask, v.dp, w.mask, w.dp, |v.groups|)
  {
  }

  /** Where no data comes, the group picked is the one that fails next. */
  lemma Follows(v: View, failures: seq<Failure>, retries: seq<Retry>, w: View)
    requires Going(v, failures, retries, w)
    ensures forall k :: 0 <= k && k + 1 < |retries| && !failures[k].data ==> retries[k + 1].before.dp == retries[k].pick
    ensures retries != [] && retries[|retries| - 1].pick != NONE && !failures[|retries| - 1].data ==>
      w.dp == retries[|retries| - 1].pick
    ensures forall k :: 0 <= k < |retries| - 1 ==> retries[k].pick != NONE
  {
    hide RetryOf;
    forall k | 0 <= k < |retries| && !failures[k].data && retries[k].pick != NONE
      ensures retries[k].after.dp == retries[k].pick
    {
      RetryMarks(retries[k], failures[k]);
    }
  }

  /** The picks and failures so far, one each per round, against the mask and the group in use. */
  ghost predicate Trail(picks: seq<int>, failed: seq<int>, mask0: set<int>, start: int, mask: set<int>, dp: int,
                        n: nat) {
    && Differ(picks) && Differ(failed) && Later(picks, failed) && mask0 <= mask
    && Members(picks) <= mask + {dp} && Members(picks) !! mask0 + {start} && Members(picks) <= Full(n)
    && Members(failed) <= mask && dp !in failed
    && (failed != [] ==> failed[0] == start && start in mask) && (failed == [] ==> dp == start)
  }

  /** Each pick differs from all that failed before it. */
  ghost predicate Later(picks: seq<int>, failed: seq<int>) {
    forall k, j :: 0 <= j <= k < |picks| && j < |failed| ==> picks[k] != failed[j]
  }

  /** What a trail comes to. */
  ghost predicate Outcome(picks: seq<int>, failed: seq<int>, mask0: set<int>, start: int, mask: set<int>, n: nat) {
    && Differ(picks) && Differ(failed) && Later(picks, failed) && |picks| <= |failed| <= |picks| + 1 && mask0 <= mask
    && Members(picks) !! mask0 + {start} && Members(picks) <= Full(n)
    && Members(failed) <= mask && (failed != [] ==> failed[0] == start)
  }

  lemma TrailStep(picks: seq<int>, failed: seq<int>, mask0: set<int>, start: int, mask: set<int>, dp: int, n: nat,
                  pick: int, mask': set<int>, dp': int)
    requires Trail(picks, failed, mask0, start, mask, dp, n) && |picks| == |failed| && mask + {dp} <= mask'
    requires pick !in mask + {dp} && 0 <= pick < n && dp' !in mask' && (pick == dp' || pick in mask')
    ensures Trail(picks + [pick], failed + [dp], mask0, start, mask', dp', n)
  {
    hide Later, Differ;
    FullRange(n);
    PickMore(failed, dp);
    LaterFailed(picks, failed, dp);
    MoreMembers(failed, dp);
    LaterPick(picks, failed + [dp], pick, mask + {dp});
    PickMore(picks, pick);
  }

  lemma TrailStop(picks: seq<int>, failed: seq<int>, mask0: set<int>, start: int, mask: set<int>, dp: int, n: nat,
                  pick: int, mask': set<int>)
    requires Trail(picks, failed, mask0, start, mask, dp, n) && |picks| == |failed| && mask + {dp} <= mask'
    requires pick != NONE ==> pick !in mask + {dp} && 0 <= pick < n
    ensures Outcome(if pick == NONE then picks else picks + [pick], failed + [dp], mask0, start, mask', n)
  {
    hide Later, Differ;
    FullRange(n);
    PickMore(failed, dp);
    LaterFailed(picks, failed, dp);
    MoreMembers(failed, dp);
    if pick != NONE {
      LaterPick(picks, failed + [dp], pick, mask + {dp});
      PickMore(picks, pick);
    }
  }

  lemma TrailOutcome(picks: seq<int>, failed: seq<int>, mask0: set<int>, start: int, mask: set<int>, dp: int, n: nat)
    requires Trail(picks, failed, mask0, start, mask, dp, n) && |picks| == |failed|
    ensures Outcome(picks, failed, mask0, start, mask, n)
  {
  }

  /** The outcome in terms of the single groups. */
  lemma Told(picks: seq<int>, failed: seq<int>, mask0: set<int>, start: int, n: nat, mask: set<int>)
    requires Outcome(picks, failed, mask0, start, mask, n)
    ensures mask0 <= mask && Members(failed) <= mask && Differ(picks) && |picks| <= n
    ensures Differ(failed) && |picks| <= |failed| <= |picks| + 1 && (failed != [] ==> failed[0] == start)
    ensures forall k, j :: 0 <= j <= k < |picks| ==> picks[k] != failed[j]
    ensures forall k :: 0 <= k < |picks| ==> picks[k] !in mask0 && picks[k] != start
  {
    hide Differ;
    PicksBounded(picks, n);
    forall k | 0 <= k < |picks|
      ensures picks[k] !in mask0 && picks[k] != start
    {
      assert picks[k] in Members(picks);
    }
  }

  lemma MoreMembers(s: seq<int>, x: int)
    ensures Members(s + [x]) == Members(s) + {x}
  {
  }

  lemma LaterFailed(picks: seq<int>, failed: seq<int>, g: int)
    requires Later(picks, failed) && |picks| == |failed|
    ensures Later(picks, failed + [g])
  {
  }

  lemma LaterPick(picks: seq<int>, failed: seq<int>, dp: int, mask: set<int>)
    requires Later(picks, failed) && Members(failed) <= mask && dp !in mask && |failed| == |picks| + 1
    ensures Later(picks + [dp], failed) && dp !in failed
  {
    assert forall j :: 0 <= j < |failed| ==> failed[j] in Members(failed);
  }

  ghost predicate Differ(s: seq<int>) {
    forall i, j :: 0 <= i < j < |s| ==> s[i] != s[j]
  }

  lemma PickMore(picks: seq<int>, dp: int)
    requires Differ(picks) && dp !in picks
    ensures Differ(picks + [dp]) && Members(picks + [dp]) == Members(picks) + {dp}
  {
  }

  lemma {:induction false} DifferCount(s: seq<int>)
    requires Differ(s)
    ensures |Members(s)| == |s|
  {
    if s != [] {
      var r := s[..|s| - 1];
      DifferCount(r);
      assert s == r + [s[|s| - 1]];
      assert Members(s) == Members(r) + {s[|s| - 1]} && s[|s| - 1] !in Members(r);
    }
  }

  lemma PicksBounded(picks: seq<int>, n: nat)
    requires Differ(picks) && Members(picks) <= Full(n)
    ensures |picks| <= n
  {
    DifferCount(picks);
    Smaller(Members(picks), Full(n));
  }

  lemma Smaller(a: set<int>, b: set<int>)
    requires a <= b
    ensures |a| <= |b|
  {
    assert b == a + (b - a);
  }
}
