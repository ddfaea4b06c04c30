/** The event loop: what handlers do between the events of a batch, and which events reach
    their slots all the same. */
module EventRounds {
  import opened TimerList
  import opened EventPool

  /** What a handler does to the pool: registers a descriptor, deletes a slot, links two
      slots, or arms a timer. */
  datatype Act = Register(fd: int) | Delete(slot: int) | Pair(slot: int, other: int) |
    Arm(slot: int, ms: int, now: int)

  /** One turn of the loop: the time, how a wait would end, what the handler does, whether
      its slot is then deleted, and whether a failed wait was only interrupted. */
  datatype Turn = Turn(now: int, wait: Wait, acts: seq<Act>, drop: bool, again: bool)

  /** A turn as it went: the state before it, what came of the wait, and the states after it
      and after each thing done to the pool. */
  datatype Round = Round(before: View, how: How, val: int, states: seq<View>)

  // ---------- The runs of the loop ----------

  /** The descriptor got the free slot `val`. */
  ghost predicate Registers(v: View, fd: int, val: int, w: View) {
    && 0 <= val < |v.items| == |v.epoch| && !Active(v.items, val)
    && w == v.(items := v.items[val := Registered(fd, v.count, v.iters)], count := v.count + 1,
               epoch := v.epoch[val := v.epoch[val] + 1])
  }

  /** The slot and all it led to were emptied. */
  ghost predicate Deletes(v: View, slot: int, w: View) {
    && Survived(v.items, w.items, slot) && Renewed(v.items, slot, v.epoch, w.epoch) && w.count <= v.count
    && (forall s :: s in w.timers <==> s in v.timers && !Reachable(v.items, slot, s))
    && w == v.(items := w.items, count := w.count, timers := w.timers, epoch := w.epoch)
  }

  /** The timer of the slot was set. */
  ghost predicate Arms(v: View, slot: int, at: int, w: View) {
    && 0 <= slot < |v.items| == |w.items| && w.items[slot].tvMs == at && OnlyTimers(v.items, w.items)
    && (exists k :: 0 <= k <= |v.timers| && w.timers == With(v.timers, k, slot))
    && w == v.(items := w.items, timers := w.timers)
  }

  /** One thing done to the pool; nothing happens where its functions do not apply. */
  ghost predicate ActOf(v: View, a: Act, w: View) {
    match a
    case Register(fd) =>
      if fd <= 0 || v.count >= |v.items| then w == v else exists val :: Registers(v, fd, val, w)
    case Delete(s) => if 0 <= s < |v.items| then Deletes(v, s, w) else w == v
    case Pair(s, t) =>
      if 0 <= s < |v.items| && (t == NONE || (0 <= t < |v.items| && s != t)) then
        w == v.(items := v.items[s := v.items[s].(pair := t)])
      else w == v
    case Arm(s, ms, now) =>
      if Active(v.items, s) && now + ms != 0 && s !in v.timers then Arms(v, s, now + ms, w) else w == v
  }

  /** What the handler of `val` does, and then the loop itself. */
  function Acts(t: Turn, val: int): seq<Act> {
    if val == NONE then [] else t.acts + if t.drop then [Delete(val)] else []
  }

  /** Only events of registered slots are reported. */
  function Possible(items: seq<Eval>, wait: Wait): Wait {
    if wait.Events? && (wait.events == [] || exists k :: 0 <= k < |wait.events| && !Active(items, wait.events[k].slot))
    then Elapsed else wait
  }

  ghost predicate RoundOf(r: Round, t: Turn) {
    && r.states != [] && |r.states| == |Acts(t, r.val)| + 1
    && Nexts(r.before, t.now, Possible(r.before.items, t.wait), r.how, r.val, r.states[0])
    && forall k :: 0 <= k < |r.states| - 1 ==> ActOf(r.states[k], Acts(t, r.val)[k], r.states[k + 1])
  }

  /** The loop ends: there is no event and the wait was not just interrupted. */
  predicate Ends(r: Round, t: Turn) {
    r.how.Idle? && !t.again
  }

  ghost predicate Chained(v: View, rounds: seq<Round>, w: View) {
    if rounds == [] then v == w
    else
      && rounds[0].before == v && LastState(rounds[|rounds| - 1]) == w
      && forall k :: 0 <= k && k + 1 < |rounds| ==> LastState(rounds[k]) == rounds[k + 1].before
  }

  function LastState(r: Round): View {
    if r.states == [] then r.before else r.states[|r.states| - 1]
  }

  /** One round per turn, each from where the last one led; none before the last ends the loop. */
  ghost predicate Going(v: View, turns: seq<Turn>, rounds: seq<Round>, w: View) {
    && |rounds| <= |turns| && Chained(v, rounds, w)
    && (forall k :: 0 <= k < |rounds| ==> RoundOf(rounds[k], turns[k]))
    && forall k :: 0 <= k < |rounds| - 1 ==> !Ends(rounds[k], turns[k])
  }

  ghost predicate Runs(v: View, turns: seq<Turn>, rounds: seq<Round>, w: View) {
    && Going(v, turns, rounds, w)
    && (|rounds| == |turns| || (rounds != [] && Ends(rounds[|rounds| - 1], turns[|rounds| - 1])))
  }

  /** loop_event, with handlers that do as they like. */
  method LoopEvent(p: Pool, turns: seq<Turn>) returns (offs: int, kind: int, ghost rounds: seq<Round>)
    requires p.Valid()
    modifies p
    ensures p.Valid() && -1 <= offs < |p.batch|
    ensures Sane(old(p.Now(-1, -1))) && Runs(old(p.Now(-1, -1)), turns, rounds, p.Now(offs, kind))
  {
    hide LinksOk, PairsOk, TimersOk, AllActive, BuffersOk, FreshOk, RoundOf;
    FreshSane(p, -1);
    offs, kind, rounds := -1, -1, [];
    ghost var v := p.Now(-1, -1);
    for i := 0 to |turns|
      invariant p.Valid() && -1 <= offs < |p.batch| && |rounds| == i && Going(v, turns, rounds, p.Now(offs, kind))
      invariant i > 0 ==> !Ends(rounds[i - 1], turns[i - 1])
    {
      ghost var w := p.Now(offs, kind);
      ghost var r;
      var val;
      offs, kind, val, r := OneTurn(p, offs, kind, turns[i]);
      GoingOn(v, turns, rounds, w, r);
      rounds := rounds + [r];
      if val == NONE && !turns[i].again {
        return;
      }
    }
  }

  lemma GoingOn(v: View, turns: seq<Turn>, rounds: seq<Round>, w: View, r: Round)
    requires Going(v, turns, rounds, w) && |rounds| < |turns| && r.before == w && RoundOf(r, turns[|rounds|])
    requires rounds != [] ==> !Ends(rounds[|rounds| - 1], turns[|rounds| - 1])
    ensures Going(v, turns, rounds + [r], LastState(r))
  {
    hide RoundOf;
  }

  /** Waits for one event and runs its handler. */
  method OneTurn(p: Pool, offs: int, kind: int, t: Turn) returns (offs': int, kind': int, val: int, ghost r: Round)
    requires p.Valid() && -1 <= offs < |p.batch|
    modifies p
    ensures p.Valid() && -1 <= offs' < |p.batch| && (val == NONE <==> r.how.Idle?)
    ensures RoundOf(r, t) && r.before == old(p.Now(offs, kind)) && LastState(r) == p.Now(offs', kind')
  {
    hide LinksOk, PairsOk, TimersOk, AllActive, BuffersOk, FreshOk, Nexts;
    ghost var v := p.Now(offs, kind);
    ghost var how;
    val, offs', kind', how := p.NextEventTv(offs, kind, t.now, Possible(p.items, t.wait));
    IdleIsNone(v, t.now, Possible(v.items, t.wait), how, val, p.Now(offs', kind'));
    ghost var states := [p.Now(offs', kind')];
    var acts := Acts(t, val);
    for i := 0 to |acts|
      invariant p.Valid() && -1 <= offs' < |p.batch| && |states| == i + 1 && states[i] == p.Now(offs', kind')
      invariant Nexts(v, t.now, Possible(v.items, t.wait), how, val, states[0])
      invariant forall k :: 0 <= k < |states| - 1 ==> ActOf(states[k], acts[k], states[k + 1])
    {
      ghost var was := states;
      Do(p, acts[i], offs', kind');
      states := states + [p.Now(offs', kind')];
      assert forall k :: 0 <= k < |was| ==> states[k] == was[k];
    }
    r := Round(v, how, val, states);
  }

  lemma IdleIsNone(v: View, now: int, wait: Wait, how: How, val: int, w: View)
    requires Nexts(v, now, wait, how, val, w)
    ensures val == NONE <==> how.Idle?
  {
    if how.Polled? {
      assert Active(v.items, wait.events[|wait.events| - 1].slot);
    }
  }

  method Do(p: Pool, a: Act, ghost offs: int, ghost kind: int)
    requires p.Valid()
    modifies p
    ensures p.Valid() && p.batch == old(p.batch)
    ensures ActOf(old(p.Now(offs, kind)), a, p.Now(offs, kind))
  {
    hide LinksOk, PairsOk, TimersOk, AllActive, BuffersOk, FreshOk, Reachable, Survived, Renewed, OnlyTimers, With;
    ghost var v := p.Now(offs, kind);
    FreshLength(p.items, p.iters, p.epoch, p.polled, p.batch);
    match a
    case Register(fd) =>
      if fd > 0 {
        var val := p.AddEvent(fd);
        if val != NONE {
          assert Registers(v, fd, val, p.Now(offs, kind));
        }
      }
    case Delete(s) =>
      if 0 <= s < p.max {
        ghost var _ := p.DelEvent(s);
      }
    case Pair(s, t) =>
      if 0 <= s < p.max && (t == NONE || (0 <= t < p.max && s != t)) {
        p.SetPair(s, t);
      }
    case Arm(s, ms, now) =>
      if 0 <= s < p.max && p.items[s].fd != -1 && now + ms != 0 {
        ghost var _ := p.SetTimer(s, ms, now);
      }
  }

  /** What each thing done to the pool does, by the fields of the slots. */
  lemma ActTells(v: View, a: Act, w: View)
    requires ActOf(v, a, w)
    ensures a.Register? && a.fd > 0 && v.count < |v.items| ==>
      exists s :: 0 <= s < |v.items| == |w.items| && v.items[s].fd == -1 && w.items[s].fd == a.fd
    ensures a.Delete? ==> !Active(w.items, a.slot)
    ensures a.Pair? && 0 <= a.slot < |v.items| && 0 <= a.other < |v.items| && a.slot != a.other ==>
      a.slot < |w.items| && w.items[a.slot].pair == a.other
    ensures a.Arm? && Active(v.items, a.slot) && a.now + a.ms != 0 && a.slot !in v.timers ==>
      a.slot < |w.items| && w.items[a.slot].tvMs == a.now + a.ms && a.slot in w.timers
  {
    match a
    case Register(fd) =>
      if fd > 0 && v.count < |v.items| {
        var s :| Registers(v, fd, s, w);
        assert w.items[s].fd == fd;
      }
    case Delete(s) =>
      if 0 <= s < |v.items| {
        SelfReached(v.items, s);
      }
    case Pair(_, _) =>
    case Arm(s, ms, now) =>
      if Active(v.items, s) && now + ms != 0 && s !in v.timers {
        var k :| 0 <= k <= |v.timers| && w.timers == With(v.timers, k, s);
        assert w.timers[k] == s;
      }
  }

  /** A round runs the handler and, where it failed, deletes its slot; without an event it
      does nothing. */
  lemma RoundTells(r: Round, t: Turn)
    requires RoundOf(r, t)
    ensures r.val != NONE && t.drop ==> !Active(LastState(r).items, r.val) && |r.states| == |t.acts| + 2
    ensures r.val != NONE && !t.drop ==> |r.states| == |t.acts| + 1
    ensures r.val != NONE ==> forall k :: 0 <= k < |t.acts| && k + 1 < |r.states| ==>
      ActOf(r.states[k], t.acts[k], r.states[k + 1])
    ensures r.val == NONE ==> |r.states| == 1
  {
    hide ActOf, Nexts;
    if r.val != NONE && t.drop {
      var n := |t.acts|;
      ActTells(r.states[n], Acts(t, r.val)[n], r.states[n + 1]);
    }
  }

  // ---------- What a batch comes to ----------

  /** The slots filled or emptied from one state to another. */
  function Flipped(v: View, w: View): set<int> {
    set s | 0 <= s < |v.items| && Active(v.items, s) != Active(w.items, s)
  }

  function FlippedIn(states: seq<View>): set<int> {
    if |states| <= 1 then {}
    else FlippedIn(states[..|states| - 1]) + Flipped(states[|states| - 2], states[|states| - 1])
  }

  /** The slots that handlers filled or emptied since the last poll. */
  function Touched(rounds: seq<Round>): set<int> {
    if rounds == [] then {}
    else
      var r := rounds[|rounds| - 1];
      if r.how.Polled? then FlippedIn(r.states) else Touched(rounds[..|rounds| - 1]) + FlippedIn(r.states)
  }

  /** The events of the last polled batch. */
  function Batch(rounds: seq<Round>): seq<Event> {
    if rounds == [] then []
    else
      var r := rounds[|rounds| - 1];
      if r.how.Polled? && r.states != [] then r.states[0].batch else Batch(rounds[..|rounds| - 1])
  }

  /** The places of the events handed out since the last poll, in order. */
  function Served(rounds: seq<Round>): seq<int> {
    if rounds == [] then []
    else
      var r, front := rounds[|rounds| - 1], rounds[..|rounds| - 1];
      if r.states == [] then Served(front)
      else if r.how.Polled? then [r.states[0].offs + 1]
      else if r.how.Given? then Served(front) + [r.states[0].offs + 1]
      else Served(front)
  }

  function HasPolled(rounds: seq<Round>): bool {
    rounds != [] && (rounds[|rounds| - 1].how.Polled? || HasPolled(rounds[..|rounds| - 1]))
  }

  ghost predicate Falling(s: seq<int>) {
    forall i, j :: 0 <= i < j < |s| ==> s[i] > s[j]
  }

  /** The round leaves nothing of the batch it found. */
  predicate Exhausts(r: Round) {
    r.how.Polled? || (!r.how.Given? && r.states != [] && r.states[0].offs == -1)
  }

  /** What the generations and the place in the batch say. */
  ghost predicate Sane(v: View) {
    && |v.epoch| == |v.polled| == |v.items| && -1 <= v.offs < |v.batch|
    && (forall s :: 0 <= s < |v.items| ==> v.polled[s] <= v.epoch[s])
    && forall k :: 0 <= k < |v.batch| ==> 0 <= v.batch[k].slot < |v.items|
  }

  /** Once a batch was polled, the slots touched since are those that are not as polled, and
      all events behind the current place were handed out or belong to touched slots. */
  ghost predicate Tracks(rounds: seq<Round>, w: View) {
    && Sane(w)
    && (!HasPolled(rounds) ==> w.offs == -1 && Served(rounds) == [])
    && (HasPolled(rounds) ==> Follows(w, Batch(rounds), Touched(rounds), Served(rounds)))
  }

  ghost predicate Follows(w: View, batch: seq<Event>, touched: set<int>, served: seq<int>) {
    && w.batch == batch && |w.epoch| == |w.polled| == |w.items|
    && (forall s :: s in touched <==> 0 <= s < |w.items| && w.epoch[s] != w.polled[s])
    && Falling(served) && (forall x :: x in served ==> w.offs < x < |batch|)
    && forall i :: w.offs < i < |batch| && 0 <= i ==> i in served || batch[i].slot in touched
  }

  /** A thing done to the pool raises the generation of exactly the slots it fills or empties. */
  lemma ActFlips(v: View, a: Act, w: View)
    requires ActOf(v, a, w) && Sane(v)
    ensures Sane(w) && |w.items| == |v.items| && w.polled == v.polled && w.batch == v.batch && w.offs == v.offs
    ensures forall s :: 0 <= s < |v.items| ==> w.epoch[s] == v.epoch[s] + if s in Flipped(v, w) then 1 else 0
  {
    hide Reachable, Survived, Renewed, OnlyTimers;
    match a
    case Register(fd) =>
    case Delete(slot) =>
      if 0 <= slot < |v.items| {
        DeleteFlips(v, slot, w);
      }
    case Pair(_, _) =>
    case Arm(slot, _, _) =>
      forall s | 0 <= s < |v.items| && OnlyTimers(v.items, w.items)
        ensures Active(v.items, s) == Active(w.items, s)
      {
        OnlyTimersAt(v.items, w.items, s);
        OnlyTimersLength(v.items, w.items);
      }
  }

  lemma DeleteFlips(v: View, slot: int, w: View)
    requires Deletes(v, slot, w) && Sane(v)
    ensures |w.items| == |v.items| == |w.epoch|
    ensures forall s :: 0 <= s < |v.items| ==> w.epoch[s] == v.epoch[s] + if s in Flipped(v, w) then 1 else 0
  {
    hide Reachable;
    forall s | 0 <= s < |v.items|
      ensures Reachable(v.items, slot, s) <==> s in Flipped(v, w)
    {
      if Reachable(v.items, slot, s) {
        ReachedTo(v.items, slot, s);
      }
    }
  }

  lemma {:induction false} ActsFlip(states: seq<View>, acts: seq<Act>)
    requires states != [] && |states| == |acts| + 1 && Sane(states[0])
    requires forall k :: 0 <= k < |states| - 1 ==> ActOf(states[k], acts[k], states[k + 1])
    ensures var v, w := states[0], states[|states| - 1];
      && Sane(w) && |w.items| == |v.items| && w.polled == v.polled && w.batch == v.batch && w.offs == v.offs
      && (forall s :: s in FlippedIn(states) ==> 0 <= s < |v.items|)
      && forall s :: 0 <= s < |v.items| ==>
          w.epoch[s] >= v.epoch[s] && (w.epoch[s] > v.epoch[s] <==> s in FlippedIn(states))
    decreases |states|
  {
    hide ActOf, Sane, Flipped;
    if |states| > 1 {
      var n := |states| - 1;
      ActsFlip(states[..n], acts[..n - 1]);
      ActFlips(states[n - 1], acts[n - 1], states[n]);
      FlippedRange(states[n - 1], states[n]);
      SaneLengths(states[0]);
      SaneLengths(states[n]);
    }
  }

  lemma FlippedRange(v: View, w: View)
    ensures forall s :: s in Flipped(v, w) ==> 0 <= s < |v.items|
  {
  }

  lemma SaneLengths(v: View)
    requires Sane(v)
    ensures |v.epoch| == |v.polled| == |v.items|
  {
  }

  /** What the wait does to the tracked state; nothing was touched in it. */
  lemma WaitTracks(rounds: seq<Round>, t: Turn, r: Round)
    requires Tracks(rounds, r.before) && RoundOf(r, t)
    ensures var w, front := r.states[0], Touched(rounds);
      && Sane(w) && (r.how.Given? ==> HasPolled(rounds) && r.val !in front)
      && (!r.how.Polled? && !HasPolled(rounds) ==> w.offs == -1)
      && (r.how.Polled? ==> Follows(w, w.batch, {}, [w.offs + 1]))
      && (!r.how.Polled? && HasPolled(rounds) ==>
            Follows(w, Batch(rounds), front, if r.how.Given? then Served(rounds) + [w.offs + 1] else Served(rounds)))
      && (HasPolled(rounds) && Exhausts(r) ==>
            forall i :: 0 <= i < |Batch(rounds)| ==> i in Served(rounds) || Batch(rounds)[i].slot in front)
  {
    hide ActOf, Touched, Served, Batch, HasPolled, Closed;
    ClosedLength(r.before.items, r.val);
    if HasPolled(rounds) && !r.how.Polled? {
      if r.how.Given? {
        GivenFollows(r.before, r.states[0], Batch(rounds), Touched(rounds), Served(rounds));
      } else {
        IdleFollows(r.before, r.states[0], Batch(rounds), Touched(rounds), Served(rounds));
      }
    }
  }

  /** Handing out the next event that is not outdated. */
  lemma GivenFollows(v: View, w: View, batch: seq<Event>, touched: set<int>, served: seq<int>)
    requires Follows(v, batch, touched, served) && Sane(v) && -1 <= w.offs < v.offs
    requires w == v.(offs := w.offs, kind := w.kind) && Outdated(v.batch, v.epoch, v.polled, w.offs + 1, v.offs)
    ensures Follows(w, batch, touched, served + [w.offs + 1])
  {
    var more, o := served + [w.offs + 1], w.offs + 1;
    forall i | w.offs < i < |batch| && 0 <= i
      ensures i in more || batch[i].slot in touched
    {
      if i == o {
        assert more[|served|] == i;
      } else if i <= v.offs {
        assert v.epoch[batch[i].slot] != v.polled[batch[i].slot];
      } else if i in served {
        assert i in more;
      }
    }
    forall i, j | 0 <= i < j < |more|
      ensures more[i] > more[j]
    {
      assert more[i] == served[i] && served[i] in served;
    }
  }

  /** Passing over outdated events, or over nothing. */
  lemma IdleFollows(v: View, w: View, batch: seq<Event>, touched: set<int>, served: seq<int>)
    requires Follows(v, batch, touched, served) && Sane(v) && |w.items| == |v.items|
    requires w.batch == v.batch && w.epoch == v.epoch && w.polled == v.polled
    requires w.offs == v.offs || (w.offs == -1 && Spent(v))
    ensures Follows(w, batch, touched, served)
  {
    forall i | w.offs < i < |batch| && 0 <= i
      ensures i in served || batch[i].slot in touched
    {
      if i <= v.offs {
        assert v.epoch[batch[i].slot] != v.polled[batch[i].slot];
      }
    }
  }

  lemma ClosedLength(items: seq<Eval>, v: int)
    ensures 0 <= v < |items| ==> |Closed(items, v)| == |items|
  {
  }

  /** ... and what the handler does. */
  lemma ActsTrack(w: View, x: View, batch: seq<Event>, touched: set<int>, more: set<int>, served: seq<int>)
    requires Follows(w, batch, touched, served) && |x.items| == |w.items| && Sane(w) && Sane(x)
    requires x.polled == w.polled && x.batch == w.batch && x.offs == w.offs
    requires forall s :: s in more ==> 0 <= s < |w.items|
    requires forall s :: 0 <= s < |w.items| ==>
      x.epoch[s] >= w.epoch[s] && (x.epoch[s] > w.epoch[s] <==> s in more)
    ensures Follows(x, batch, touched + more, served)
  {
  }

  lemma RoundTracks(rounds: seq<Round>, t: Turn, r: Round)
    requires Tracks(rounds, r.before) && RoundOf(r, t)
    ensures Tracks(rounds + [r], LastState(r))
  {
    hide ActOf, Nexts, Follows, Sane, Flipped, FlippedIn;
    WaitTracks(rounds, t, r);
    ActsFlip(r.states, Acts(t, r.val));
    var w, x, all := r.states[0], LastState(r), rounds + [r];
    assert all[..|all| - 1] == rounds && all[|all| - 1] == r;
    var served := if r.how.Given? then Served(rounds) + [w.offs + 1] else Served(rounds);
    if r.how.Polled? {
      ActsTrack(w, x, w.batch, {}, FlippedIn(r.states), [w.offs + 1]);
      assert {} + FlippedIn(r.states) == FlippedIn(r.states);
    } else if HasPolled(rounds) {
      ActsTrack(w, x, Batch(rounds), Touched(rounds), FlippedIn(r.states), served);
    }
  }

  lemma {:induction false} TracksOn(v: View, turns: seq<Turn>, rounds: seq<Round>, w: View)
    requires Going(v, turns, rounds, w) && Sane(v) && v.offs == -1
    ensures Tracks(rounds, w)
    decreases |rounds|
  {
    hide RoundOf, Tracks, Going;
    if rounds == [] {
      NothingYet(v, turns, w);
    } else {
      var n := |rounds| - 1;
      FrontGoes(v, turns, rounds, w, n);
      TracksOn(v, turns, rounds[..n], rounds[n].before);
      LastRound(v, turns, rounds, w);
      RoundTracks(rounds[..n], turns[n], rounds[n]);
      assert rounds[..n] + [rounds[n]] == rounds;
    }
  }

  lemma NothingYet(v: View, turns: seq<Turn>, w: View)
    requires Going(v, turns, [], w) && Sane(v) && v.offs == -1
    ensures Tracks([], w)
  {
  }

  lemma FrontGoes(v: View, turns: seq<Turn>, rounds: seq<Round>, w: View, k: nat)
    requires Going(v, turns, rounds, w) && k < |rounds|
    ensures |rounds| <= |turns| && RoundOf(rounds[k], turns[k])
    ensures Going(v, turns, rounds[..k], rounds[k].before)
  {
    hide RoundOf;
  }

  lemma LastRound(v: View, turns: seq<Turn>, rounds: seq<Round>, w: View)
    requires Going(v, turns, rounds, w) && rounds != []
    ensures LastState(rounds[|rounds| - 1]) == w
  {
    hide RoundOf;
  }

  /** Over every run of the event loop: no event is handed out to a slot that was filled or
      emptied since the poll; the events of a batch go out from the last to the first, each
      once at most; and when nothing is left of a batch, every event of it whose slot was
      not touched has been handed out. */
  lemma OncePerBatch(v: View, turns: seq<Turn>, rounds: seq<Round>, w: View)
    requires Runs(v, turns, rounds, w) && Sane(v) && v.offs == -1
    ensures forall k :: 0 <= k < |rounds| && rounds[k].how.Given? ==> rounds[k].val !in Touched(rounds[..k])
    ensures forall k :: 0 <= k <= |rounds| ==> Falling(Served(rounds[..k]))
    ensures forall k, i :: 0 <= k < |rounds| && Exhausts(rounds[k]) && 0 <= i < |Batch(rounds[..k])| ==>
      i in Served(rounds[..k]) || Batch(rounds[..k])[i].slot in Touched(rounds[..k])
    ensures forall k, x :: 0 <= k <= |rounds| && x in Served(rounds[..k]) ==> 0 <= x < |Batch(rounds[..k])|
  {
    hide Going, RoundOf, Tracks, Touched, Served, Batch, HasPolled, Exhausts;
    forall k | 0 <= k <= |rounds|
      ensures Tracks(rounds[..k], if k < |rounds| then rounds[k].before else w)
      ensures k < |rounds| ==> |rounds| <= |turns| && RoundOf(rounds[k], turns[k])
    {
      if k < |rounds| {
        FrontGoes(v, turns, rounds, w, k);
        TracksOn(v, turns, rounds[..k], rounds[k].before);
      } else {
        assert rounds[..k] == rounds;
        TracksOn(v, turns, rounds, w);
      }
    }
    forall k | 0 <= k <= |rounds|
      ensures Falling(Served(rounds[..k]))
      ensures forall x :: x in Served(rounds[..k]) ==> 0 <= x < |Batch(rounds[..k])|
    {
      TracksTells(rounds[..k], if k < |rounds| then rounds[k].before else w);
    }
    forall k | 0 <= k < |rounds|
      ensures rounds[k].how.Given? ==> rounds[k].val !in Touched(rounds[..k])
      ensures Exhausts(rounds[k]) ==> forall i :: 0 <= i < |Batch(rounds[..k])| ==>
        i in Served(rounds[..k]) || Batch(rounds[..k])[i].slot in Touched(rounds[..k])
    {
      WaitTracks(rounds[..k], turns[k], rounds[k]);
      NoBatchYet(rounds[..k]);
    }
  }

  lemma TracksTells(rounds: seq<Round>, w: View)
    requires Tracks(rounds, w)
    ensures Falling(Served(rounds)) && forall x :: x in Served(rounds) ==> 0 <= x < |Batch(rounds)|
  {
    hide Served, Batch, Touched, HasPolled;
  }

  lemma {:induction false} NoBatchYet(rounds: seq<Round>)
    ensures !HasPolled(rounds) ==> Batch(rounds) == []
  {
    if rounds != [] {
      NoBatchYet(rounds[..|rounds| - 1]);
    }
  }

  // ---------- What a wait gives ----------

  /** Some event up to the current place has a slot that is as polled; `i` is the last such one. */
  ghost predicate NextUp(v: View, i: int) {
    && 0 <= i <= v.offs < |v.batch| && AsPolled(v, i) && forall k :: i < k <= v.offs ==> !AsPolled(v, k)
  }

  ghost predicate AsPolled(v: View, i: int) {
    && 0 <= i < |v.batch| && 0 <= v.batch[i].slot < |v.epoch| && v.batch[i].slot < |v.polled|
    && v.epoch[v.batch[i].slot] == v.polled[v.batch[i].slot]
  }

  /** A due timer comes first, then the next event of the batch that is not outdated, and only
      then what the wait gives: new events, the first timer after a timeout, or nothing. */
  lemma WaitTells(v: View, now: int, wait: Wait, how: How, val: int, w: View)
    requires Nexts(v, now, wait, how, val, w) && Sane(v)
    ensures v.timers != [] && 0 <= v.timers[0] < |v.items| && v.items[v.timers[0]].tvMs <= now ==>
      how.Fired? && val == v.timers[0] && w.offs == v.offs
    ensures (v.timers == [] || (0 <= v.timers[0] < |v.items| && v.items[v.timers[0]].tvMs > now)) ==>
      && (forall i :: NextUp(v, i) ==> how.Given? && val == v.batch[i].slot && w.offs == i - 1)
      && ((forall i :: 0 <= i <= v.offs ==> !AsPolled(v, i)) ==>
            && (wait.Events? ==> how.Polled? && w.batch == wait.events)
            && (wait == Elapsed && v.timers != [] ==> how.Fired? && val == v.timers[0])
            && (!wait.Events? && v.timers == [] ==> how.Idle? && val == NONE))
  {
    if how.Given? {
      assert AsPolled(v, w.offs + 1);
    } else if how.Polled? || how.Idle? || (how.Fired? && w.offs == -1) {
      forall i | 0 <= i <= v.offs && Spent(v)
        ensures !AsPolled(v, i)
      {
      }
    }
  }

  // ---------- A timer before its time ----------

  /** A wait that fails before the first timer is due, with nothing left of the batch: the timer
      fires all the same if and only if the last event handed out was a timeout. */
  lemma FiresEarlyIff(v: View, now: int, how: How, val: int, w: View)
    requires Nexts(v, now, Failed, how, val, w) && v.timers != [] && NotDue(v.items, v.timers, now) && Spent(v)
    requires Sane(v)
    ensures how.Fired? <==> v.kind == TIMEOUT
    ensures !how.Fired? ==> how.Idle? && val == NONE
  {
  }

  /** Two timers, set for the times 1 and 100. The first fires at 1, then a wait is interrupted,
      and the second fires at 2. */
  method EarlyTimer() returns (p: Pool, turns: seq<Turn>, ghost v: View, ghost rounds: seq<Round>, ghost w: View)
    ensures p.Valid() && Sane(v) && v.offs == -1 && Runs(v, turns, rounds, w) && |rounds| == |turns| == 2
    ensures var r, t := rounds[1], turns[1];
      && r.how.Fired? && 0 <= r.val < |r.before.items| && r.before.items[r.val].tvMs == 100
      && t.now == 2 && t.wait == Failed && t.again
  {
    hide LinksOk, PairsOk, AllActive, BuffersOk, FreshOk, Linked, TimersOk, Outdated, Runs, Nexts, Closed;
    p := new Pool(2);
    var a := p.AddEvent(5);
    var b := p.AddEvent(6);
    ghost var _ := p.SetTimer(a, 1, 0);
    assert p.timers == [a];
    ghost var _ := p.SetTimer(b, 100, 0);
    TwoTimers(p.items, p.timers, p.tvStart, p.tvEnd, a, b);
    FreshSane(p, -1);
    v, turns := p.Now(-1, -1), [Turn(1, Failed, [], false, true), Turn(2, Failed, [], false, true)];
    var offs, kind;
    offs, kind, rounds := LoopEvent(p, turns);
    w := p.Now(offs, kind);
    TwoFire(v, turns, rounds, w, a, b);
  }

  lemma FreshSane(p: Pool, kind: int)
    requires p.Valid()
    ensures Sane(p.Now(-1, kind))
  {
  }

  lemma TwoFire(v: View, turns: seq<Turn>, rounds: seq<Round>, w: View, a: int, b: int)
    requires Runs(v, turns, rounds, w) && Sane(v) && v.offs == -1 && v.timers == [a, b]
    requires turns == [Turn(1, Failed, [], false, true), Turn(2, Failed, [], false, true)]
    requires 0 <= a < |v.items| && 0 <= b < |v.items| && a != b && v.items[a].tvMs == 1 && v.items[b].tvMs == 100
    ensures |rounds| == 2 && rounds[1].how.Fired? && rounds[1].val == b
    ensures |rounds[1].before.items| == |v.items| && rounds[1].before.items[b].tvMs == 100
  {
    assert RoundOf(rounds[0], turns[0]) && RoundOf(rounds[1], turns[1]);
    var u := rounds[1].before;
    assert u == v.(items := Closed(v.items, a), timers := [b], kind := TIMEOUT);
  }

  lemma TwoTimers(items: seq<Eval>, ts: seq<int>, start: int, end: int, a: int, b: int)
    requires TimersOk(items, ts, start, end) && (ts == [a, b] || ts == [b, a])
    requires 0 <= a < |items| && 0 <= b < |items| && items[a].tvMs < items[b].tvMs
    ensures ts == [a, b]
  {
  }
}
