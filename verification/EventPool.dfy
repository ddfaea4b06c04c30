/** The event pool: slots handed out and taken back, pairs that die together,
    timers, spare buffers, and generation numbers that outdate polled events. */
module EventPool {
  import opened TimerList

  const MAX_BUFF_INP := 8

  /** POLLTIMEOUT. */
  const TIMEOUT := 0

  /** A polled event: the slot it was registered for, and what happened. */
  datatype Event = Event(slot: int, kind: int)

  /** The outcome of waiting: events, or none with a timeout or a failure. */
  datatype Wait = Events(events: seq<Event>) | Elapsed | Failed

  // ---------- The permutation of slots ----------

  /** `links` permutes the slots, active ones first; an active slot knows its place. */
  ghost predicate LinksOk(links: seq<int>, items: seq<Eval>, pos: seq<int>, count: nat)
  {
    && |links| == |items| == |pos| && count <= |links|
    && (forall i :: 0 <= i < |links| ==> 0 <= links[i] < |items| && pos[links[i]] == i)
    && (forall s :: 0 <= s < |items| ==> 0 <= pos[s] < |links| && links[pos[s]] == s)
    && (forall s :: 0 <= s < |items| ==> PlaceAt(items, pos, count, s))
  }

  ghost predicate PlaceAt(items: seq<Eval>, pos: seq<int>, count: nat, s: int)
    requires 0 <= s < |items| == |pos|
  {
    if items[s].fd == -1 then count <= pos[s] else items[s].fd > 0 && items[s].index == pos[s] < count
  }

  /** Pairs are other slots. */
  ghost predicate PairsOk(items: seq<Eval>) {
    forall s :: 0 <= s < |items| ==> items[s].pair == NONE || (0 <= items[s].pair < |items| && items[s].pair != s)
  }

  // ---------- Spare buffers ----------

  ghost function Held(items: seq<Eval>, s: int): set<int>
    requires 0 <= s < |items|
  {
    {items[s].buff, items[s].sqBuff} - {NONE}
  }

  /** Every buffer is in one place: in the spare list once, or with one slot. */
  ghost predicate BuffersOk(items: seq<Eval>, spare: seq<int>) {
    && Distinct(spare) && |spare| <= MAX_BUFF_INP && NONE !in spare
    && (forall s :: 0 <= s < |items| ==> HeldAt(items, spare, s))
    && (forall s, t :: 0 <= s < t < |items| ==> Held(items, s) !! Held(items, t))
  }

  ghost predicate HeldAt(items: seq<Eval>, spare: seq<int>, s: int)
    requires 0 <= s < |items|
  {
    && (forall b :: b in Held(items, s) ==> b !in spare)
    && (items[s].buff == items[s].sqBuff ==> items[s].buff == NONE)
  }

  // ---------- Generations ----------

  /** `epoch` counts how often a slot was filled or emptied, and `polled` is its
      value when the events were polled. A slot that changed since then carries
      the current iteration; one of the events otherwise does not. */
  ghost predicate FreshOk(items: seq<Eval>, iters: nat, epoch: seq<nat>, polled: seq<nat>, batch: seq<Event>) {
    && |epoch| == |polled| == |items|
    && (forall s :: 0 <= s < |items| ==> items[s].modIter <= iters && polled[s] <= epoch[s])
    && (forall s :: 0 <= s < |items| && epoch[s] != polled[s] ==> items[s].modIter == iters)
    && (forall k :: 0 <= k < |batch| ==> EventOk(items, iters, epoch, polled, batch[k]))
  }

  /** The event is up to date exactly when its slot is as it was polled. */
  ghost predicate EventOk(items: seq<Eval>, iters: nat, epoch: seq<nat>, polled: seq<nat>, e: Event)
    requires |epoch| == |polled| == |items|
  {
    && 0 <= e.slot < |items|
    && (items[e.slot].modIter != iters <==> epoch[e.slot] == polled[e.slot])
    && (epoch[e.slot] == polled[e.slot] ==> Active(items, e.slot))
  }

  // ---------- What the event loop waits for ----------

  /** The pool and the variables of the event loop, at one moment. */
  datatype View = View(items: seq<Eval>, count: nat, timers: seq<int>, iters: nat, epoch: seq<nat>, polled: seq<nat>,
                       batch: seq<Event>, offs: int, kind: int)

  /** Where an event comes from: the batch, a new one, or a timer; or there is none. */
  datatype How = Given | Polled | Fired | Idle

  /** `val` is at `k` among the timers, behind all that are earlier than `at` and before all others. */
  ghost predicate InPlace(items: seq<Eval>, ts: seq<int>, us: seq<int>, k: int, val: int, at: int) {
    && 0 <= k <= |ts| && us == With(ts, k, val)
    && (k > 0 ==> 0 <= ts[k - 1] < |items| && items[ts[k - 1]].tvMs < at)
    && (k < |ts| ==> 0 <= ts[k] < |items| && at <= items[ts[k]].tvMs)
  }

  /** The time of the first timer has not come. */
  predicate NotDue(items: seq<Eval>, timers: seq<int>, now: int) {
    timers == [] || (0 <= timers[0] < |items| && items[timers[0]].tvMs > now)
  }

  /** The events after `low` up to `high` have slots that were emptied or filled since they were polled. */
  ghost predicate Outdated(batch: seq<Event>, epoch: seq<nat>, polled: seq<nat>, low: int, high: int) {
    forall k :: low < k <= high && 0 <= k < |batch| && 0 <= batch[k].slot < |epoch| && batch[k].slot < |polled| ==>
      epoch[batch[k].slot] != polled[batch[k].slot]
  }

  /** All that is left of the batch is outdated. */
  ghost predicate Spent(v: View) {
    Outdated(v.batch, v.epoch, v.polled, -1, v.offs)
  }

  /** One call of next_event. */
  ghost predicate Waits(v: View, wait: Wait, how: How, val: int, w: View) {
    match how
    case Given =>
      && 0 <= w.offs + 1 <= v.offs < |v.batch| && v.batch[w.offs + 1] == Event(val, w.kind) && Active(v.items, val)
      && val < |v.epoch| && val < |v.polled| && v.epoch[val] == v.polled[val]
      && Outdated(v.batch, v.epoch, v.polled, w.offs + 1, v.offs) && w == v.(offs := w.offs, kind := w.kind)
    case Polled =>
      && Spent(v) && wait.Events? && wait.events != []
      && (forall k :: 0 <= k < |wait.events| ==> Active(v.items, wait.events[k].slot))
      && var n := |wait.events| - 1;
      && wait.events[n] == Event(val, w.kind)
      && w == v.(iters := v.iters + 1, polled := v.epoch, batch := wait.events, offs := n - 1, kind := w.kind)
    case Idle =>
      && Spent(v) && val == NONE && !wait.Events?
      && w == v.(offs := -1, kind := if wait == Elapsed then TIMEOUT else v.kind)
    case Fired => false
  }

  /** One call of next_event_tv. The first timer fires when it is due; or when the batch is
      spent and the wait ends with a timeout, or fails while the last event was one. */
  ghost predicate Nexts(v: View, now: int, wait: Wait, how: How, val: int, w: View) {
    if how.Fired? then
      && v.timers != [] && val == v.timers[0] && 0 <= val < |v.items|
      && (if v.items[val].tvMs <= now then w.offs == v.offs
          else Spent(v) && w.offs == -1 && (wait == Elapsed || (wait == Failed && v.kind == TIMEOUT)))
      && w == v.(items := Closed(v.items, val), timers := v.timers[1..], offs := w.offs, kind := TIMEOUT)
    else
      && NotDue(v.items, v.timers, now) && Waits(v, wait, how, val, w)
      && (how.Idle? ==> v.timers == [] || w.kind != TIMEOUT)
  }

  class Pool {
    const max: nat
    var count: nat
    var links: seq<int>
    var items: seq<Eval>
    var iters: nat
    var tvStart: int
    var tvEnd: int
    var spare: seq<int>
    var buffCount: nat
    var batch: seq<Event>
    ghost var pos: seq<int>
    ghost var timers: seq<int>
    ghost var epoch: seq<nat>
    ghost var polled: seq<nat>

    ghost predicate Valid()
      reads this
    {
      && |items| == max && LinksOk(links, items, pos, count) && PairsOk(items)
      && TimersOk(items, timers, tvStart, tvEnd) && AllActive(items, timers)
      && BuffersOk(items, spare) && buffCount == |spare|
      && FreshOk(items, iters, epoch, polled, batch)
    }

    /** A pool whose slots are all free. */
    constructor (max: nat)
      ensures Valid() && this.max == max && count == 0 && iters == 0 && timers == [] && batch == [] && spare == []
      ensures forall s :: 0 <= s < max ==> items[s].fd == -1
    {
      this.max := max;
      count, iters, tvStart, tvEnd, spare, buffCount, batch := 0, 0, NONE, NONE, [], 0, [];
      links, items := seq(max, i => i), seq(max, _ => CLEARED);
      pos, timers, epoch, polled := seq(max, i => i), [], seq(max, _ => 0), seq(max, _ => 0);
    }

    /** Takes the first free slot for `fd`, or returns NONE when there is none. */
    method AddEvent(fd: int) returns (val: int)
      requires Valid() && fd > 0
      modifies this
      ensures Valid() && timers == old(timers) && polled == old(polled) && batch == old(batch) && iters == old(iters)
      ensures val == NONE <==> old(count) >= max
      ensures val == NONE ==> items == old(items) && count == old(count) && epoch == old(epoch)
      ensures val != NONE ==> 0 <= val < max && !Active(old(items), val) && count == old(count) + 1
      ensures val != NONE ==> items == old(items)[val := Registered(fd, old(count), old(iters))]
      ensures val != NONE ==>
        && items[val].fd == fd && items[val].index == old(count) && items[val].modIter == old(iters)
        && items[val].tvMs == 0 && items[val].pair == items[val].buff == items[val].sqBuff == NONE
      ensures val != NONE ==> epoch == old(epoch)[val := old(epoch)[val] + 1]
    {
      hide LinksOk, PairsOk, TimersOk, AllActive, BuffersOk, FreshOk;
      LinksLength(links, items, pos, count);
      if count >= max {
        return NONE;
      }
      FirstFree(links, items, pos, count);
      FreshLength(items, iters, epoch, polled, batch);
      val := links[count];
      ghost var was := items;
      items := items[val := CLEARED];
      items := items[val := items[val].(modIter := iters)];
      items := items[val := items[val].(fd := fd)];
      items := items[val := items[val].(index := count)];
      assert items == was[val := Registered(fd, count, iters)];
      AddedLinks(links, was, pos, count, val, Registered(fd, count, iters));
      AddedTimers(was, timers, tvStart, tvEnd, val, Registered(fd, count, iters));
      AddedRest(was, spare, val, Registered(fd, count, iters));
      ChangedFresh(was, iters, epoch, polled, batch, val, Registered(fd, count, iters));
      epoch := epoch[val := epoch[val] + 1];
      count := count + 1;
    }

    /** buff_push: keeps a buffer for reuse unless there are enough. */
    method PushBuff(b: int)
      requires b != NONE && buffCount == |spare|
      modifies this`spare, this`buffCount
      ensures spare == (if |old(spare)| >= MAX_BUFF_INP then old(spare) else [b] + old(spare)) && buffCount == |spare|
    {
      if buffCount >= MAX_BUFF_INP {
        return;
      }
      spare := [b] + spare;
      buffCount := buffCount + 1;
    }

    /** buff_pop: a spare buffer, or the new one `made`. */
    method PopBuff(made: int) returns (b: int)
      requires Valid() && made != NONE && made !in spare
      modifies this`spare, this`buffCount
      ensures Valid() && b != NONE && b !in spare
      ensures if old(spare) == [] then b == made && spare == [] else old(spare) == [b] + spare
    {
      hide LinksOk, PairsOk, TimersOk, AllActive, FreshOk;
      if spare != [] {
        b := spare[0];
        ghost var was := spare;
        spare := spare[1..];
        buffCount := buffCount - 1;
        FewerSpare(items, was);
      } else {
        b := made;
      }
    }

    /** Takes a slot off the timer list; a slot that is not on it stays as it is. */
    method RemoveTimer(val: int)
      requires 0 <= val < |items| && TimersOk(items, timers, tvStart, tvEnd) && (val in timers || Unarmed(items, val))
      modifies this`items, this`tvStart, this`tvEnd, this`timers
      ensures TimersOk(items, timers, tvStart, tvEnd) && val !in timers && items == Closed(old(items), val)
      ensures timers == Minus(old(timers), val) && (val !in old(timers) ==> items == old(items))
    {
      hide Linked, Sorted, Minus;
      ghost var was, ts := items, timers;
      DistinctTimers(was, ts);
      MinusMembers(ts, val);
      NeighboursOf(was, ts, tvStart, tvEnd, val);
      var p, n := items[val].tvPrev, items[val].tvNext;
      if p != NONE {
        items := items[p := items[p].(tvNext := n)];
      }
      if n != NONE {
        items := items[n := items[n].(tvPrev := p)];
      }
      if tvStart == val {
        tvStart := n;
      }
      if tvEnd == val {
        tvEnd := p;
      }
      items := items[val := items[val].(tvMs := 0, tvNext := NONE, tvPrev := NONE)];
      assert items == Closed(was, val);
      if val in ts {
        ghost var k :| 0 <= k < |ts| && ts[k] == val;
        MinusIs(ts, k);
        timers := Without(ts, k);
        RemovedTimers(was, ts, k);
      } else {
        NothingClosed(was, val);
      }
    }

    /** Walks back over the timers that are not before `at`. */
    method FindPlace(at: int, ghost ts: seq<int>, ghost val: int) returns (prev: int, next: int, ghost k: nat)
      requires tvEnd == At(ts, |ts| - 1) && val !in ts
      requires BackLinked(items, ts)
      ensures k <= |ts| && (k > 0 ==> 0 <= ts[k - 1] < |items|) && (k < |ts| ==> 0 <= ts[k] < |items|)
      ensures prev == At(ts, k - 1) && next == At(ts, k)
      ensures k > 0 ==> items[ts[k - 1]].tvMs < at
      ensures k < |ts| ==> at <= items[ts[k]].tvMs
    {
      hide BackLinked;
      next, prev, k := NONE, tvEnd, |ts|;
      BackAt(items, ts, |ts|);
      while prev != NONE && items[prev].tvMs >= at
        invariant k <= |ts| && prev == At(ts, k as int - 1) && next == At(ts, k)
        invariant k > 0 ==> 0 <= ts[k - 1] < |items|
        invariant k < |ts| ==> 0 <= ts[k] < |items| && at <= items[ts[k]].tvMs
        decreases k
      {
        BackAt(items, ts, k);
        next := prev;
        prev := items[prev].tvPrev;
        k := k - 1;
        BackAt(items, ts, k);
      }
    }

    /** Links the slot `val` between two others. */
    method LinkIn(val: int, prev: int, next: int)
      requires 0 <= val < |items| && (prev == NONE || 0 <= prev < |items|) && (next == NONE || 0 <= next < |items|)
      requires prev != val && next != val
      modifies this`items
      ensures items == TimerList.Opened(old(items), val, prev, next, old(items)[val].tvMs)
    {
      items := items[val := items[val].(tvNext := next)];
      items := items[val := items[val].(tvPrev := prev)];
      if next != NONE {
        items := items[next := items[next].(tvPrev := val)];
      }
      if prev != NONE {
        items := items[prev := items[prev].(tvNext := val)];
      }
    }

    /** Arms the timer of an active slot for `ms` from `now` unless it is armed. */
    method SetTimer(val: int, ms: int, now: int) returns (ghost k: int)
      requires Valid() && Active(items, val) && now + ms != 0
      modifies this`items, this`tvStart, this`tvEnd, this`timers
      ensures Valid()
      ensures val in old(timers) ==> items == old(items) && timers == old(timers)
      ensures val !in old(timers) ==> items[val].tvMs == now + ms && SameBodiesBut(old(items), items, val)
      ensures val !in old(timers) ==> OnlyTimers(old(items), items)
      ensures val !in old(timers) ==> exists k :: 0 <= k <= |old(timers)| && timers == With(old(timers), k, val)
      ensures val !in old(timers) ==> InPlace(old(items), old(timers), timers, k, val, now + ms)
    {
      hide LinksOk, PairsOk, BuffersOk, FreshOk, AllActive, At, With, TimerList.Opened, OnlyTimers, SameBodiesBut,
        Linked, Sorted;
      ghost var was, ts := items, timers;
      k := 0;
      ArmedIff(was, ts, tvStart, tvEnd, val);
      if items[val].tvMs != 0 {
        return;
      }
      var at := now + ms;
      ActiveRange(was, ts);
      items := items[val := items[val].(tvMs := at)];
      OthersTimed(was, items, ts, val);
      var prev, next;
      prev, next, k := FindPlace(at, ts, val);
      NeighboursIn(ts, k, val);
      LinkIn(val, prev, next);
      OpenedAgain(was, val, At(ts, k - 1), At(ts, k), at);
      Armed(was, items, ts, tvStart, tvEnd, k, val, at);
      if tvStart == NONE || next == tvStart {
        tvStart := val;
      }
      if tvEnd == NONE || prev == tvEnd {
        tvEnd := val;
      }
      timers := With(ts, k, val);
      BodiesKeep(was, items, links, pos, count, spare, iters, epoch, polled, batch);
      OnlyTimersLength(was, items);
    }

    /** Gives the buffers of a slot back to the pool. */
    method GiveBack(val: int)
      requires 0 <= val < |items| && BuffersOk(items, spare) && buffCount == |spare|
      modifies this`items, this`spare, this`buffCount
      ensures BuffersOk(items, spare) && buffCount == |spare|
      ensures items == old(items)[val := old(items)[val].(buff := NONE, sqBuff := NONE)]
      ensures Stacked(old(spare), Buffers(old(items)[val]), spare)
    {
      hide BuffersOk;
      ghost var was, first := items, spare;
      if items[val].buff != NONE {
        BufferGiven(items, spare, val);
        PushBuff(items[val].buff);
        items := items[val := items[val].(buff := NONE)];
      }
      if items[val].sqBuff != NONE {
        SqBufferGiven(items, spare, val);
        PushBuff(items[val].sqBuff);
        items := items[val := items[val].(sqBuff := NONE)];
      }
      assert items == was[val := was[val].(buff := NONE, sqBuff := NONE)];
      BuffersAre(was[val]);
    }

    /** The part of del_event up to the pair: gives the slot's buffers back, takes
        its timer away and moves the slot behind the active ones. */
    method Deactivate(val: int)
      requires Valid() && Active(items, val)
      modifies this
      ensures Valid() && count == old(count) - 1 && Emptied(old(items), items, val, iters)
      ensures Stacked(old(spare), Buffers(old(items)[val]), spare)
      ensures iters == old(iters) && polled == old(polled) && batch == old(batch)
      ensures |old(epoch)| == |items| && epoch == old(epoch)[val := old(epoch)[val] + 1]
      ensures forall s :: s in timers <==> s in old(timers) && s != val
    {
      hide LinksOk, PairsOk, AllActive, BuffersOk, FreshOk, Closed, Emptied, Minus, Linked, Sorted, Stacked;
      ghost var was, ts := items, timers;
      FreshLength(items, iters, epoch, polled, batch);
      LinksLength(links, items, pos, count);
      GiveBack(val);
      items := items[val := items[val].(fd := -1)];
      items := items[val := items[val].(modIter := iters)];
      ghost var low := items;
      assert low == was[val := Dead(was[val], iters)];
      Stopped(was, low, timers, tvStart, tvEnd, val, iters);
      DistinctTimers(low, ts);
      MinusMembers(ts, val);
      RemoveTimer(val);
      CalmEmptied(was, items, val, iters);
      MoveLast(val, was);
      EmptiedRest(was, low, items, spare, val, iters);
      EmptiedActive(was, items, ts, timers, val, iters);
      EmptiedFresh(was, items, iters, epoch, polled, batch, val);
      EmptiedLength(was, items, val, iters);
      epoch := epoch[val := epoch[val] + 1];
    }

    /** Moves an emptied slot behind the active ones; `was` are the slots before it was emptied. */
    method MoveLast(val: int, ghost was: seq<Eval>)
      requires LinksOk(links, was, pos, count) && Active(was, val) && Emptied(was, items, val, iters)
      requires forall s :: 0 <= s < |items| ==> items[s].index == was[s].index
      requires TimersOk(items, timers, tvStart, tvEnd)
      modifies this`links, this`items, this`count, this`pos
      ensures LinksOk(links, items, pos, count) && Emptied(was, items, val, iters) && count == old(count) - 1
      ensures TimersOk(items, timers, tvStart, tvEnd)
    {
      hide LinksOk, TimersOk, Emptied, Plain;
      ghost var calm, l, p, c := items, links, pos, count;
      LinksLength(links, was, pos, count);
      LastActive(links, was, pos, count, val);
      EmptiedLength(was, items, val, iters);
      count := count - 1;
      var ev := links[count];
      var index := items[val].index;
      if ev != val {
        links := links[index := ev];
        links := links[count := val];
        items := items[ev := items[ev].(index := index)];
        pos := pos[ev := index][val := count];
      }
      Reindexed(calm, items, ev, timers, tvStart, tvEnd, val);
      EmptiedAgain(was, calm, items, val, iters);
      EmptiedLinks(l, was, p, c, items, links, pos, val, iters);
    }

    /** Sets the pair of a slot to another one, or to none. */
    method SetPair(s: int, t: int)
      requires Valid() && 0 <= s < max && (t == NONE || (0 <= t < max && s != t))
      modifies this`items
      ensures Valid() && items == old(items)[s := old(items)[s].(pair := t)]
    {
      hide LinksOk, PairsOk, TimersOk, AllActive, BuffersOk, FreshOk, OnlyPairs;
      ghost var next := items[s := items[s].(pair := t)];
      PairSet(items, s, t);
      PairsApart(items, next, links, pos, count, spare, iters, epoch, polled, batch);
      PairsTimers(items, next, timers, tvStart, tvEnd);
      items := items[s := items[s].(pair := t)];
    }

    /** del_event: empties the slot and all slots it leads to by pairs, whatever the pairs look like. */
    method DelEvent(val: int) returns (ghost path: seq<int>)
      requires Valid() && 0 <= val < max
      modifies this
      ensures Along(old(items), val, path)
      ensures Stacked(old(spare), BuffersAlong(old(items), path), spare)
      ensures Valid() && iters == old(iters) && polled == old(polled) && batch == old(batch)
      ensures Survived(old(items), items, val) && count <= old(count)
      ensures (Active(old(items), val) ==> count < old(count))
      ensures forall s :: s in timers <==> s in old(timers) && !Reachable(old(items), val, s)
      ensures Renewed(old(items), val, old(epoch), epoch)
      decreases count
    {
      hide LinksOk, PairsOk, TimersOk, AllActive, BuffersOk, FreshOk, Emptied, Survived, Reachable, Renewed,
        Stacked, Along;
      ghost var was, ts, gone, first := items, timers, epoch, spare;
      FreshLength(was, iters, gone, polled, batch);
      if items[val].fd == -1 {
        NothingReached(was, val);
        NothingRenewed(was, val, gone);
        NothingStacked(was, val, spare);
        return [];
      }
      CountActive(links, items, pos, count, val);
      Deactivate(val);
      EmptiedAt(was, items, val, iters, val);
      var e := items[val].pair;
      if e == NONE {
        Alone(was, items, val, iters);
        RenewedAlone(was, val, gone);
        OneAlong(was, val);
        return [val];
      }
      PairRange(items, val);
      ghost var one := items;
      if items[e].pair == val {
        SetPair(e, NONE);
      }
      SetPair(val, NONE);
      ghost var two, ts2 := items, timers;
      LedOn(was, one, two, val, e, iters);
      ghost var mid := spare;
      ghost var rest := DelEvent(e);
      SurvivedBoth(was, one, two, items, val, e, iters);
      RenewedBoth(was, two, val, e, gone, epoch);
      AlongBoth(was, one, two, val, e, rest, iters);
      StackedTwice(first, Buffers(was[val]), mid, BuffersAlong(two, rest), spare);
      path := [val] + rest;
    }

    /** next_event: the next polled event whose slot is as it was polled, after
        waiting for more if there is none; outdated ones are passed over. */
    method NextEvent(offs: int, kind: int, wait: Wait) returns (val: int, offs': int, kind': int, ghost how: How)
      requires Valid() && -1 <= offs < |batch|
      requires wait.Events? ==>
        wait.events != [] && forall k :: 0 <= k < |wait.events| ==> Active(items, wait.events[k].slot)
      modifies this`iters, this`batch, this`polled
      ensures Valid() && -1 <= offs' < |batch|
      ensures val != NONE ==> Active(items, val) && epoch[val] == polled[val]
      ensures val != NONE ==> offs' + 1 < |batch| && batch[offs' + 1] == Event(val, kind')
      ensures Waits(old(Now(offs, kind)), wait, how, val, Now(offs', kind'))
    {
      hide LinksOk, PairsOk, TimersOk, AllActive, BuffersOk;
      offs', kind', how := offs, kind, Given;
      while true
        invariant Valid() && -1 <= offs' <= offs && batch == old(batch) && iters == old(iters) && polled == old(polled)
        invariant Outdated(batch, epoch, polled, offs', offs) && kind' == kind && how == Given
        decreases offs'
      {
        var i := offs';
        if i < 0 {
          match wait
          case Elapsed =>
            kind' := TIMEOUT;
            return NONE, offs', kind', Idle;
          case Failed =>
            return NONE, offs', kind', Idle;
          case Events(events) =>
            FreshBatch(items, iters, epoch, polled, batch, events);
            batch := events;
            i := |events| - 1;
            iters := iters + 1;
            polled, how := epoch, Polled;
        }
        assert EventOk(items, iters, epoch, polled, batch[i]);
        val := batch[i].slot;
        offs' := i - 1;
        if items[val].modIter == iters {
          continue;
        }
        kind' := batch[i].kind;
        return;
      }
    }

    /** The pool as the event loop sees it, with its place in the batch and the last kind of event. */
    ghost function Now(offs: int, kind: int): View
      reads this
    {
      View(items, count, timers, iters, epoch, polled, batch, offs, kind)
    }

    /** next_event_tv: an event, or the first timer when its time has come. */
    method NextEventTv(offs: int, kind: int, now: int, wait: Wait)
      returns (val: int, offs': int, kind': int, ghost how: How)
      requires Valid() && -1 <= offs < |batch|
      requires wait.Events? ==>
        wait.events != [] && forall k :: 0 <= k < |wait.events| ==> Active(items, wait.events[k].slot)
      modifies this
      ensures Valid() && -1 <= offs' < |batch| && epoch == old(epoch) && count == old(count)
      ensures val != NONE ==> Active(items, val)
      ensures val != NONE && timers == old(timers) ==> epoch[val] == polled[val] && offs' + 1 < |batch|
      ensures val != NONE && timers == old(timers) ==> batch[offs' + 1] == Event(val, kind')
      ensures timers != old(timers) ==> old(timers) == [val] + timers && kind' == TIMEOUT
      ensures timers != old(timers) ==> batch == old(batch) && polled == old(polled) && iters == old(iters)
      ensures Nexts(old(Now(offs, kind)), now, wait, how, val, Now(offs', kind'))
    {
      hide LinksOk, PairsOk, AllActive, BuffersOk, FreshOk, Linked, Sorted, Closed, Outdated;
      how := Idle;
      if tvStart == NONE {
        NoneArmed(items, timers, tvStart, tvEnd);
        val, offs', kind', how := NextEvent(offs, kind, wait);
        return;
      }
      FirstTimer(items, timers, tvStart, tvEnd);
      val, offs', kind' := NONE, offs, kind;
      var ms := items[tvStart].tvMs - now;
      if ms > 0 {
        val, offs', kind', how := NextEvent(offs, kind, wait);
      } else {
        kind' := TIMEOUT;
      }
      if val == NONE && tvStart != NONE && kind' == TIMEOUT {
        val := TakeFirst();
        how := Fired;
      }
    }

    /** Takes the first timer off the list. */
    method TakeFirst() returns (val: int)
      requires Valid() && tvStart != NONE
      modifies this`items, this`tvStart, this`tvEnd, this`timers
      ensures Valid() && Active(items, val) && old(timers) == [val] + timers && timers == old(timers)[1..]
      ensures 0 <= val < |old(items)| && items == Closed(old(items), val)
    {
      hide LinksOk, PairsOk, AllActive, BuffersOk, FreshOk, Linked, Sorted, Minus, Closed, OnlyTimers;
      FirstTimer(items, timers, tvStart, tvEnd);
      val := tvStart;
      ghost var was, ts := items, timers;
      RemoveTimer(val);
      MinusFirst(ts);
      assert ts[1..] == timers;
      ClosedTimers(was, val);
      BodiesKeep(was, items, links, pos, count, spare, iters, epoch, polled, batch);
      OnlyTimersAt(was, items, val);
      FewerActive(was, items, ts, timers);
    }

    /** destroy_pool: empties every slot. */
    method Destroy()
      requires Valid()
      modifies this
      ensures Valid() && count == 0 && timers == [] && forall s :: 0 <= s < max ==> items[s].fd == -1
    {
      hide PairsOk, TimersOk, AllActive, BuffersOk, FreshOk;
      while count > 0
        invariant Valid()
        decreases count
      {
        var val := links[0];
        assert PlaceAt(items, pos, count, val);
        ghost var _ := DelEvent(val);
      }
      forall s | 0 <= s < max
        ensures items[s].fd == -1
      {
        assert PlaceAt(items, pos, count, s);
      }
      NoTimers(items, timers);
    }
  }

  /** A walk along pairs over active slots. */
  ghost predicate Walk(items: seq<Eval>, path: seq<int>) {
    && |path| > 0 && (forall i :: 0 <= i < |path| ==> Active(items, path[i]))
    && forall i :: 0 <= i < |path| - 1 ==> items[path[i]].pair == path[i + 1]
  }

  /** `s` is led to from `v` by pairs. */
  ghost predicate Reachable(items: seq<Eval>, v: int, s: int) {
    exists path :: Walk(items, path) && path[0] == v && path[|path| - 1] == s
  }

  /** Exactly the slots led to from `v` are emptied; the others keep all but their place. */
  ghost predicate Survived(items: seq<Eval>, next: seq<Eval>, v: int) {
    && |next| == |items|
    && forall s :: 0 <= s < |items| ==>
      && (Active(next, s) <==> Active(items, s) && !Reachable(items, v, s))
      && (Active(next, s) ==> Plain(next[s]) == Plain(items[s]))
  }

  /** The buffers of a slot, in the order in which they are given back. */
  function Buffers(e: Eval): seq<int> {
    (if e.buff != NONE then [e.buff] else []) + (if e.sqBuff != NONE then [e.sqBuff] else [])
  }

  function BuffersAlong(items: seq<Eval>, path: seq<int>): seq<int> {
    if path == [] then []
    else (if 0 <= path[0] < |items| then Buffers(items[path[0]]) else []) + BuffersAlong(items, path[1..])
  }

  /** The slots led to from `v`, each once, in the order of the pairs. */
  ghost predicate Along(items: seq<Eval>, v: int, path: seq<int>) {
    && Distinct(path) && (forall s :: s in path <==> Reachable(items, v, s))
    && (forall k :: 0 <= k < |path| ==> 0 <= path[k] < |items|)
    && (path != [] ==> path[0] == v)
    && forall k :: 0 <= k && k + 1 < |path| && 0 <= path[k] < |items| ==> items[path[k]].pair == path[k + 1]
  }

  /** The first of the buffers given, as many as there is room for, lie on the spare ones, the
      last one on top. */
  ghost predicate Stacked(spare: seq<int>, given: seq<int>, spare2: seq<int>) {
    var n := if |spare| >= 8 then 0 else if |spare| + |given| <= 8 then |given| else 8 - |spare|;
    && |spare2| == |spare| + n && spare2[n..] == spare && forall i :: 0 <= i < n ==> spare2[n - 1 - i] == given[i]
  }

  lemma BuffersAre(e: Eval)
    ensures Buffers(e) == if e.buff == NONE && e.sqBuff == NONE then [] else if e.buff == NONE then [e.sqBuff]
                          else if e.sqBuff == NONE then [e.buff] else [e.buff, e.sqBuff]
  {
  }

  lemma NothingStacked(items: seq<Eval>, v: int, spare: seq<int>)
    requires forall s :: !Reachable(items, v, s)
    ensures Along(items, v, []) && BuffersAlong(items, []) == [] && Stacked(spare, [], spare)
  {
    hide Reachable;
  }

  lemma StackedTwice(a: seq<int>, g: seq<int>, b: seq<int>, h: seq<int>, c: seq<int>)
    requires Stacked(a, g, b) && Stacked(b, h, c)
    ensures Stacked(a, g + h, c)
  {
    var m, n := |b| - |a|, |c| - |b|;
    assert c[n..] == b && c[n + m..] == b[m..];
    forall i | 0 <= i < n + m
      ensures c[n + m - 1 - i] == (g + h)[i]
    {
      if i < m {
        assert c[n..][m - 1 - i] == b[m - 1 - i];
      }
    }
  }

  lemma OneAlong(items: seq<Eval>, v: int)
    requires 0 <= v < |items| && forall s :: Reachable(items, v, s) <==> s == v
    ensures Along(items, v, [v]) && BuffersAlong(items, [v]) == Buffers(items[v])
  {
    hide Reachable;
    assert [v][1..] == [] && BuffersAlong(items, []) == [];
  }

  /** The slots led to from `v` are `v` and those led to from its pair once it is emptied. */
  lemma AlongBoth(items: seq<Eval>, one: seq<Eval>, two: seq<Eval>, v: int, e: int, path: seq<int>, iters: nat)
    requires Emptied(items, one, v, iters) && |two| == |one| && 0 <= v < |one| && 0 <= e < |one| && items[v].pair == e
    requires forall s :: 0 <= s < |one| ==>
      two[s] == (if s == v || (s == e && one[e].pair == v) then one[s].(pair := NONE) else one[s])
    requires forall s :: Reachable(items, v, s) <==> s == v || Reachable(two, e, s)
    requires forall s :: Active(two, s) <==> Active(items, s) && s != v
    requires Active(items, v) && Along(two, e, path)
    ensures Along(items, v, [v] + path)
    ensures BuffersAlong(items, [v] + path) == Buffers(items[v]) + BuffersAlong(two, path)
  {
    hide Emptied, Reachable, BuffersAlong, Buffers;
    EmptiedLength(items, one, v, iters);
    NotReached(two, e, v);
    AlongMore(v, path);
    forall s
      ensures s in [v] + path <==> Reachable(items, v, s)
    {
    }
    forall k | 0 <= k < |path|
      ensures k + 1 < |path| ==> items[path[k]].pair == path[k + 1]
    {
      ChainKept(items, one, two, v, e, path, k, iters);
    }
    AlongStep(items, v, path);
    SameAlong(items, two, path, one, v, iters);
  }

  lemma NotReached(items: seq<Eval>, e: int, v: int)
    requires !Active(items, v)
    ensures !Reachable(items, e, v)
  {
    if Reachable(items, e, v) {
      ReachedTo(items, e, v);
    }
  }

  lemma AlongMore(v: int, path: seq<int>)
    requires Distinct(path) && v !in path
    ensures Distinct([v] + path)
  {
  }

  lemma AlongStep(items: seq<Eval>, v: int, path: seq<int>)
    requires 0 <= v < |items|
    ensures BuffersAlong(items, [v] + path) == Buffers(items[v]) + BuffersAlong(items, path)
  {
    assert ([v] + path)[1..] == path;
  }

  lemma ChainKept(items: seq<Eval>, one: seq<Eval>, two: seq<Eval>, v: int, e: int, path: seq<int>, k: nat, iters: nat)
    requires Emptied(items, one, v, iters) && |two| == |one| == |items| && 0 <= v < |one| && 0 <= e < |one|
    requires forall s :: 0 <= s < |one| ==>
      two[s] == (if s == v || (s == e && one[e].pair == v) then one[s].(pair := NONE) else one[s])
    requires Along(two, e, path) && k < |path| && v !in path
    ensures k + 1 < |path| ==> items[path[k]].pair == path[k + 1]
  {
    hide Reachable, Emptied;
    assert path[k] in path;
    EmptiedAt(items, one, v, iters, path[k]);
  }

  lemma {:induction false} SameAlong(items: seq<Eval>, two: seq<Eval>, path: seq<int>, one: seq<Eval>, v: int,
                                     iters: nat)
    requires Emptied(items, one, v, iters) && |two| == |one| && v !in path
    requires forall s :: 0 <= s < |one| ==> two[s].buff == one[s].buff && two[s].sqBuff == one[s].sqBuff
    requires forall k :: 0 <= k < |path| ==> 0 <= path[k] < |items|
    ensures |two| == |items| && BuffersAlong(items, path) == BuffersAlong(two, path)
    decreases |path|
  {
    hide Emptied;
    EmptiedLength(items, one, v, iters);
    if path != [] {
      EmptiedAt(items, one, v, iters, path[0]);
      SameAlong(items, two, path[1..], one, v, iters);
    }
  }

  /** Of the slots exactly those led to from `v` are one generation on. */
  ghost predicate Renewed(items: seq<Eval>, v: int, epoch: seq<nat>, epoch2: seq<nat>) {
    && |epoch2| == |epoch| == |items|
    && forall s :: 0 <= s < |items| ==> epoch2[s] == epoch[s] + if Reachable(items, v, s) then 1 else 0
  }

  lemma NothingRenewed(items: seq<Eval>, v: int, epoch: seq<nat>)
    requires |epoch| == |items| && forall s :: !Reachable(items, v, s)
    ensures Renewed(items, v, epoch, epoch)
  {
  }

  lemma RenewedAlone(items: seq<Eval>, v: int, epoch: seq<nat>)
    requires |epoch| == |items| && 0 <= v < |items| && forall s :: Reachable(items, v, s) <==> s == v
    ensures Renewed(items, v, epoch, epoch[v := epoch[v] + 1])
  {
    hide Reachable;
  }

  lemma RenewedBoth(items: seq<Eval>, two: seq<Eval>, v: int, e: int, epoch: seq<nat>, epoch2: seq<nat>)
    requires |epoch| == |items| == |two| && 0 <= v < |items| && !Active(two, v)
    requires Renewed(two, e, epoch[v := epoch[v] + 1], epoch2)
    requires forall s :: Reachable(items, v, s) <==> s == v || Reachable(two, e, s)
    ensures Renewed(items, v, epoch, epoch2)
  {
    assert !Reachable(two, e, v) by {
      if Reachable(two, e, v) {
        ReachedTo(two, e, v);
      }
    }
    hide Reachable;
  }

  lemma ReachedTo(items: seq<Eval>, v: int, s: int)
    requires Reachable(items, v, s)
    ensures Active(items, s)
  {
    var path :| Walk(items, path) && path[0] == v && path[|path| - 1] == s;
    assert Active(items, path[|path| - 1]);
  }

  /** A walk that comes back to its start may be cut short. */
  lemma {:induction false} ShortWalk(items: seq<Eval>, path: seq<int>) returns (short: seq<int>)
    requires Walk(items, path)
    ensures Walk(items, short) && short[0] == path[0] && short[|short| - 1] == path[|path| - 1]
    ensures forall i :: 0 < i < |short| ==> short[i] != path[0]
    decreases |path|
  {
    if i :| 0 < i < |path| && path[i] == path[0] {
      var rest := path[i..];
      assert Walk(items, rest) by {
        forall j | 0 <= j < |rest| - 1
          ensures items[rest[j]].pair == rest[j + 1]
        {
          assert rest[j] == path[i + j] && rest[j + 1] == path[i + j + 1];
        }
      }
      short := ShortWalk(items, rest);
    } else {
      short := path;
    }
  }

  lemma NothingReached(items: seq<Eval>, v: int)
    requires 0 <= v < |items| && items[v].fd == -1
    ensures Survived(items, items, v) && forall s :: !Reachable(items, v, s)
  {
    forall s
      ensures !Reachable(items, v, s)
    {
      if Reachable(items, v, s) {
        ReachedFrom(items, v, s);
      }
    }
  }

  lemma ReachedFrom(items: seq<Eval>, v: int, s: int)
    requires Reachable(items, v, s)
    ensures Active(items, v) && (s != v ==> Active(items, items[v].pair))
  {
    var path :| Walk(items, path) && path[0] == v && path[|path| - 1] == s;
    assert Active(items, path[0]);
    if |path| > 1 {
      assert items[path[0]].pair == path[1] && Active(items, path[1]);
    }
  }

  /** A slot just filled. */
  function Registered(fd: int, index: int, iters: nat): Eval {
    CLEARED.(fd := fd, index := index, modIter := iters)
  }

  lemma LinksLength(links: seq<int>, items: seq<Eval>, pos: seq<int>, count: nat)
    requires LinksOk(links, items, pos, count)
    ensures |links| == |items| == |pos| && count <= |links|
  {
  }

  lemma FreshLength(items: seq<Eval>, iters: nat, epoch: seq<nat>, polled: seq<nat>, batch: seq<Event>)
    requires FreshOk(items, iters, epoch, polled, batch)
    ensures |epoch| == |polled| == |items|
  {
  }

  lemma FirstFree(links: seq<int>, items: seq<Eval>, pos: seq<int>, count: nat)
    requires LinksOk(links, items, pos, count) && count < |links|
    ensures 0 <= links[count] < |items| && items[links[count]].fd == -1 && pos[links[count]] == count
  {
    assert PlaceAt(items, pos, count, links[count]);
  }

  lemma AddedLinks(links: seq<int>, items: seq<Eval>, pos: seq<int>, count: nat, v: int, e: Eval)
    requires LinksOk(links, items, pos, count) && count < |links| && v == links[count] && 0 <= v < |items|
    requires e.fd > 0 && e.index == count
    ensures LinksOk(links, items[v := e], pos, count + 1)
  {
    var next, more := items[v := e], count + 1;
    forall s | 0 <= s < |next|
      ensures PlaceAt(next, pos, more, s)
    {
      assert PlaceAt(items, pos, count, s);
      assert links[pos[s]] == s;
    }
  }

  lemma AddedTimers(items: seq<Eval>, ts: seq<int>, start: int, end: int, v: int, e: Eval)
    requires TimersOk(items, ts, start, end) && AllActive(items, ts) && 0 <= v < |items| && !Active(items, v)
    requires e.fd != -1 && e.tvMs == 0 && e.tvNext == NONE && e.tvPrev == NONE
    ensures TimersOk(items[v := e], ts, start, end) && AllActive(items[v := e], ts)
  {
    var next := items[v := e];
    forall k | 0 <= k < |ts|
      ensures ts[k] != v && TimerAt(next, ts, k) && Active(next, ts[k])
    {
      assert TimerAt(items, ts, k) && Active(items, ts[k]);
    }
    forall i, j | 0 <= i <= j < |ts| && 0 <= ts[i] < |next| && 0 <= ts[j] < |next|
      ensures next[ts[i]].tvMs <= next[ts[j]].tvMs
    {
      SortedPair(items, ts, i, j);
    }
  }

  lemma AddedRest(items: seq<Eval>, spare: seq<int>, v: int, e: Eval)
    requires 0 <= v < |items| && e.pair == NONE && e.buff == NONE && e.sqBuff == NONE
    ensures PairsOk(items) ==> PairsOk(items[v := e])
    ensures BuffersOk(items, spare) ==> BuffersOk(items[v := e], spare)
  {
    if BuffersOk(items, spare) {
      var next := items[v := e];
      forall s | 0 <= s < |next|
        ensures HeldAt(next, spare, s) && Held(next, s) == if s == v then {} else Held(items, s)
      {
        assert HeldAt(items, spare, s);
      }
    }
  }

  /** Whatever is done to a slot, it then carries the current iteration. */
  lemma ChangedFresh(items: seq<Eval>, iters: nat, epoch: seq<nat>, polled: seq<nat>, batch: seq<Event>, v: int,
                     e: Eval)
    requires FreshOk(items, iters, epoch, polled, batch) && 0 <= v < |items| == |epoch| && e.modIter == iters
    ensures FreshOk(items[v := e], iters, epoch[v := epoch[v] + 1], polled, batch)
  {
    var next, later := items[v := e], epoch[v := epoch[v] + 1];
    forall k | 0 <= k < |batch|
      ensures EventOk(next, iters, later, polled, batch[k])
    {
      assert EventOk(items, iters, epoch, polled, batch[k]);
    }
  }

  lemma FewerSpare(items: seq<Eval>, spare: seq<int>)
    requires BuffersOk(items, spare) && spare != []
    ensures BuffersOk(items, spare[1..]) && spare[0] !in spare[1..] && spare == [spare[0]] + spare[1..]
  {
    var rest := spare[1..];
    assert forall i :: 0 <= i < |rest| ==> rest[i] == spare[i + 1];
    forall s | 0 <= s < |items|
      ensures HeldAt(items, rest, s)
    {
      assert HeldAt(items, spare, s);
    }
  }

  lemma NeighboursOf(items: seq<Eval>, ts: seq<int>, start: int, end: int, v: int)
    requires TimersOk(items, ts, start, end) && 0 <= v < |items| && (v in ts || Unarmed(items, v))
    ensures items[v].tvPrev == NONE || (0 <= items[v].tvPrev < |items| && items[v].tvPrev != v)
    ensures items[v].tvNext == NONE || (0 <= items[v].tvNext < |items| && items[v].tvNext != v)
    ensures items[v].tvNext != NONE ==> items[v].tvNext != items[v].tvPrev
    ensures forall k :: 0 <= k < |ts| && ts[k] == v ==>
      items[v].tvPrev == At(ts, k - 1) && items[v].tvNext == At(ts, k + 1)
    ensures v !in ts ==> start != v && end != v
    ensures forall k :: 0 <= k < |ts| && ts[k] == v ==> (start == v <==> k == 0) && (end == v <==> k == |ts| - 1)
  {
    if v in ts {
      var k :| 0 <= k < |ts| && ts[k] == v;
      assert TimerAt(items, ts, k);
      assert k > 0 ==> TimerAt(items, ts, k - 1);
      assert k + 1 < |ts| ==> TimerAt(items, ts, k + 1);
    }
    assert start == NONE || start in ts;
    assert end == NONE || end in ts;
  }

  lemma RemovedTimers(items: seq<Eval>, ts: seq<int>, k: nat)
    requires Linked(items, ts) && Sorted(items, ts) && k < |ts|
    ensures 0 <= ts[k] < |items| && ts[k] !in Without(ts, k)
    ensures var us := Without(ts, k);
      && Linked(Closed(items, ts[k]), us) && Sorted(Closed(items, ts[k]), us)
      && At(us, 0) == (if k == 0 then At(ts, 1) else At(ts, 0))
      && At(us, |us| - 1) == (if k == |ts| - 1 then At(ts, k - 1) else At(ts, |ts| - 1))
  {
    ClosedLinked(items, ts, k);
    ClosedBodies(items, ts[k]);
    SortedWithout(items, ts, Closed(items, ts[k]), k);
  }

  lemma NothingClosed(items: seq<Eval>, v: int)
    requires 0 <= v < |items| && Unarmed(items, v)
    ensures Closed(items, v) == items
  {
  }

  /** An active slot is armed exactly when it is on the timer list. */
  lemma ArmedIff(items: seq<Eval>, ts: seq<int>, start: int, end: int, v: int)
    requires TimersOk(items, ts, start, end) && Active(items, v)
    ensures items[v].tvMs != 0 <==> v in ts
  {
    if v in ts {
      var k :| 0 <= k < |ts| && ts[k] == v;
      assert TimerAt(items, ts, k);
    }
  }

  lemma ActiveRange(items: seq<Eval>, ts: seq<int>)
    requires AllActive(items, ts)
    ensures forall k :: 0 <= k < |ts| ==> 0 <= ts[k] < |items|
  {
  }

  lemma OthersTimed(items: seq<Eval>, next: seq<Eval>, ts: seq<int>, v: int)
    requires Linked(items, ts) && |next| == |items| && v !in ts && forall s :: 0 <= s < |items| && s != v ==>
      next[s] == items[s]
    ensures forall i :: 0 <= i < |ts| ==>
      0 <= ts[i] < |items| && next[ts[i]] == items[ts[i]] && items[ts[i]].tvPrev == At(ts, i - 1)
    ensures BackLinked(next, ts)
  {
    forall i | 0 <= i < |ts|
      ensures 0 <= ts[i] < |items| && next[ts[i]] == items[ts[i]] && items[ts[i]].tvPrev == At(ts, i - 1)
    {
      assert TimerAt(items, ts, i);
    }
  }

  lemma OnlyTimersLength(items: seq<Eval>, next: seq<Eval>)
    requires OnlyTimers(items, next)
    ensures |next| == |items|
  {
  }

  /** A slot armed and linked in is in its place. */
  lemma Armed(items: seq<Eval>, next: seq<Eval>, ts: seq<int>, start: int, end: int, k: int, v: int, at: int)
    requires TimersOk(items, ts, start, end) && AllActive(items, ts) && Active(items, v) && v !in ts && at != 0
    requires 0 <= k <= |ts|
    requires next == TimerList.Opened(items, v, At(ts, k - 1), At(ts, k), at)
    requires k > 0 ==> 0 <= ts[k - 1] < |items| && items[ts[k - 1]].tvMs < at
    requires k < |ts| ==> 0 <= ts[k] < |items| && at <= items[ts[k]].tvMs
    ensures TimersOk(next, With(ts, k, v), if start == NONE || At(ts, k) == start then v else start,
                     if end == NONE || At(ts, k - 1) == end then v else end)
    ensures OnlyTimers(items, next) && SameBodiesBut(items, next, v) && |next| == |items| && next[v].tvMs == at
    ensures AllActive(next, With(ts, k, v))
  {
    hide Linked, Sorted, AllActive, At, With, TimerList.Opened, SameBodiesBut, OnlyTimers;
    ActiveRange(items, ts);
    NeighboursIn(ts, k, v);
    OpenedBodies(items, v, At(ts, k - 1), At(ts, k), at);
    EndsWith(items, ts, start, end, k, v);
    OpenedLinked(items, ts, k, v, at);
    SortedWith(items, ts, next, k, v);
    TimerBodies(items, next, v, at);
    OnlyTimersLength(items, next);
    WithActive(items, next, ts, k, v);
    WithEnds(ts, k, v);
  }

  lemma WithEnds(ts: seq<int>, k: nat, v: int)
    requires k <= |ts|
    ensures |With(ts, k, v)| == |ts| + 1
  {
  }

  /** Each timer is linked back to the one before. */
  ghost predicate BackLinked(items: seq<Eval>, ts: seq<int>) {
    forall i :: 0 <= i < |ts| ==> 0 <= ts[i] < |items| && items[ts[i]].tvPrev == At(ts, i - 1)
  }

  lemma BackAt(items: seq<Eval>, ts: seq<int>, k: nat)
    requires BackLinked(items, ts) && k <= |ts|
    ensures k > 0 ==> 0 <= ts[k - 1] < |items| && items[ts[k - 1]].tvPrev == At(ts, k as int - 2)
  {
  }

  lemma OpenedAgain(items: seq<Eval>, v: int, p: int, n: int, at: int)
    requires 0 <= v < |items|
    ensures TimerList.Opened(items[v := items[v].(tvMs := at)], v, p, n, at) == TimerList.Opened(items, v, p, n, at)
  {
  }

  lemma EndsWith(items: seq<Eval>, ts: seq<int>, start: int, end: int, k: nat, v: int)
    requires TimersOk(items, ts, start, end) && k <= |ts| && v !in ts && v != NONE
    ensures At(With(ts, k, v), 0) == if start == NONE || At(ts, k) == start then v else start
    ensures At(With(ts, k, v), |ts|) == if end == NONE || At(ts, k - 1) == end then v else end
  {
    if |ts| > 0 {
      assert TimerAt(items, ts, 0) && TimerAt(items, ts, |ts| - 1);
      assert 0 < k < |ts| ==> ts[k] != ts[0] && ts[k - 1] != ts[|ts| - 1];
      assert At(With(ts, k, v), 0) == if k == 0 then v else ts[0];
      assert At(With(ts, k, v), |ts|) == if k == |ts| then v else ts[|ts| - 1];
    }
  }

  /** The timer of `v` set, all else the same. */
  ghost predicate OnlyTimers(items: seq<Eval>, next: seq<Eval>) {
    |next| == |items| && forall s :: 0 <= s < |items| ==> Body(next[s]).(tvMs := 0) == Body(items[s]).(tvMs := 0)
  }

  lemma TimerBodies(items: seq<Eval>, next: seq<Eval>, v: int, at: int)
    requires 0 <= v < |items| && SameBodiesBut(items, next, v) && Body(next[v]) == Body(items[v]).(tvMs := at)
    ensures OnlyTimers(items, next)
  {
  }

  lemma OnlyTimersAt(items: seq<Eval>, next: seq<Eval>, s: int)
    requires OnlyTimers(items, next) && 0 <= s < |items|
    ensures next[s].fd == items[s].fd && next[s].index == items[s].index && next[s].modIter == items[s].modIter
    ensures next[s].pair == items[s].pair && next[s].buff == items[s].buff && next[s].sqBuff == items[s].sqBuff
  {
    assert Body(next[s]).(tvMs := 0) == Body(items[s]).(tvMs := 0);
  }

  /** Timers have no bearing on the rest of the pool. */
  lemma BodiesKeep(items: seq<Eval>, next: seq<Eval>, links: seq<int>, pos: seq<int>, count: nat, spare: seq<int>,
                   iters: nat, epoch: seq<nat>, polled: seq<nat>, batch: seq<Event>)
    requires OnlyTimers(items, next)
    ensures LinksOk(links, items, pos, count) ==> LinksOk(links, next, pos, count)
    ensures PairsOk(items) ==> PairsOk(next)
    ensures BuffersOk(items, spare) ==> BuffersOk(next, spare)
    ensures FreshOk(items, iters, epoch, polled, batch) ==> FreshOk(next, iters, epoch, polled, batch)
  {
    forall s | 0 <= s < |items|
      ensures Core(next[s]) == Core(items[s])
    {
      OnlyTimersAt(items, next, s);
    }
    CoresKeep(items, next, links, pos, count, spare, iters, epoch, polled, batch);
  }

  /** What the pool keeps about a slot besides its timer. */
  function Core(e: Eval): Eval {
    e.(tvMs := 0, tvNext := NONE, tvPrev := NONE)
  }

  lemma CoresKeep(items: seq<Eval>, next: seq<Eval>, links: seq<int>, pos: seq<int>, count: nat, spare: seq<int>,
                  iters: nat, epoch: seq<nat>, polled: seq<nat>, batch: seq<Event>)
    requires |next| == |items| && forall s :: 0 <= s < |items| ==> Core(next[s]) == Core(items[s])
    ensures LinksOk(links, items, pos, count) ==> LinksOk(links, next, pos, count)
    ensures PairsOk(items) ==> PairsOk(next)
    ensures BuffersOk(items, spare) ==> BuffersOk(next, spare)
    ensures FreshOk(items, iters, epoch, polled, batch) ==> FreshOk(next, iters, epoch, polled, batch)
  {
    if LinksOk(links, items, pos, count) {
      forall s | 0 <= s < |next|
        ensures PlaceAt(next, pos, count, s)
      {
        assert Core(next[s]) == Core(items[s]) && PlaceAt(items, pos, count, s);
      }
    }
    if PairsOk(items) {
      forall s | 0 <= s < |next|
        ensures next[s].pair == NONE || (0 <= next[s].pair < |next| && next[s].pair != s)
      {
        assert Core(next[s]) == Core(items[s]);
      }
    }
    if BuffersOk(items, spare) {
      forall s | 0 <= s < |next|
        ensures HeldAt(next, spare, s) && Held(next, s) == Held(items, s)
      {
        assert Core(next[s]) == Core(items[s]) && HeldAt(items, spare, s);
      }
    }
    if FreshOk(items, iters, epoch, polled, batch) {
      forall s | 0 <= s < |next|
        ensures next[s].modIter == items[s].modIter && next[s].fd == items[s].fd
      {
        assert Core(next[s]) == Core(items[s]);
      }
      forall k | 0 <= k < |batch|
        ensures EventOk(next, iters, epoch, polled, batch[k])
      {
        assert EventOk(items, iters, epoch, polled, batch[k]);
      }
    }
  }

  lemma WithActive(items: seq<Eval>, next: seq<Eval>, ts: seq<int>, k: nat, v: int)
    requires AllActive(items, ts) && OnlyTimers(items, next) && k <= |ts| && Active(items, v)
    ensures AllActive(next, With(ts, k, v))
  {
    var us := With(ts, k, v);
    forall i | 0 <= i < |us|
      ensures Active(next, us[i])
    {
      OnlyTimersAt(items, next, v);
      if i != k {
        var j := if i < k then i else i - 1;
        assert us[i] == ts[j] && Active(items, ts[j]);
        OnlyTimersAt(items, next, ts[j]);
      }
    }
  }

  lemma BufferGiven(items: seq<Eval>, spare: seq<int>, v: int)
    requires BuffersOk(items, spare) && 0 <= v < |items| && items[v].buff != NONE
    ensures var next := items[v := items[v].(buff := NONE)];
      BuffersOk(next, spare) && (|spare| < MAX_BUFF_INP ==> BuffersOk(next, [items[v].buff] + spare))
  {
    var b, next := items[v].buff, items[v := items[v].(buff := NONE)];
    assert HeldAt(items, spare, v);
    assert Held(next, v) == Held(items, v) - {b};
    GivenAway(items, next, spare, v, b);
  }

  lemma SqBufferGiven(items: seq<Eval>, spare: seq<int>, v: int)
    requires BuffersOk(items, spare) && 0 <= v < |items| && items[v].sqBuff != NONE
    ensures var next := items[v := items[v].(sqBuff := NONE)];
      BuffersOk(next, spare) && (|spare| < MAX_BUFF_INP ==> BuffersOk(next, [items[v].sqBuff] + spare))
  {
    var b, next := items[v].sqBuff, items[v := items[v].(sqBuff := NONE)];
    assert HeldAt(items, spare, v);
    assert Held(next, v) == Held(items, v) - {b};
    GivenAway(items, next, spare, v, b);
  }

  /** A buffer moved from the slot `v` to the spare ones, or freed. */
  lemma GivenAway(items: seq<Eval>, next: seq<Eval>, spare: seq<int>, v: int, b: int)
    requires BuffersOk(items, spare) && |next| == |items| && 0 <= v < |items| && b in Held(items, v)
    requires forall s :: 0 <= s < |items| && s != v ==> next[s] == items[s]
    requires Held(next, v) == Held(items, v) - {b} && (next[v].buff == next[v].sqBuff ==> next[v].buff == NONE)
    ensures BuffersOk(next, spare) && (|spare| < MAX_BUFF_INP ==> BuffersOk(next, [b] + spare))
  {
    assert HeldAt(items, spare, v);
    var more := [b] + spare;
    assert forall i :: 1 <= i < |more| ==> more[i] == spare[i - 1];
    forall s | 0 <= s < |next|
      ensures HeldAt(next, spare, s) && HeldAt(next, more, s) && Held(next, s) <= Held(items, s)
    {
      assert HeldAt(items, spare, s);
      assert s < v ==> Held(items, s) !! Held(items, v);
      assert v < s ==> Held(items, v) !! Held(items, s);
    }
  }

  /** A slot once its descriptor is closed. */
  function Dead(e: Eval, iters: nat): Eval {
    e.(fd := -1, modIter := iters, buff := NONE, sqBuff := NONE)
  }

  /** Everything but the place among the slots and the links of the timer list. */
  function Plain(e: Eval): Eval {
    e.(index := 0, tvNext := NONE, tvPrev := NONE)
  }

  /** The slot `v` is emptied, and nothing else happened to the slots. */
  ghost predicate Emptied(items: seq<Eval>, next: seq<Eval>, v: int, iters: nat)
  {
    && |next| == |items| && 0 <= v < |items|
    && Plain(next[v]) == Plain(Dead(items[v], iters).(tvMs := 0))
    && forall s :: 0 <= s < |items| && s != v ==> Plain(next[s]) == Plain(items[s])
  }

  lemma EmptiedAt(items: seq<Eval>, next: seq<Eval>, v: int, iters: nat, s: int)
    requires Emptied(items, next, v, iters) && 0 <= s < |items|
    ensures s != v ==> next[s].fd == items[s].fd && next[s].modIter == items[s].modIter && next[s].tvMs == items[s].tvMs
    ensures s != v ==> next[s].buff == items[s].buff && next[s].sqBuff == items[s].sqBuff
    ensures next[s].pair == items[s].pair
    ensures s == v ==> next[s].fd == -1 && next[s].modIter == iters && next[s].buff == NONE == next[s].sqBuff
  {
    if s == v {
      assert Plain(next[v]) == Plain(Dead(items[v], iters).(tvMs := 0));
    } else {
      assert Plain(next[s]) == Plain(items[s]);
    }
  }

  lemma LastActive(links: seq<int>, items: seq<Eval>, pos: seq<int>, count: nat, v: int)
    requires LinksOk(links, items, pos, count) && Active(items, v)
    ensures 0 < count && 0 <= links[count - 1] < |items| && items[links[count - 1]].fd > 0
    ensures items[v].index == pos[v] && 0 <= pos[v] < count && links[pos[v]] == v
    ensures pos[links[count - 1]] == count - 1
  {
    assert PlaceAt(items, pos, count, v);
    assert PlaceAt(items, pos, count, links[count - 1]);
  }

  /** An emptied slot may still be on the timer list, but is there or unarmed. */
  lemma Stopped(items: seq<Eval>, low: seq<Eval>, ts: seq<int>, start: int, end: int, v: int, iters: nat)
    requires TimersOk(items, ts, start, end) && Active(items, v) && low == items[v := Dead(items[v], iters)]
    ensures TimersOk(low, ts, start, end) && (v in ts || Unarmed(low, v))
  {
    forall k | 0 <= k < |ts|
      ensures TimerAt(low, ts, k)
    {
      assert TimerAt(items, ts, k);
    }
  }

  lemma DistinctTimers(items: seq<Eval>, ts: seq<int>)
    requires Linked(items, ts)
    ensures Distinct(ts)
  {
  }

  lemma CalmEmptied(items: seq<Eval>, calm: seq<Eval>, v: int, iters: nat)
    requires 0 <= v < |items| && calm == Closed(items[v := Dead(items[v], iters)], v)
    ensures Emptied(items, calm, v, iters) && forall s :: 0 <= s < |items| ==> calm[s].index == items[s].index
  {
  }

  lemma EmptiedLength(items: seq<Eval>, next: seq<Eval>, v: int, iters: nat)
    requires Emptied(items, next, v, iters)
    ensures |next| == |items| && 0 <= v < |items|
  {
  }

  lemma EmptiedAgain(items: seq<Eval>, calm: seq<Eval>, next: seq<Eval>, v: int, iters: nat)
    requires Emptied(items, calm, v, iters) && |next| == |calm| && forall s :: 0 <= s < |calm| ==>
      Plain(next[s]) == Plain(calm[s])
    ensures Emptied(items, next, v, iters)
  {
  }

  /** Changing the place of a slot does not touch the timers. */
  lemma Reindexed(calm: seq<Eval>, next: seq<Eval>, ev: int, ts: seq<int>, start: int, end: int, v: int)
    requires TimersOk(calm, ts, start, end) && 0 <= ev < |calm| && 0 <= v < |calm|
    requires next == calm || next == calm[ev := calm[ev].(index := calm[v].index)]
    ensures TimersOk(next, ts, start, end) && |next| == |calm|
    ensures forall s :: 0 <= s < |calm| ==> Plain(next[s]) == Plain(calm[s])
  {
    forall k | 0 <= k < |ts|
      ensures TimerAt(next, ts, k)
    {
      assert TimerAt(calm, ts, k);
    }
  }

  /** The last active slot takes the place of the emptied one. */
  lemma EmptiedLinks(links: seq<int>, items: seq<Eval>, pos: seq<int>, count: nat, next: seq<Eval>, links2: seq<int>,
                     pos2: seq<int>,
                     v: int, iters: nat)
    requires LinksOk(links, items, pos, count) && Active(items, v) && Emptied(items, next, v, iters) && count > 0
    requires 0 <= pos[v] < count && 0 <= links[count - 1] < |items|
    requires var ev := links[count - 1];
      if ev == v then links2 == links && pos2 == pos
      else (links2 == links[pos[v] := ev][count - 1 := v] && pos2 == pos[ev := pos[v]][v := count - 1]
            && next[ev].index == pos[v])
    requires forall s :: 0 <= s < |items| && s != links[count - 1] ==> next[s].index == items[s].index
    ensures LinksOk(links2, next, pos2, count - 1)
  {
    var less, ev := count - 1, links[count - 1];
    forall s | 0 <= s < |next|
      ensures PlaceAt(next, pos2, less, s)
    {
      assert PlaceAt(items, pos, count, s) && PlaceAt(items, pos, count, v);
      EmptiedAt(items, next, v, iters, s);
      assert links[pos[s]] == s && links[pos[v]] == v;
    }
  }

  lemma EmptiedRest(items: seq<Eval>, low: seq<Eval>, next: seq<Eval>, spare: seq<int>, v: int, iters: nat)
    requires Emptied(items, next, v, iters) && low == items[v := Dead(items[v], iters)] && 0 <= v < |items|
    requires PairsOk(items) && BuffersOk(items[v := items[v].(buff := NONE, sqBuff := NONE)], spare)
    ensures PairsOk(next) && BuffersOk(next, spare)
  {
    var mid := items[v := items[v].(buff := NONE, sqBuff := NONE)];
    forall s | 0 <= s < |next|
      ensures HeldAt(next, spare, s) && Held(next, s) == Held(mid, s)
      ensures next[s].pair == items[s].pair
    {
      EmptiedAt(items, next, v, iters, s);
      assert HeldAt(mid, spare, s);
    }
  }

  lemma EmptiedActive(items: seq<Eval>, next: seq<Eval>, ts: seq<int>, us: seq<int>, v: int, iters: nat)
    requires Emptied(items, next, v, iters) && AllActive(items, ts) && forall s :: s in us ==> s in ts && s != v
    ensures AllActive(next, us)
  {
    forall k | 0 <= k < |us|
      ensures Active(next, us[k])
    {
      assert us[k] in us;
      EmptiedAt(items, next, v, iters, us[k]);
    }
  }

  lemma EmptiedFresh(items: seq<Eval>, next: seq<Eval>, iters: nat, epoch: seq<nat>, polled: seq<nat>,
                     batch: seq<Event>, v: int)
    requires FreshOk(items, iters, epoch, polled, batch) && Emptied(items, next, v, iters) && |epoch| == |items|
    ensures FreshOk(next, iters, epoch[v := epoch[v] + 1], polled, batch)
  {
    var later := epoch[v := epoch[v] + 1];
    forall s | 0 <= s < |next|
      ensures next[s].modIter == if s == v then iters else items[s].modIter
      ensures s != v ==> next[s].fd == items[s].fd
    {
      EmptiedAt(items, next, v, iters, s);
    }
    forall k | 0 <= k < |batch|
      ensures EventOk(next, iters, later, polled, batch[k])
    {
      assert EventOk(items, iters, epoch, polled, batch[k]);
    }
  }

  lemma CountActive(links: seq<int>, items: seq<Eval>, pos: seq<int>, count: nat, v: int)
    requires LinksOk(links, items, pos, count) && Active(items, v)
    ensures count > 0
  {
    assert PlaceAt(items, pos, count, v);
  }

  lemma PairRange(items: seq<Eval>, v: int)
    requires PairsOk(items) && 0 <= v < |items|
    ensures items[v].pair == NONE || (0 <= items[v].pair < |items| && items[v].pair != v)
  {
  }

  lemma NoTimers(items: seq<Eval>, ts: seq<int>)
    requires AllActive(items, ts) && forall s :: 0 <= s < |items| ==> items[s].fd == -1
    ensures ts == []
  {
    if |ts| > 0 {
      FirstActive(items, ts);
    }
  }

  lemma FirstActive(items: seq<Eval>, ts: seq<int>)
    requires AllActive(items, ts) && |ts| > 0
    ensures Active(items, ts[0])
  {
  }

  /** Slots that differ in pairs only. */
  ghost predicate OnlyPairs(items: seq<Eval>, next: seq<Eval>) {
    |next| == |items| && forall s :: 0 <= s < |items| ==> next[s].(pair := NONE) == items[s].(pair := NONE)
  }

  lemma OnlyPairsAt(items: seq<Eval>, next: seq<Eval>, s: int)
    requires OnlyPairs(items, next) && 0 <= s < |items|
    ensures next[s].fd == items[s].fd && next[s].index == items[s].index && next[s].modIter == items[s].modIter
    ensures next[s].buff == items[s].buff && next[s].sqBuff == items[s].sqBuff
    ensures next[s].tvMs == items[s].tvMs && next[s].tvNext == items[s].tvNext && next[s].tvPrev == items[s].tvPrev
  {
    assert next[s].(pair := NONE) == items[s].(pair := NONE);
  }

  /** Pairs have no bearing on places, buffers and generations. */
  lemma PairsApart(items: seq<Eval>, next: seq<Eval>, links: seq<int>, pos: seq<int>, count: nat, spare: seq<int>,
                   iters: nat, epoch: seq<nat>, polled: seq<nat>, batch: seq<Event>)
    requires OnlyPairs(items, next)
    ensures LinksOk(links, items, pos, count) ==> LinksOk(links, next, pos, count)
    ensures BuffersOk(items, spare) ==> BuffersOk(next, spare)
    ensures FreshOk(items, iters, epoch, polled, batch) ==> FreshOk(next, iters, epoch, polled, batch)
  {
    hide OnlyPairs;
    assert |next| == |items| by { OnlyPairsLength(items, next); }
    forall s | 0 <= s < |next|
      ensures next[s].fd == items[s].fd && next[s].modIter == items[s].modIter && next[s].index == items[s].index
      ensures Held(next, s) == Held(items, s)
      ensures |items| == |pos| ==> PlaceAt(next, pos, count, s) == PlaceAt(items, pos, count, s)
      ensures HeldAt(next, spare, s) == HeldAt(items, spare, s)
    {
      OnlyPairsAt(items, next, s);
    }
    if FreshOk(items, iters, epoch, polled, batch) {
      forall k | 0 <= k < |batch|
        ensures EventOk(next, iters, epoch, polled, batch[k])
      {
        assert EventOk(items, iters, epoch, polled, batch[k]);
      }
    }
  }

  lemma OnlyPairsLength(items: seq<Eval>, next: seq<Eval>)
    requires OnlyPairs(items, next)
    ensures |next| == |items|
  {
  }

  lemma PairsTimers(items: seq<Eval>, next: seq<Eval>, ts: seq<int>, start: int, end: int)
    requires OnlyPairs(items, next)
    ensures TimersOk(items, ts, start, end) ==> TimersOk(next, ts, start, end)
    ensures AllActive(items, ts) ==> AllActive(next, ts)
  {
    hide OnlyPairs;
    OnlyPairsLength(items, next);
    forall s | 0 <= s < |next|
      ensures next[s].fd == items[s].fd && next[s].tvMs == items[s].tvMs && Unarmed(next, s) == Unarmed(items, s)
      ensures next[s].tvNext == items[s].tvNext && next[s].tvPrev == items[s].tvPrev
    {
      OnlyPairsAt(items, next, s);
    }
    if TimersOk(items, ts, start, end) {
      forall k | 0 <= k < |ts|
        ensures TimerAt(next, ts, k)
      {
        assert TimerAt(items, ts, k);
      }
    }
    if AllActive(items, ts) {
      forall k | 0 <= k < |ts|
        ensures Active(next, ts[k])
      {
        assert Active(items, ts[k]);
      }
    }
  }

  lemma PairSet(items: seq<Eval>, s: int, t: int)
    requires 0 <= s < |items| && (t == NONE || (0 <= t < |items| && t != s))
    ensures OnlyPairs(items, items[s := items[s].(pair := t)])
    ensures PairsOk(items) ==> PairsOk(items[s := items[s].(pair := t)])
  {
  }

  /** A slot without a pair leads to itself only. */
  lemma Alone(items: seq<Eval>, next: seq<Eval>, v: int, iters: nat)
    requires Emptied(items, next, v, iters) && items[v].pair == NONE && Active(items, v)
    ensures Survived(items, next, v) && forall s :: Reachable(items, v, s) <==> s == v
  {
    assert Walk(items, [v]);
    forall s
      ensures Reachable(items, v, s) <==> s == v
    {
      if s == v {
        assert [v][0] == v && [v][|[v]| - 1] == v;
      } else if Reachable(items, v, s) {
        ReachedFrom(items, v, s);
      }
    }
    forall s | 0 <= s < |items|
      ensures (Active(next, s) <==> Active(items, s) && s != v)
      ensures (Active(next, s) ==> Plain(next[s]) == Plain(items[s]))
    {
      EmptiedAt(items, next, v, iters, s);
    }
  }

  /** After `v` is emptied and its pair cleared, `e` leads to the rest of what `v` led to. */
  lemma LedOn(items: seq<Eval>, one: seq<Eval>, two: seq<Eval>, v: int, e: int, iters: nat)
    requires Emptied(items, one, v, iters) && Active(items, v) && items[v].pair == e && 0 <= e < |items| && e != v
    requires |two| == |one| && 0 <= v < |one|
    requires forall s :: 0 <= s < |one| ==>
      two[s] == (if s == v || (s == e && one[e].pair == v) then one[s].(pair := NONE) else one[s])
    ensures forall s :: Active(two, s) <==> Active(items, s) && s != v
    ensures forall s :: Reachable(items, v, s) <==> s == v || Reachable(two, e, s)
  {
    forall s | 0 <= s < |items|
      ensures (Active(two, s) <==> Active(items, s) && s != v)
      ensures s != v && (two[s].pair != NONE || items[s].pair != v) ==> two[s].pair == items[s].pair || s == e
      ensures s != v && items[s].pair != v ==> two[s].pair == items[s].pair
      ensures s != v && two[s].pair != NONE ==> two[s].pair == items[s].pair
    {
      EmptiedAt(items, one, v, iters, s);
    }
    forall s
      ensures Reachable(items, v, s) <==> s == v || Reachable(two, e, s)
    {
      if s == v {
        assert Walk(items, [v]) && [v][0] == v && [v][|[v]| - 1] == v;
      } else {
        if Reachable(items, v, s) {
          LedForward(items, two, v, e, s);
        }
        if Reachable(two, e, s) {
          LedBack(items, two, v, e, s);
        }
      }
    }
  }

  lemma LedForward(items: seq<Eval>, two: seq<Eval>, v: int, e: int, s: int)
    requires Reachable(items, v, s) && s != v && |two| == |items| && Active(items, v) && items[v].pair == e
    requires forall x :: 0 <= x < |items| ==> (Active(two, x) <==> Active(items, x) && x != v)
    requires forall x :: 0 <= x < |items| && x != v && items[x].pair != v ==> two[x].pair == items[x].pair
    ensures Reachable(two, e, s)
  {
    var path :| Walk(items, path) && path[0] == v && path[|path| - 1] == s;
    var short := ShortWalk(items, path);
    var rest := short[1..];
    assert Walk(two, rest) by {
      forall i | 0 <= i < |rest|
        ensures Active(two, rest[i]) && (i < |rest| - 1 ==> two[rest[i]].pair == rest[i + 1])
      {
        assert rest[i] == short[i + 1] && Active(items, short[i + 1]);
        assert i < |rest| - 1 ==> rest[i + 1] == short[i + 2] && items[short[i + 1]].pair == short[i + 2];
      }
    }
    assert rest[0] == short[1] && items[short[0]].pair == short[1];
    assert rest[|rest| - 1] == s;
  }

  lemma LedBack(items: seq<Eval>, two: seq<Eval>, v: int, e: int, s: int)
    requires Reachable(two, e, s) && |two| == |items| && Active(items, v) && items[v].pair == e
    requires forall x :: 0 <= x < |items| ==> (Active(two, x) <==> Active(items, x) && x != v)
    requires forall x :: 0 <= x < |items| && x != v && two[x].pair != NONE ==> two[x].pair == items[x].pair
    ensures Reachable(items, v, s)
  {
    var path :| Walk(two, path) && path[0] == e && path[|path| - 1] == s;
    var whole := [v] + path;
    assert Walk(items, whole) by {
      forall i | 0 <= i < |whole|
        ensures Active(items, whole[i]) && (i < |whole| - 1 ==> items[whole[i]].pair == whole[i + 1])
      {
        if i > 0 {
          assert whole[i] == path[i - 1] && Active(two, path[i - 1]);
          if i < |whole| - 1 {
            assert whole[i + 1] == path[i] && two[path[i - 1]].pair == path[i] && Active(two, path[i]);
          }
        }
      }
    }
    assert whole[0] == v && whole[|whole| - 1] == s;
  }

  /** Emptying `v` and then what `e` leads to is emptying what `v` leads to. */
  lemma SurvivedBoth(items: seq<Eval>, one: seq<Eval>, two: seq<Eval>, next: seq<Eval>, v: int, e: int, iters: nat)
    requires Emptied(items, one, v, iters) && Active(items, v) && 0 <= e < |items| && |two| == |one| && 0 <= v < |one|
    requires forall s :: 0 <= s < |one| ==>
      two[s] == (if s == v || (s == e && one[e].pair == v) then one[s].(pair := NONE) else one[s])
    requires Survived(two, next, e)
    requires forall s :: Active(two, s) <==> Active(items, s) && s != v
    requires forall s :: Reachable(items, v, s) <==> s == v || Reachable(two, e, s)
    ensures Survived(items, next, v)
  {
    hide Reachable, Walk;
    EmptiedLength(items, one, v, iters);
    forall s | 0 <= s < |items|
      ensures Active(next, s) <==> Active(items, s) && !Reachable(items, v, s)
      ensures Active(next, s) ==> Plain(next[s]) == Plain(items[s])
    {
      if Active(next, s) {
        assert Plain(next[s]) == Plain(two[s]);
        SelfReached(two, e);
        assert s != v && s != e;
        assert Plain(one[s]) == Plain(items[s]);
      }
    }
  }

  lemma SelfReached(items: seq<Eval>, v: int)
    ensures Active(items, v) ==> Reachable(items, v, v)
  {
    if Active(items, v) {
      assert Walk(items, [v]) && [v][0] == v && [v][|[v]| - 1] == v;
    }
  }

  /** A new batch is up to date. */
  lemma FreshBatch(items: seq<Eval>, iters: nat, epoch: seq<nat>, polled: seq<nat>, batch: seq<Event>,
                   events: seq<Event>)
    requires FreshOk(items, iters, epoch, polled, batch)
    requires forall k :: 0 <= k < |events| ==> Active(items, events[k].slot)
    ensures FreshOk(items, iters + 1, epoch, epoch, events)
  {
    var later := iters + 1;
    forall k | 0 <= k < |events|
      ensures EventOk(items, later, epoch, epoch, events[k])
    {
      assert Active(items, events[k].slot);
    }
  }

  lemma NoneArmed(items: seq<Eval>, ts: seq<int>, start: int, end: int)
    requires TimersOk(items, ts, start, end) && start == NONE
    ensures ts == []
  {
    if |ts| > 0 {
      TimerRange(items, ts);
    }
  }

  lemma TimerRange(items: seq<Eval>, ts: seq<int>)
    requires Linked(items, ts) && |ts| > 0
    ensures ts[0] != NONE
  {
    assert TimerAt(items, ts, 0);
  }

  lemma FirstTimer(items: seq<Eval>, ts: seq<int>, start: int, end: int)
    requires TimersOk(items, ts, start, end) && start != NONE
    ensures |ts| > 0 && start == ts[0] && 0 <= start < |items| && start in ts
  {
    assert TimerAt(items, ts, 0);
  }

  lemma MinusFirst(ts: seq<int>)
    requires |ts| > 0
    ensures ts == [ts[0]] + Minus(ts, ts[0]) && Minus(ts, ts[0]) != ts
  {
  }

  lemma ClosedTimers(items: seq<Eval>, v: int)
    requires 0 <= v < |items|
    ensures OnlyTimers(items, Closed(items, v))
  {
    ClosedBodies(items, v);
    TimerBodies(items, Closed(items, v), v, 0);
  }

  lemma FewerActive(items: seq<Eval>, next: seq<Eval>, ts: seq<int>, us: seq<int>)
    requires AllActive(items, ts) && OnlyTimers(items, next) && |ts| > 0 && ts == [ts[0]] + us
    ensures AllActive(next, us) && Active(next, ts[0])
  {
    assert Active(items, ts[0]);
    OnlyTimersAt(items, next, ts[0]);
    forall k | 0 <= k < |us|
      ensures Active(next, us[k])
    {
      assert us[k] == ts[k + 1] && Active(items, ts[k + 1]);
      OnlyTimersAt(items, next, us[k]);
    }
  }
}
