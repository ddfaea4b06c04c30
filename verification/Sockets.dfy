/** The socket functions over the table, other threads running wherever the lock is free. */
module Sockets {
  import opened SocketTable

  /** The events of one thread, in order. */
  function Mine(es: seq<Event>, me: nat): seq<Action> {
    if es == [] then [] else (if es[0].who == me then [es[0].what] else []) + Mine(es[1..], me)
  }

  lemma Assoc(a: seq<Action>, b: seq<Action>, c: seq<Action>)
    ensures a + (b + c) == (a + b) + c
  {
  }

  lemma {:induction false} MineJoin(es: seq<Event>, fs: seq<Event>, me: nat)
    ensures Mine(es + fs, me) == Mine(es, me) + Mine(fs, me)
  {
    if es == [] {
      assert [] + fs == fs;
    } else {
      var first := if es[0].who == me then [es[0].what] else [];
      assert (es + fs)[1..] == es[1..] + fs;
      MineJoin(es[1..], fs, me);
      Assoc(first, Mine(es[1..], me), Mine(fs, me));
    }
  }

  lemma {:induction false} RunsJoin(w: World, es: seq<Event>, fs: seq<Event>)
    requires Runs(w, es) && Runs(Run(w, es), fs)
    ensures Runs(w, es + fs) && Run(w, es + fs) == Run(Run(w, es), fs)
    decreases |es|
  {
    if es == [] {
      assert [] + fs == fs;
    } else {
      assert (es + fs)[1..] == es[1..] + fs;
      RunsJoin(Step(w, es[0]), es[1..], fs);
    }
  }

  /** From `w` the run `es`, in which thread `me` does just `did`, leads to `v`. */
  ghost predicate Went(w: World, es: seq<Event>, v: World, me: nat, did: seq<Action>) {
    Runs(w, es) && v == Run(w, es) && Mine(es, me) == did
  }

  lemma Stayed(w: World, me: nat)
    ensures Went(w, [], w, me, [])
  {
  }

  lemma MineOne(e: Event, me: nat)
    ensures Mine([e], me) == if e.who == me then [e.what] else []
  {
    assert [e][1..] == [];
  }

  lemma WentOn(w: World, es: seq<Event>, v: World, me: nat, did: seq<Action>, e: Event)
    requires Went(w, es, v, me, did) && Enabled(v, e)
    ensures Went(w, es + [e], Step(v, e), me, if e.who == me then did + [e.what] else did)
  {
    assert [e][1..] == [];
    assert Runs(v, [e]) && Run(v, [e]) == Step(v, e);
    hide Runs, Run, Mine;
    RunsJoin(w, es, [e]);
    MineJoin(es, [e], me);
    MineOne(e, me);
    assert did + [] == did;
  }

  lemma WentTwice(w: World, es: seq<Event>, v: World, fs: seq<Event>, u: World, me: nat, did: seq<Action>,
                  more: seq<Action>)
    requires Went(w, es, v, me, did) && Went(v, fs, u, me, more)
    ensures Went(w, es + fs, u, me, did + more)
  {
    RunsJoin(w, es, fs);
    MineJoin(es, fs, me);
  }

  lemma WentFrom(w: World, e: Event, fs: seq<Event>, u: World, me: nat, more: seq<Action>)
    requires Enabled(w, e) && Went(Step(w, e), fs, u, me, more)
    ensures Went(w, [e] + fs, u, me, if e.who == me then [e.what] + more else more)
  {
    assert ([e] + fs)[1..] == fs;
  }

  /** A step of another thread, seen by `me`. */
  lemma OtherStep(w: World, e: Event, me: nat)
    requires Enabled(w, e) && Inv(w) && e.who != me && me < |w.threads|
    ensures var v := Step(w, e);
      && |v.threads| == |w.threads| && |v.slots| == |w.slots| && v.threads[me] == w.threads[me]
      && w.closed <= v.closed
      && forall i :: 0 <= i < |w.slots| && Holds(w.threads[me], i) ==>
          v.slots[i].conn == w.slots[i].conn && v.slots[i].used > 0
  {
    hide Inv, Enabled, Step;
    ThreadsStay(w, e);
    ClosedStays(w, e);
    StepKeeps(w, e);
    HolderUsed(Step(w, e), me);
    forall i | 0 <= i < |w.slots| && Holds(w.threads[me], i)
      ensures Step(w, e).slots[i].conn == w.slots[i].conn
    {
      HeldStays(w, e, me, i);
    }
  }

  lemma ClosedStays(w: World, e: Event)
    requires Enabled(w, e)
    ensures w.closed <= Step(w, e).closed
  {
  }

  lemma HolderUsed(w: World, me: nat)
    requires Inv(w) && me < |w.threads|
    ensures forall i: nat :: Holds(w.threads[me], i) ==> i < |w.slots| && w.slots[i].used > 0
    ensures w.threads[me].Using? ==>
      w.threads[me].slot < |w.slots| && w.slots[w.threads[me].slot].conn == Some(w.threads[me].seen)
    ensures w.threads[me].Bare? ==> w.threads[me].slot < |w.slots| && w.slots[w.threads[me].slot].conn.None?
  {
    forall i: nat | Holds(w.threads[me], i)
      ensures i < |w.slots| && w.slots[i].used > 0
    {
      HolderCounts(w, me, i);
    }
  }

  /** `me` is the last to hold the closed entry `i`. */
  predicate Leaving(w: World, i: nat) {
    i < |w.slots| && w.slots[i].used == 1 && w.slots[i].free && w.slots[i].conn.Some?
  }

  /** A connection is at `i` and no free of it is pending. */
  predicate Open(slots: seq<Slot>, i: int) {
    0 <= i < |slots| && !slots[i].free && slots[i].conn.Some?
  }

  /** The steps of a thread that looks an entry up: none for a descriptor out of range; the
      count, which is refused if a free is pending; and the look, after which it leaves an
      entry without a connection. */
  predicate Looks(slots: seq<Slot>, i: int, found: bool, did: seq<Action>) {
    if !(0 <= i < |slots|) then !found && did == []
    else if slots[i].free then !found && did == [Get(i)]
    else if found then did == [Get(i), Look]
    else did == [Get(i), Look, Done]
  }

  /** The steps of lwip_close: the look and, if a connection is found, the close or only the
      leaving, and the deletion that may fall to it. */
  predicate Closes(slots: seq<Slot>, i: int, found: bool, closed: bool, did: seq<Action>) {
    if !found then !closed && Looks(slots, i, false, did)
    else
      && 0 <= i < |slots| && !slots[i].free
      && var last := if closed then Close else Done;
      did == [Get(i), Look, last] || did == [Get(i), Look, last, Delete]
  }

  /** One step for each entry tried. */
  function Places(n: nat): seq<Action> {
    seq(n, _ => Place)
  }

  lemma OneMorePlace(n: nat)
    ensures Places(0) == [] && Places(n) + [Place] == Places(n + 1) && Places(n) + [] == Places(n)
  {
  }

  class Table {
    const offset: nat
    var slots: seq<Slot>
    /** The table with the threads around it. */
    var world: World

    ghost predicate Valid()
      reads this
    {
      world.slots == slots && Inv(world)
    }

    constructor (offset: nat, slots: nat, threads: nat)
      ensures Valid() && world == Start(slots, threads) && this.offset == offset
    {
      this.offset := offset;
      this.slots := Start(slots, threads).slots;
      world := Start(slots, threads);
      StartsRight(slots, threads);
    }

    ghost predicate Stands(me: nat, p: Thread)
      reads this
    {
      me < |world.threads| && world.threads[me] == p
    }

    /** The lock is free: other threads take at most `quota` steps. */
    method Others(me: nat, quota: nat) returns (left: nat, ghost es: seq<Event>)
      requires Valid() && me < |world.threads|
      modifies this
      ensures Valid() && left <= quota && Went(old(world), es, world, me, [])
      ensures Stands(me, old(world.threads[me])) && |slots| == |old(slots)|
      ensures forall i :: 0 <= i < |slots| && Holds(world.threads[me], i) ==>
        slots[i].conn == old(slots)[i].conn && slots[i].used > 0
      ensures quota == 0 ==> world == old(world)
      ensures old(world).closed <= world.closed
    {
      hide Inv, Step, Enabled, Went, Holds;
      left, es := quota, [];
      Stayed(world, me);
      HolderUsed(world, me);
      while left > 0
        invariant Valid() && left <= quota && Went(old(world), es, world, me, [])
        invariant Stands(me, old(world.threads[me])) && |slots| == |old(slots)|
        invariant forall i :: 0 <= i < |slots| && Holds(world.threads[me], i) ==>
          slots[i].conn == old(slots)[i].conn && slots[i].used > 0
        invariant quota == 0 ==> world == old(world)
        invariant old(world).closed <= world.closed
      {
        if * {
          break;
        }
        left := left - 1;
        var e: Event := *;
        if e.who != me && Enabled(world, e) {
          OtherStep(world, e, me);
          WentOn(old(world), es, world, me, [], e);
          StepKeeps(world, e);
          es := es + [e];
          world := Step(world, e);
          slots := world.slots;
        }
      }
    }

    /** sock_inc_used under the lock. */
    method IncUsed(me: nat, i: nat) returns (ok: bool)
      requires Valid() && Enabled(world, Event(me, Get(i)))
      modifies this
      ensures Valid() && world == Step(old(world), Event(me, Get(i)))
      ensures ok <==> !old(slots)[i].free
    {
      StepKeeps(world, Event(me, Get(i)));
      if slots[i].free {
        return false;
      }
      slots := slots[i := slots[i].(used := slots[i].used + 1)];
      world := world.(slots := slots, threads := world.threads[me := Counted(i)]);
      return true;
    }

    /** free_socket_locked: what is to be freed outside the lock, if this was the last holder. */
    method FreeLocked(i: nat, tcp: bool) returns (freed: bool, conn: Option<Conn>)
      requires i < |slots| && slots[i].used > 0
      modifies `slots
      ensures slots == old(slots)[i := Free(old(slots)[i], tcp)]
      ensures freed <==> old(slots)[i].used == 1
      ensures conn == if freed then old(slots)[i].conn else None
    {
      slots := slots[i := slots[i].(used := slots[i].used - 1)];
      if slots[i].used > 0 {
        slots := slots[i := slots[i].(free := true, tcp := tcp)];
        return false, None;
      }
      conn := slots[i].conn;
      slots := slots[i := slots[i].(conn := None)];
      return true, conn;
    }

    /** done_socket: leaves the entry, and frees its connection if it was the last to leave a closed one. */
    method DoneSocket(me: nat, i: nat, quota: nat) returns (left: nat, ghost es: seq<Event>)
      requires Valid() && me < |world.threads| && Holds(world.threads[me], i) && !world.threads[me].Counted?
      modifies this
      ensures Valid() && left <= quota && Stands(me, Idle) && |slots| == |old(slots)|
      ensures Went(old(world), es, world, me,
                if Leaving(old(world), i) then [Done, Delete] else [Done])
    {
      hide Inv, Went;
      HolderUsed(world, me);
      ghost var w := world;
      ghost var e := Event(me, Done);
      StepKeeps(world, e);
      var tcp, conn := false, None;
      slots := slots[i := slots[i].(used := slots[i].used - 1)];
      if slots[i].used == 0 && slots[i].free {
        slots := slots[i := slots[i].(used := 1)];
        tcp := slots[i].tcp;
        var _, c := FreeLocked(i, tcp);
        conn := c;
      }
      var next := if conn.Some? then Deleting(conn.value, tcp) else Idle;
      world := world.(slots := slots, threads := world.threads[me := next]);
      assert world == Step(w, e);
      ghost var fs, more := [], if world.threads[me].Deleting? then [Delete] else [];
      left, fs := Released(me, quota);
      es := [e] + fs;
      WentFrom(w, e, fs, world, me, more);
      assert [e.what] + more == if more == [] then [e.what] else [e.what, Delete];
    }

    /** Outside the lock: frees what was handed out, if anything. */
    method Released(me: nat, quota: nat) returns (left: nat, ghost es: seq<Event>)
      requires Valid() && me < |world.threads| && (world.threads[me].Idle? || world.threads[me].Deleting?)
      modifies this
      ensures Valid() && left <= quota && Stands(me, Idle) && |slots| == |old(slots)|
      ensures old(world).closed <= world.closed
      ensures Went(old(world), es, world, me, if old(world).threads[me].Deleting? then [Delete] else [])
    {
      hide Inv, Went;
      left, es := quota, [];
      Stayed(world, me);
      if world.threads[me].Deleting? {
        left, es := Others(me, quota);
        StepKeeps(world, Event(me, Delete));
        WentOn(old(world), es, world, me, [], Event(me, Delete));
        es := es + [Event(me, Delete)];
        assert [] + [Delete] == [Delete];
        world := Step(world, Event(me, Delete));
      }
    }

    /** free_socket by a thread that uses the entry: the connection is freed here if nobody
        else holds the entry, and otherwise left to the last who does. */
    method FreeSocket(me: nat, i: nat, tcp: bool, quota: nat) returns (left: nat, ghost es: seq<Event>)
      requires Valid() && me < |world.threads| && world.threads[me].Using? && world.threads[me].slot == i
      requires tcp == world.threads[me].seen.tcp
      modifies this
      ensures Valid() && left <= quota && Stands(me, Idle) && |slots| == |old(slots)|
      ensures old(world.threads[me].seen) in world.closed
      ensures i < |old(slots)|
      ensures Went(old(world), es, world, me, if old(slots)[i].used == 1 then [Close, Delete] else [Close])
    {
      hide Inv, Went;
      HolderUsed(world, me);
      ghost var w := world;
      var seen := world.threads[me].seen;
      ghost var e := Event(me, Close);
      StepKeeps(world, e);
      var freed, conn := FreeLocked(i, tcp);
      world := world.(slots := slots, closed := world.closed + {seen},
                      threads := world.threads[me := if conn.Some? then Deleting(conn.value, tcp) else Idle]);
      assert world == Step(w, e);
      ghost var fs, more := [], if world.threads[me].Deleting? then [Delete] else [];
      left, fs := Released(me, quota);
      es := [e] + fs;
      WentFrom(w, e, fs, world, me, more);
      assert [e.what] + more == if more == [] then [e.what] else [e.what, Delete];
    }

    /** get_socket: the entry, held, if the descriptor is in range, no free of it is pending and it has a connection. */
    method GetSocket(me: nat, fd: int, quota: nat)
      returns (found: Option<nat>, left: nat, ghost es: seq<Event>, ghost did: seq<Action>)
      requires Valid() && Stands(me, Idle)
      modifies this
      ensures Valid() && left <= quota && |slots| == |old(slots)|
      ensures found.None? ==> Stands(me, Idle)
      ensures found.Some? ==> fd == found.value + offset && found.value < |slots| && slots[found.value].conn.Some?
      ensures found.Some? ==> Stands(me, Using(found.value, slots[found.value].conn.value))
      ensures Went(old(world), es, world, me, did) && Looks(old(slots), fd - offset, found.Some?, did)
      ensures quota == 0 ==> (found.Some? <==> Open(old(slots), fd - offset))
    {
      hide Inv, Went, Step;
      ghost var w := world;
      left, es, did := quota, [], [];
      Stayed(world, me);
      if fd - offset < 0 || fd - offset >= |slots| {
        return None, left, es, did;
      }
      var i := fd - offset;
      var ok := IncUsed(me, i);
      GetStep(w, me, i);
      WentOn(w, es, w, me, [], Event(me, Get(i)));
      es, did := es + [Event(me, Get(i))], [Get(i)];
      assert [] + [Get(i)] == [Get(i)];
      if !ok {
        return None, left, es, did;
      }
      ghost var fs;
      ghost var v := world;
      assert [Get(i)] + [] == [Get(i)] && [Get(i)] + [Look] == [Get(i), Look];
      left, fs := Others(me, quota);
      WentTwice(w, es, v, fs, world, me, [Get(i)], []);
      es := es + fs;
      v := world;
      StepKeeps(world, Event(me, Look));
      WentOn(w, es, world, me, [Get(i)], Event(me, Look));
      es, did := es + [Event(me, Look)], [Get(i), Look];
      LookStep(world, me);
      world := Step(world, Event(me, Look));
      if slots[i].conn.Some? {
        return Some(i), left, es, did;
      }
      v := world;
      assert quota == 0 ==> w.slots[i].conn.None?;
      left, fs := DoneSocket(me, i, left);
      WentTwice(w, es, v, fs, world, me, did, [Done]);
      assert did + [Done] == [Get(i), Look, Done];
      return None, left, es + fs, did + [Done];
    }

    /** lwip_close; `prepared` says whether netconn_prepare_delete succeeds. */
    method CloseSocket(me: nat, fd: int, prepared: bool, quota: nat)
      returns (r: int, ghost seen: Option<Conn>, ghost es: seq<Event>, ghost did: seq<Action>)
      requires Valid() && Stands(me, Idle)
      modifies this
      ensures Valid() && Stands(me, Idle) && (r == 0 || r == -1)
      ensures Went(old(world), es, world, me, did) && Closes(old(slots), fd - offset, seen.Some?, r == 0, did)
      ensures r == 0 <==> prepared && seen.Some?
      ensures r == 0 ==> seen.value in world.closed
      ensures quota == 0 && prepared ==> (r == 0 <==> Open(old(slots), fd - offset))
    {
      hide Inv, Went, Step;
      ghost var w := world;
      var found, left, es0, did0 := GetSocket(me, fd, quota);
      es, did := es0, did0;
      if found.None? {
        return -1, None, es, did;
      }
      var i := found.value;
      var tcp := slots[i].conn.value.tcp;
      seen := slots[i].conn;
      ghost var v := world;
      ghost var fs, last;
      left, fs := Others(me, left);
      WentTwice(w, es, v, fs, world, me, did, []);
      assert did + [] == did;
      es := es + fs;
      v := world;
      if !prepared {
        left, fs := DoneSocket(me, i, left);
        last := if Leaving(v, i) then [Done, Delete] else [Done];
        WentTwice(w, es, v, fs, world, me, did, last);
        assert did + last == if Leaving(v, i) then [Get(i), Look, Done, Delete] else [Get(i), Look, Done];
        return -1, seen, es + fs, did + last;
      }
      left, fs := FreeSocket(me, i, tcp, left);
      last := if v.slots[i].used == 1 then [Close, Delete] else [Close];
      WentTwice(w, es, v, fs, world, me, did, last);
      assert did + last == if v.slots[i].used == 1 then [Get(i), Look, Close, Delete] else [Get(i), Look, Close];
      return 0, seen, es + fs, did + last;
    }

    /** alloc_socket for a new connection: the lock is taken anew for each entry. */
    method AllocSocket(me: nat, conn: Conn, quota: nat) returns (found: Option<nat>, left: nat, ghost es: seq<Event>)
      requires Valid() && Stands(me, Placing(0, conn))
      modifies this
      ensures Valid() && left <= quota && |slots| == |old(slots)|
      ensures Went(old(world), es, world, me, Places(if found.Some? then found.value + 1 else |slots| + 1))
      ensures found.Some? ==>
        found.value < |slots| && slots[found.value].conn == Some(conn) && Stands(me, Using(found.value, conn))
      ensures found.None? ==> Stands(me, Deleting(conn, conn.tcp)) && conn in world.refused
      ensures quota == 0 && found.Some? ==> InUseBelow(old(slots), found.value) && !InUse(old(slots)[found.value])
      ensures quota == 0 && found.None? ==> InUseBelow(old(slots), |old(slots)|)
    {
      hide Inv, Went, Step;
      ghost var w := world;
      left, es := quota, [];
      Stayed(world, me);
      OneMorePlace(0);
      var i := 0;
      while i < |slots|
        invariant i <= |slots| == |old(slots)| && left <= quota
        invariant Valid() && Stands(me, Placing(i, conn)) && Went(w, es, world, me, Places(i))
        invariant quota == 0 ==> slots == old(slots) && InUseBelow(slots, i)
      {
        ghost var v := world;
        ghost var fs;
        left, fs := Others(me, left);
        WentTwice(w, es, v, fs, world, me, Places(i), []);
        OneMorePlace(i);
        es := es + fs;
        StepKeeps(world, Event(me, Place));
        WentOn(w, es, world, me, Places(i), Event(me, Place));
        es := es + [Event(me, Place)];
        PlaceStep(world, me);
        world := Step(world, Event(me, Place));
        if slots[i].conn.None? && slots[i].used == 0 {
          slots := slots[i := Slot(1, false, false, Some(conn))];
          return Some(i), left, es;
        }
        i := i + 1;
      }
      StepKeeps(world, Event(me, Place));
      WentOn(w, es, world, me, Places(i), Event(me, Place));
      OneMorePlace(i);
      PlaceStep(world, me);
      world := Step(world, Event(me, Place));
      return None, left, es + [Event(me, Place)];
    }
  }

  predicate InUse(s: Slot) {
    s.conn.Some? || s.used > 0
  }

  predicate InUseBelow(slots: seq<Slot>, n: nat)
    requires n <= |slots|
  {
    forall i :: 0 <= i < n ==> InUse(slots[i])
  }

  lemma GetStep(w: World, me: nat, i: nat)
    requires Enabled(w, Event(me, Get(i)))
    ensures var v := Step(w, Event(me, Get(i)));
      && |v.slots| == |w.slots| && |v.threads| == |w.threads| && v.slots[i].conn == w.slots[i].conn
      && v.threads[me] == if w.slots[i].free then Idle else Counted(i)
  {
  }

  lemma LookStep(w: World, me: nat)
    requires Enabled(w, Event(me, Look))
    ensures var v, i := Step(w, Event(me, Look)), w.threads[me].slot;
      && v.slots == w.slots && |v.threads| == |w.threads|
      && v.threads[me] == if w.slots[i].conn.Some? then Using(i, w.slots[i].conn.value) else Bare(i)
  {
  }

  lemma PlaceStep(w: World, me: nat)
    requires Enabled(w, Event(me, Place))
    ensures var v, p := Step(w, Event(me, Place)), w.threads[me];
      && |v.threads| == |w.threads|
      && (p.next >= |w.slots| ==>
          v.slots == w.slots && v.threads[me] == Deleting(p.made, p.made.tcp) && p.made in v.refused)
      && (p.next < |w.slots| && !InUse(w.slots[p.next]) ==>
          v.slots == w.slots[p.next := Slot(1, false, false, Some(p.made))] && v.threads[me] == Using(p.next, p.made))
      && (p.next < |w.slots| && InUse(w.slots[p.next]) ==>
          v.slots == w.slots && v.threads[me] == Placing(p.next + 1, p.made))
  {
  }
}
