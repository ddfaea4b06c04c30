/** The reference protocol of the socket table: threads that look a descriptor up, leave it,
    close it and place new connections, one locked section at a time. */
module SocketTable {
  datatype Option<T> = None | Some(value: T)

  datatype Conn = Conn(id: nat, tcp: bool)

  /** fd_used, the FREE and TCP bits of fd_free_pending, and conn. */
  datatype Slot = Slot(used: nat, free: bool, tcp: bool, conn: Option<Conn>)

  // ---------- The locked sections ----------

  /** sock_inc_used; refused once a free is pending. */
  function Inc(s: Slot): Slot {
    if s.free then s else s.(used := s.used + 1)
  }

  /** free_socket_locked. */
  function Free(s: Slot, tcp: bool): Slot
    requires s.used > 0
  {
    if s.used > 1 then Slot(s.used - 1, true, tcp, s.conn) else Slot(0, s.free, s.tcp, None)
  }

  /** done_socket under the lock. */
  function Leave(s: Slot): Slot
    requires s.used > 0
  {
    if s.used == 1 && s.free then Free(s, s.tcp) else s.(used := s.used - 1)
  }

  /** Where a thread stands between two locked sections. */
  datatype Thread =
    | Idle
    | Counted(slot: nat)                  // has incremented fd_used, has not yet read conn
    | Bare(slot: nat)                     // has read a null conn, is about to call done_socket
    | Using(slot: nat, seen: Conn)        // got the socket
    | Placing(next: nat, made: Conn)     // in the loop of alloc_socket
    | Deleting(conn: Conn, tcp: bool)     // outside the lock, about to free what it was handed

  predicate Holds(p: Thread, i: nat) {
    (p.Counted? || p.Bare? || p.Using?) && p.slot == i
  }

  datatype Action = Get(slot: nat) | Look | Done | Close | Create(conn: Conn) | Place | Delete

  datatype Event = Event(who: nat, what: Action)

  /** `given` are the connections ever made, `closed` those free_socket was called for,
      `refused` those that found no free entry, `gone` those freed, in order. */
  datatype World = World(slots: seq<Slot>, threads: seq<Thread>, given: set<Conn>,
                         closed: set<Conn>, refused: set<Conn>, gone: seq<Conn>)

  predicate Enabled(w: World, e: Event) {
    && e.who < |w.threads|
    && var p := w.threads[e.who];
       match e.what
       case Get(i) => p.Idle? && i < |w.slots|
       case Look => p.Counted? && p.slot < |w.slots|
       case Done => (p.Bare? || p.Using?) && p.slot < |w.slots| && w.slots[p.slot].used > 0
       case Close => p.Using? && p.slot < |w.slots| && w.slots[p.slot].used > 0
       case Create(c) => p.Idle? && c !in w.given
       case Place => p.Placing?
       case Delete => p.Deleting?
  }

  function Handed(s: Slot, tcp: bool): Thread {
    if s.used == 1 && s.conn.Some? then Deleting(s.conn.value, tcp) else Idle
  }

  function Step(w: World, e: Event): World
    requires Enabled(w, e)
  {
    var t, p := e.who, w.threads[e.who];
    match e.what
    case Get(i) =>
      if w.slots[i].free then w
      else w.(slots := w.slots[i := Inc(w.slots[i])], threads := w.threads[t := Counted(i)])
    case Look =>
      var c := w.slots[p.slot].conn;
      w.(threads := w.threads[t := if c.None? then Bare(p.slot) else Using(p.slot, c.value)])
    case Done =>
      var s := w.slots[p.slot];
      w.(slots := w.slots[p.slot := Leave(s)], threads := w.threads[t := if s.free then Handed(s, s.tcp) else Idle])
    case Close =>
      var s := w.slots[p.slot];
      w.(slots := w.slots[p.slot := Free(s, p.seen.tcp)], threads := w.threads[t := Handed(s, p.seen.tcp)],
         closed := w.closed + {p.seen})
    case Create(c) =>
      w.(threads := w.threads[t := Placing(0, c)], given := w.given + {c})
    case Place =>
      if p.next >= |w.slots| then
        w.(threads := w.threads[t := Deleting(p.made, p.made.tcp)], refused := w.refused + {p.made})
      else if w.slots[p.next].conn.None? && w.slots[p.next].used == 0 then
        w.(slots := w.slots[p.next := Slot(1, false, false, Some(p.made))],
           threads := w.threads[t := Using(p.next, p.made)])
      else
        w.(threads := w.threads[t := Placing(p.next + 1, p.made)])
    case Delete =>
      w.(threads := w.threads[t := Idle], gone := w.gone + [p.conn])
  }

  /** Every entry free, every thread idle. */
  function Start(slots: nat, threads: nat): World {
    World(seq(slots, _ => Slot(0, false, false, None)), seq(threads, _ => Idle), {}, {}, {}, [])
  }

  predicate Runs(w: World, es: seq<Event>)
    decreases |es|
  {
    es == [] || (Enabled(w, es[0]) && Runs(Step(w, es[0]), es[1..]))
  }

  function Run(w: World, es: seq<Event>): World
    requires Runs(w, es)
    decreases |es|
  {
    if es == [] then w else Run(Step(w, es[0]), es[1..])
  }

  // ---------- What always holds ----------

  function Holders(threads: seq<Thread>, i: nat): set<nat> {
    set t | 0 <= t < |threads| && Holds(threads[t], i)
  }

  ghost predicate Tallied(w: World) {
    && (forall i :: 0 <= i < |w.slots| ==> w.slots[i].used == |Holders(w.threads, i)|)
    && (forall t, i: nat :: 0 <= t < |w.threads| && Holds(w.threads[t], i) ==> i < |w.slots|)
  }

  /** What a thread has read of its entry is still so. */
  ghost predicate Sees(w: World) {
    forall t :: 0 <= t < |w.threads| ==>
      && (w.threads[t].Using? ==>
          w.threads[t].slot < |w.slots| && w.slots[w.threads[t].slot].conn == Some(w.threads[t].seen))
      && (w.threads[t].Bare? ==> w.threads[t].slot < |w.slots| && w.slots[w.threads[t].slot].conn.None?)
  }

  /** A free is pending for exactly the closed connections still in an entry, and somebody is left to do it. */
  ghost predicate Pending(w: World) {
    forall i :: 0 <= i < |w.slots| ==> var s := w.slots[i];
      && (s.conn.None? && s.free ==> s.used == 0)
      && (s.conn.Some? && s.free ==> s.used > 0 && s.tcp == s.conn.value.tcp)
      && (s.conn.Some? ==> (s.free <==> s.conn.value in w.closed) && s.conn.value !in w.refused)
  }

  datatype Spot = InSlot(slot: nat) | With(thread: nat) | Gone(position: nat)

  predicate Owns(p: Thread, c: Conn) {
    (p.Placing? && p.made == c) || (p.Deleting? && p.conn == c)
  }

  predicate At(w: World, c: Conn, p: Spot) {
    match p
    case InSlot(i) => i < |w.slots| && w.slots[i].conn == Some(c)
    case With(t) => t < |w.threads| && Owns(w.threads[t], c)
    case Gone(k) => k < |w.gone| && w.gone[k] == c
  }

  /** Every connection made is in exactly one spot. */
  ghost predicate OneSpot(w: World) {
    && (forall c, p, q :: At(w, c, p) && At(w, c, q) ==> p == q)
    && (forall c, p :: At(w, c, p) ==> c in w.given)
    && (forall c :: c in w.given ==> exists p :: At(w, c, p))
  }

  ghost predicate Ended(w: World) {
    && w.closed <= w.given && w.refused <= w.given
    && (forall t :: 0 <= t < |w.threads| ==>
         && (w.threads[t].Placing? ==> w.threads[t].made !in w.closed && w.threads[t].made !in w.refused)
         && (w.threads[t].Deleting? ==>
             w.threads[t].tcp == w.threads[t].conn.tcp && w.threads[t].conn in w.closed + w.refused))
    && (forall k :: 0 <= k < |w.gone| ==> w.gone[k] in w.closed + w.refused)
  }

  ghost predicate Inv(w: World) {
    Tallied(w) && Sees(w) && Pending(w) && OneSpot(w) && Ended(w)
  }

  // ---------- Kept by every step ----------

  lemma StartsRight(slots: nat, threads: nat)
    ensures Inv(Start(slots, threads))
  {
    var w := Start(slots, threads);
    forall i | 0 <= i < slots
      ensures w.slots[i].used == |Holders(w.threads, i)|
    {
      assert Holders(w.threads, i) == {};
    }
    assert forall c, p :: !At(w, c, p);
  }

  lemma HoldersAre(threads: seq<Thread>, t: nat, p: Thread, i: nat, u: nat)
    requires t < |threads|
    ensures u in Holders(threads, i) <==> u < |threads| && Holds(threads[u], i)
    ensures u in Holders(threads[t := p], i) <==> if u == t then Holds(p, i) else u in Holders(threads, i)
  {
  }

  lemma OneInOrOut(h: set<nat>, g: set<nat>, t: nat)
    requires forall u: nat :: u != t ==> (u in g <==> u in h)
    ensures g == if t in g then h + {t} else h - {t}
    ensures |g| == |h| - (if t in h then 1 else 0) + (if t in g then 1 else 0)
  {
    var rest := h - {t};
    assert g == if t in g then rest + {t} else rest;
    assert h == if t in h then rest + {t} else rest;
  }

  /** A thread moves from holding or not holding an entry to holding or not holding it. */
  lemma HoldersAfter(threads: seq<Thread>, t: nat, p: Thread, i: nat)
    requires t < |threads|
    ensures Holders(threads[t := p], i) == if Holds(p, i) then Holders(threads, i) + {t} else Holders(threads, i) - {t}
    ensures t in Holders(threads, i) <==> Holds(threads[t], i)
    ensures |Holders(threads[t := p], i)|
      == |Holders(threads, i)| - (if Holds(threads[t], i) then 1 else 0) + (if Holds(p, i) then 1 else 0)
  {
    hide Holders, Holds;
    forall u: nat
      ensures u in Holders(threads[t := p], i) <==> if u == t then Holds(p, i) else u in Holders(threads, i)
    {
      HoldersAre(threads, t, p, i, u);
    }
    HoldersAre(threads, t, p, i, t);
    OneInOrOut(Holders(threads, i), Holders(threads[t := p], i), t);
  }

  /** A step counts a thread in and out as it starts and ends to hold the entry. */
  lemma UsedMoves(w: World, e: Event, i: nat)
    requires Enabled(w, e) && i < |w.slots|
    ensures e.who < |w.threads|
    ensures var v := Step(w, e);
      && |v.slots| == |w.slots| && v.threads == w.threads[e.who := v.threads[e.who]]
      && v.slots[i].used == w.slots[i].used - (if Holds(w.threads[e.who], i) then 1 else 0)
                            + (if Holds(v.threads[e.who], i) then 1 else 0)
      && (v.threads[e.who].Counted? || v.threads[e.who].Bare? || v.threads[e.who].Using? ==>
          v.threads[e.who].slot < |w.slots|)
  {
  }

  lemma StepTallies(w: World, e: Event)
    requires Enabled(w, e) && Tallied(w)
    ensures Tallied(Step(w, e))
  {
    hide Step, Enabled, Holders;
    var v := Step(w, e);
    ThreadsStay(w, e);
    forall i | 0 <= i < |w.slots|
      ensures |v.slots| == |w.slots| && v.threads == w.threads[e.who := v.threads[e.who]]
      ensures v.slots[i].used == |Holders(v.threads, i)|
    {
      UsedMoves(w, e, i);
      HoldersAfter(w.threads, e.who, v.threads[e.who], i);
    }
  }

  lemma ThreadsStay(w: World, e: Event)
    requires Enabled(w, e)
    ensures e.who < |w.threads|
    ensures var v := Step(w, e);
      && |v.slots| == |w.slots| && v.threads == w.threads[e.who := v.threads[e.who]]
      && (v.threads[e.who].Counted? || v.threads[e.who].Bare? || v.threads[e.who].Using? ==>
          v.threads[e.who].slot < |w.slots|)
  {
  }

  /** A thread that holds an entry is counted there. */
  lemma HolderCounts(w: World, t: nat, i: nat)
    requires Tallied(w) && t < |w.threads| && Holds(w.threads[t], i)
    ensures i < |w.slots| && w.slots[i].used > 0
    ensures w.slots[i].used == 1 ==> Holders(w.threads, i) == {t}
  {
    var h := Holders(w.threads, i);
    assert t in h;
    if w.slots[i].used == 1 {
      assert |h - {t}| == 0;
      assert h == {t};
    }
  }

  /** While a thread holds an entry, a step of another leaves its connection alone. */
  lemma HeldStays(w: World, e: Event, t: nat, i: nat)
    requires Enabled(w, e) && Inv(w) && t < |w.threads| && t != e.who && Holds(w.threads[t], i)
    ensures i < |w.slots| && Step(w, e).slots[i].conn == w.slots[i].conn
  {
    HolderCounts(w, t, i);
    var p := w.threads[e.who];
    if Holds(p, i) {
      HolderCounts(w, e.who, i);
    }
  }

  lemma StepSees(w: World, e: Event)
    requires Enabled(w, e) && Inv(w)
    ensures Sees(Step(w, e))
  {
    var v := Step(w, e);
    forall t | 0 <= t < |v.threads|
      ensures v.threads[t].Using? ==>
        v.threads[t].slot < |v.slots| && v.slots[v.threads[t].slot].conn == Some(v.threads[t].seen)
      ensures v.threads[t].Bare? ==> v.threads[t].slot < |v.slots| && v.slots[v.threads[t].slot].conn.None?
    {
      var p := w.threads[t];
      if t != e.who && (p.Using? || p.Bare?) {
        HeldStays(w, e, t, p.slot);
      }
    }
  }

  lemma StepPending(w: World, e: Event)
    requires Enabled(w, e) && Inv(w)
    ensures Pending(Step(w, e))
  {
    var v, p := Step(w, e), w.threads[e.who];
    forall i | 0 <= i < |v.slots|
      ensures var s := v.slots[i];
        && (s.conn.None? && s.free ==> s.used == 0)
        && (s.conn.Some? && s.free ==> s.used > 0 && s.tcp == s.conn.value.tcp)
        && (s.conn.Some? ==> (s.free <==> s.conn.value in v.closed) && s.conn.value !in v.refused)
    {
      if w.slots[i].conn.Some? {
        var c := w.slots[i].conn.value;
        assert At(w, c, InSlot(i));
        if e.what.Close? {
          assert At(w, p.seen, InSlot(p.slot));
        }
        if e.what.Place? {
          assert At(w, p.made, With(e.who));
        }
      }
    }
  }

  lemma StepEnds(w: World, e: Event)
    requires Enabled(w, e) && Inv(w)
    ensures Ended(Step(w, e))
  {
    var v, p := Step(w, e), w.threads[e.who];
    if e.what.Close? {
      assert At(w, p.seen, InSlot(p.slot));
    }
    forall t | 0 <= t < |v.threads|
      ensures v.threads[t].Placing? ==> v.threads[t].made !in v.closed && v.threads[t].made !in v.refused
      ensures v.threads[t].Deleting? ==>
        v.threads[t].tcp == v.threads[t].conn.tcp && v.threads[t].conn in v.closed + v.refused
    {
      if t != e.who && w.threads[t].Placing? {
        assert At(w, w.threads[t].made, With(t));
        if e.what.Place? {
          assert At(w, p.made, With(e.who));
        }
      }
    }
    if e.what.Place? {
      assert At(w, p.made, With(e.who));
    }
  }

  lemma SpotMoved(w: World, v: World, c: Conn, from: Spot, to: Spot)
    requires OneSpot(w) && v.given == w.given
    requires At(w, c, from) && At(v, c, to) && (At(v, c, from) ==> from == to)
    requires forall q :: At(v, c, q) ==> q == to || At(w, c, q)
    requires forall d, q :: d != c ==> (At(v, d, q) <==> At(w, d, q))
    ensures OneSpot(v)
  {
    forall d | d in v.given
      ensures exists q :: At(v, d, q)
    {
      if d != c {
        var q :| At(w, d, q);
        assert At(v, d, q);
      }
    }
  }

  /** A connection not made before is with the thread that places it. */
  lemma SpotMade(w: World, v: World, c: Conn, t: nat)
    requires OneSpot(w) && c !in w.given && v.given == w.given + {c}
    requires forall q :: At(v, c, q) <==> q == With(t)
    requires forall d, q :: d != c ==> (At(v, d, q) <==> At(w, d, q))
    ensures OneSpot(v)
  {
    assert At(v, c, With(t));
    forall d | d in v.given
      ensures exists q :: At(v, d, q)
    {
      if d != c {
        var q :| At(w, d, q);
        assert At(v, d, q);
      }
    }
  }

  /** A connection leaves its entry with the thread that takes it out. */
  lemma SpotHanded(w: World, e: Event)
    requires Enabled(w, e) && OneSpot(w) && Sees(w) && (e.what.Done? || e.what.Close?)
    ensures OneSpot(Step(w, e))
  {
    hide OneSpot;
    var v, t, p := Step(w, e), e.who, w.threads[e.who];
    if v.threads[t].Deleting? {
      SpotMoved(w, v, v.threads[t].conn, InSlot(p.slot), With(t));
    } else {
      SpotsSame(w, v);
    }
  }

  lemma SpotsSame(w: World, v: World)
    requires OneSpot(w) && v.given == w.given
    requires forall c, q :: At(v, c, q) <==> At(w, c, q)
    ensures OneSpot(v)
  {
    forall d | d in v.given
      ensures exists q :: At(v, d, q)
    {
      var q :| At(w, d, q);
      assert At(v, d, q);
    }
  }

  lemma SpotPlaced(w: World, e: Event)
    requires Enabled(w, e) && OneSpot(w) && e.what.Place?
    ensures OneSpot(Step(w, e))
  {
    hide OneSpot;
    var v, t, p := Step(w, e), e.who, w.threads[e.who];
    if v.threads[t].Using? {
      assert v.slots == w.slots[p.next := v.slots[p.next]] && w.slots[p.next].conn.None?;
      SpotMoved(w, v, p.made, With(t), InSlot(p.next));
    } else {
      SpotsSame(w, v);
    }
  }

  lemma SpotGone(w: World, e: Event)
    requires Enabled(w, e) && OneSpot(w) && e.what.Delete?
    ensures OneSpot(Step(w, e))
  {
    hide OneSpot;
    var v, t, c := Step(w, e), e.who, w.threads[e.who].conn;
    forall d, q | d != c
      ensures At(v, d, q) <==> At(w, d, q)
    {
      if q.Gone? && q.position < |v.gone| {
        assert v.gone[q.position] == if q.position < |w.gone| then w.gone[q.position] else c;
      }
    }
    SpotMoved(w, v, c, With(t), Gone(|w.gone|));
  }

  lemma StepSpots(w: World, e: Event)
    requires Enabled(w, e) && OneSpot(w) && Sees(w)
    ensures OneSpot(Step(w, e))
  {
    var v, t, p := Step(w, e), e.who, w.threads[e.who];
    match e.what
    case Create(c) =>
      forall q
        ensures At(v, c, q) <==> q == With(t)
      {
        assert !At(w, c, q);
      }
      SpotMade(w, v, c, t);
    case Place =>
      SpotPlaced(w, e);
    case Delete =>
      SpotGone(w, e);
    case Done =>
      SpotHanded(w, e);
    case Close =>
      SpotHanded(w, e);
    case _ =>
      SpotsSame(w, v);
  }

  /** Every step of every thread keeps the invariant. */
  lemma StepKeeps(w: World, e: Event)
    requires Enabled(w, e) && Inv(w)
    ensures Inv(Step(w, e))
  {
    StepTallies(w, e);
    StepSees(w, e);
    StepPending(w, e);
    StepSpots(w, e);
    StepEnds(w, e);
  }

  // ---------- Over whole runs ----------

  lemma {:induction false} RunKeeps(w: World, es: seq<Event>)
    requires Runs(w, es) && Inv(w)
    ensures Inv(Run(w, es)) && |Run(w, es).slots| == |w.slots| && |Run(w, es).threads| == |w.threads|
    decreases |es|
  {
    hide Inv, Step, Enabled;
    if es != [] {
      StepKeeps(w, es[0]);
      ThreadsStay(w, es[0]);
      ThreadsCount(w, es[0]);
      RunKeeps(Step(w, es[0]), es[1..]);
    }
  }

  lemma ThreadsCount(w: World, e: Event)
    requires Enabled(w, e)
    ensures |Step(w, e).threads| == |w.threads| && |Step(w, e).slots| == |w.slots|
  {
  }

  /** Whatever the interleaving, fd_used is the number of threads that hold the entry,
      and with at most 255 of them its byte does not wrap. */
  lemma UsedCountsHolders(slots: nat, threads: nat, es: seq<Event>, i: nat)
    requires Runs(Start(slots, threads), es) && i < slots && threads < 256
    ensures var w := Run(Start(slots, threads), es);
      |w.slots| == slots && w.slots[i].used == |Holders(w.threads, i)| < 256
  {
    StartsRight(slots, threads);
    RunKeeps(Start(slots, threads), es);
    var w := Run(Start(slots, threads), es);
    Fewer(Holders(w.threads, i), |w.threads|);
  }

  lemma {:induction false} Fewer(s: set<nat>, n: nat)
    requires forall t :: t in s ==> t < n
    ensures |s| <= n
    decreases n
  {
    if n == 0 {
      assert s == {};
    } else {
      Fewer(s - {n - 1}, n - 1);
    }
  }

  /** While a thread that takes no step holds an entry, no run of the others closes it
      for good or gives it to another connection. */
  lemma {:induction false} NotReplacedWhileHeld(w: World, es: seq<Event>, t: nat, i: nat)
    requires Runs(w, es) && Inv(w) && t < |w.threads| && Holds(w.threads[t], i)
    requires forall k :: 0 <= k < |es| ==> es[k].who != t
    ensures var v := Run(w, es);
      && i < |w.slots| == |v.slots| && t < |v.threads| && v.threads[t] == w.threads[t]
      && v.slots[i].conn == w.slots[i].conn && v.slots[i].used > 0
    decreases |es|
  {
    if es == [] {
      HolderCounts(w, t, i);
    } else {
      var v := Step(w, es[0]);
      StepKeeps(w, es[0]);
      HeldStays(w, es[0], t, i);
      ThreadsCount(w, es[0]);
      assert v.threads[t] == w.threads[t];
      NotReplacedWhileHeld(v, es[1..], t, i);
    }
  }

  /** The connection is with a thread about to delete it, or deleted. */
  ghost predicate Released(w: World, c: Conn) {
    c in w.gone || exists t :: 0 <= t < |w.threads| && w.threads[t].Deleting? && w.threads[t].conn == c
  }

  ghost predicate Closing(w: World, i: nat, c: Conn) {
    i < |w.slots| && w.slots[i].conn == Some(c) && w.slots[i].free
  }

  /** With a free pending the entry either stays so, no thread starting to hold it, or
      the stepping thread takes the connection out. */
  lemma ClosingMoves(w: World, e: Event, i: nat, c: Conn)
    requires Enabled(w, e) && Sees(w) && Closing(w, i, c)
    ensures var v := Step(w, e);
      && e.who < |v.threads|
      && (if Closing(v, i, c) then Holds(v.threads[e.who], i) ==> Holds(w.threads[e.who], i)
          else v.threads[e.who].Deleting? && v.threads[e.who].conn == c)
  {
  }

  lemma ClosingStep(w: World, e: Event, i: nat, c: Conn)
    requires Enabled(w, e) && Sees(w) && Closing(w, i, c)
    ensures var v := Step(w, e);
      (Closing(v, i, c) && Holders(v.threads, i) <= Holders(w.threads, i)) || Released(v, c)
  {
    hide Step, Enabled, Sees, Closing, Holders, Holds;
    ThreadsStay(w, e);
    ClosingMoves(w, e, i, c);
    HoldersAfter(w.threads, e.who, Step(w, e).threads[e.who], i);
  }

  lemma ReleasedStep(w: World, e: Event, c: Conn)
    requires Enabled(w, e) && Released(w, c)
    ensures Released(Step(w, e), c)
  {
    var v := Step(w, e);
    if c in w.gone {
      assert c in v.gone;
    } else {
      var t :| 0 <= t < |w.threads| && w.threads[t].Deleting? && w.threads[t].conn == c;
      if t == e.who {
        assert v.gone[|w.gone|] == c;
      } else {
        assert v.threads[t].Deleting? && v.threads[t].conn == c;
      }
    }
  }

  lemma InvSees(w: World)
    requires Inv(w)
    ensures Sees(w)
  {
  }

  /** Once a free is pending nobody new holds the entry, up to the release. */
  lemma {:induction false} NobodyNew(w: World, es: seq<Event>, i: nat, c: Conn)
    requires Runs(w, es) && Inv(w) && (Closing(w, i, c) || Released(w, c))
    ensures var v := Run(w, es);
      || (Closing(w, i, c) && Closing(v, i, c) && Holders(v.threads, i) <= Holders(w.threads, i))
      || Released(v, c)
    ensures Released(w, c) ==> Released(Run(w, es), c)
    decreases |es|
  {
    hide Inv, Step, Enabled, Closing, Released, Holders;
    if es != [] {
      StepKeeps(w, es[0]);
      InvSees(w);
      if Released(w, c) {
        ReleasedStep(w, es[0], c);
      } else {
        ClosingStep(w, es[0], i, c);
      }
      NobodyNew(Step(w, es[0]), es[1..], i, c);
    }
  }

  /** A connection leaves its entry in one step only: of the last thread that held it,
      closing it or leaving it with a free pending, and that thread is to delete it. */
  lemma LeavesWithLast(w: World, e: Event, i: nat, c: Conn)
    requires Enabled(w, e) && Inv(w) && i < |w.slots| && w.slots[i].conn == Some(c)
    ensures var v := Step(w, e);
      && |v.slots| == |w.slots| && e.who < |v.threads|
      && (v.slots[i].conn == Some(c) || v.slots[i].conn == None)
      && (v.slots[i].conn == None <==>
          Holders(w.threads, i) == {e.who} && (e.what.Close? || (e.what.Done? && w.slots[i].free)))
      && (v.slots[i].conn == None ==> v.threads[e.who] == Deleting(c, c.tcp))
  {
    var v, p := Step(w, e), w.threads[e.who];
    if Holds(p, i) {
      HolderCounts(w, e.who, i);
    } else {
      assert e.who !in Holders(w.threads, i);
    }
  }

  ghost predicate Quiet(w: World) {
    forall t :: 0 <= t < |w.threads| ==> w.threads[t].Idle?
  }

  /** Each connection is released at most once, by any run; and whenever every thread is
      idle, the released ones are exactly those closed or refused an entry, and every
      other one is in one entry with no free pending. */
  lemma ReleasedExactlyOnce(slots: nat, threads: nat, es: seq<Event>)
    requires Runs(Start(slots, threads), es)
    ensures var w := Run(Start(slots, threads), es);
      && (forall j, k :: 0 <= j < k < |w.gone| ==> w.gone[j] != w.gone[k])
      && (forall c :: c in w.gone ==> c in w.closed + w.refused)
      && (Quiet(w) ==> forall c :: c in w.given ==> (c in w.gone <==> c in w.closed + w.refused))
      && (Quiet(w) ==> forall c :: c in w.given && c !in w.gone ==>
           exists i :: 0 <= i < |w.slots| && w.slots[i] == Slot(0, false, w.slots[i].tcp, Some(c)))
  {
    StartsRight(slots, threads);
    RunKeeps(Start(slots, threads), es);
    var w := Run(Start(slots, threads), es);
    forall j, k | 0 <= j < k < |w.gone|
      ensures w.gone[j] != w.gone[k]
    {
      assert At(w, w.gone[j], Gone(j)) && At(w, w.gone[k], Gone(k));
    }
    if Quiet(w) {
      forall c | c in w.given
        ensures c in w.gone <==> c in w.closed + w.refused
        ensures c !in w.gone ==> exists i :: 0 <= i < |w.slots| && w.slots[i] == Slot(0, false, w.slots[i].tcp, Some(c))
      {
        QuietSpot(w, c);
      }
    }
  }

  lemma QuietSpot(w: World, c: Conn)
    requires Inv(w) && Quiet(w) && c in w.given
    ensures c in w.gone <==> c in w.closed + w.refused
    ensures c !in w.gone ==> exists i :: 0 <= i < |w.slots| && w.slots[i] == Slot(0, false, w.slots[i].tcp, Some(c))
  {
    var p :| At(w, c, p);
    if p.Gone? {
      assert w.gone[p.position] == c;
    } else {
      assert p.InSlot?;
      assert Holders(w.threads, p.slot) == {};
      assert w.slots[p.slot] == Slot(0, false, w.slots[p.slot].tcp, Some(c));
      forall k | 0 <= k < |w.gone|
        ensures w.gone[k] != c
      {
        assert !At(w, c, Gone(k));
      }
    }
  }

  // ---------- The assertion of the locked lookup ----------

  /** What sock_inc_used_locked asserts of the entry it looks at. */
  predicate LookupAsserts(s: Slot) {
    s.free ==> s.used != 0
  }

  /** It holds except for entries whose connection the last holder took out and that have
      not been placed again: fd_free_pending is cleared by alloc_socket only. */
  lemma LookupAssertsIff(slots: nat, threads: nat, es: seq<Event>, i: nat)
    requires Runs(Start(slots, threads), es) && i < slots
    ensures var w := Run(Start(slots, threads), es);
      |w.slots| == slots && (LookupAsserts(w.slots[i]) <==> !(w.slots[i].conn.None? && w.slots[i].free))
  {
    StartsRight(slots, threads);
    RunKeeps(Start(slots, threads), es);
  }

  /** Two threads get a socket, one closes it, the other leaves: a later lookup of that
      descriptor fails the assertion. */
  lemma LookupAssertsFails()
    ensures var c := Conn(1, true);
      var es := [Event(0, Create(c)), Event(0, Place), Event(1, Get(0)), Event(1, Look),
                 Event(0, Close), Event(1, Done)];
      Runs(Start(1, 2), es) && !LookupAsserts(Run(Start(1, 2), es).slots[0])
  {
    var c := Conn(1, true);
    var w0 := Start(1, 2);
    var w1 := Step(w0, Event(0, Create(c)));
    var w2 := Step(w1, Event(0, Place));
    var w3 := Step(w2, Event(1, Get(0)));
    var w4 := Step(w3, Event(1, Look));
    var w5 := Step(w4, Event(0, Close));
    var w6 := Step(w5, Event(1, Done));
    assert w6.slots[0] == Slot(0, true, true, None);
    assert Enabled(w0, Event(0, Create(c))) && Enabled(w1, Event(0, Place)) && Enabled(w2, Event(1, Get(0)));
    assert Enabled(w3, Event(1, Look)) && Enabled(w4, Event(0, Close)) && Enabled(w5, Event(1, Done));
    hide Runs, Run, Step, Enabled;
    RunNone(w6);
    OneMore(w5, Event(1, Done), []);
    OneMore(w4, Event(0, Close), [Event(1, Done)]);
    OneMore(w3, Event(1, Look), [Event(0, Close), Event(1, Done)]);
    OneMore(w2, Event(1, Get(0)), [Event(1, Look), Event(0, Close), Event(1, Done)]);
    OneMore(w1, Event(0, Place), [Event(1, Get(0)), Event(1, Look), Event(0, Close), Event(1, Done)]);
    OneMore(w0, Event(0, Create(c)),
            [Event(0, Place), Event(1, Get(0)), Event(1, Look), Event(0, Close), Event(1, Done)]);
  }

  lemma RunNone(w: World)
    ensures Runs(w, []) && Run(w, []) == w
  {
  }

  lemma OneMore(w: World, e: Event, es: seq<Event>)
    requires Enabled(w, e) && Runs(Step(w, e), es)
    ensures Runs(w, [e] + es) && Run(w, [e] + es) == Run(Step(w, e), es)
  {
    assert ([e] + es)[1..] == es;
  }
}
