/** Following the records of a TLS stream as it arrives in pieces. */
module TlsTracker {
  import opened Octets

  const HEADER := 5

  /** tls_rec_pos, tls_rec_size and the header bytes collected so far. */
  datatype State = State(pos: nat, size: nat, rec: seq<Byte>) | Rejected

  const START := State(0, 0, [0, 0, 0, 0, 0])

  predicate KnownType(b: Byte) {
    0x14 <= b <= 0x18
  }

  /** The length field of a record header. */
  function Length(rec: seq<Byte>): nat
    requires |rec| >= HEADER
  {
    rec[3] as int * 256 + rec[4]
  }

  ghost predicate Sane(s: State) {
    s.State? ==> |s.rec| == HEADER && (if s.pos <= HEADER then s.size == 0 else s.pos <= s.size)
  }

  /** One byte of the stream. */
  function Step(s: State, b: Byte): State
    requires Sane(s)
  {
    if s.Rejected? then s
    else if s.pos < HEADER then State(s.pos + 1, s.size, s.rec[s.pos := b])
    else if s.pos == HEADER then
      if !KnownType(s.rec[0]) || Length(s.rec) == 0 then Rejected else State(HEADER + 1, Length(s.rec) + HEADER, s.rec)
    else if s.pos == s.size then State(1, 0, s.rec[0 := b])
    else State(s.pos + 1, s.size, s.rec)
  }

  function Run(s: State, bytes: seq<Byte>): (t: State)
    requires Sane(s)
    ensures Sane(t)
    decreases |bytes|
  {
    if bytes == [] then s else Run(Step(s, bytes[0]), bytes[1..])
  }

  /** Feeding a stream in two pieces is feeding it whole. */
  lemma {:induction false} RunConcat(s: State, a: seq<Byte>, b: seq<Byte>)
    requires Sane(s)
    ensures Run(s, a + b) == Run(Run(s, a), b)
    decreases |a|
  {
    if a == [] {
      assert a + b == b;
    } else {
      assert (a + b)[1..] == a[1..] + b;
      RunConcat(Step(s, a[0]), a[1..], b);
    }
  }

  /** Inside a record bytes only move the position. */
  lemma {:induction false} RunInside(s: State, bytes: seq<Byte>)
    requires Sane(s) && s.State? && s.pos > HEADER && s.pos + |bytes| <= s.size
    ensures Run(s, bytes) == s.(pos := s.pos + |bytes|)
    decreases |bytes|
  {
    if bytes != [] {
      RunInside(Step(s, bytes[0]), bytes[1..]);
    }
  }

  /** After the header, or inside the record, the next bytes up to its end. */
  lemma RunOn(s: State, bytes: seq<Byte>, end: nat)
    requires Sane(s) && s.State? && s.pos >= HEADER && 0 < end <= |bytes|
    requires var size := if s.pos == HEADER then Length(s.rec) + HEADER else s.size;
      s.pos + end <= size && (s.pos == HEADER ==> KnownType(s.rec[0]))
    ensures var size := if s.pos == HEADER then Length(s.rec) + HEADER else s.size;
      Run(s, bytes) == Run(State(s.pos + end, size, s.rec), bytes[end..])
  {
    assert bytes == bytes[..end] + bytes[end..];
    RunConcat(s, bytes[..end], bytes[end..]);
    if s.pos == HEADER {
      assert bytes[..end][1..] == bytes[1..end];
      RunInside(Step(s, bytes[0]), bytes[1..end]);
    } else {
      RunInside(s, bytes[..end]);
    }
  }

  lemma RunByte(s: State, bytes: seq<Byte>)
    requires Sane(s)
    ensures bytes == [] ==> Run(s, bytes) == s
    ensures bytes != [] ==> Run(s, bytes) == Run(Step(s, bytes[0]), bytes[1..])
  {
  }

  /** The end of a record is as good as the start of one. */
  lemma RunReset(s: State, bytes: seq<Byte>)
    requires Sane(s) && s.State? && s.pos == s.size > HEADER && bytes != []
    ensures Run(s, bytes) == Run(State(0, 0, s.rec), bytes)
  {
  }

  /** A stream that cannot go on after the header. */
  lemma {:induction false} RunRejected(s: State, bytes: seq<Byte>)
    requires Sane(s) && bytes != []
    requires (s.Rejected? || (s.pos == HEADER && (!KnownType(s.rec[0]) || Length(s.rec) == 0)))
    ensures Run(s, bytes) == Rejected
    decreases |bytes|
  {
    if |bytes| > 1 {
      RunRejected(Step(s, bytes[0]), bytes[1..]);
    }
  }

  class Tracker {
    var pos: nat
    var size: nat
    var rec: seq<Byte>

    ghost function Now(): State
      reads this
    {
      State(pos, size, rec)
    }

    constructor ()
      ensures Now() == START
    {
      pos, size, rec := 0, 0, [0, 0, 0, 0, 0];
    }

    /** try_set_tls_timer without the byte limit: follows a piece that arrived.
        Tells whether it was accepted and whether a timer is to be armed. */
    method Feed(buff: seq<Byte>) returns (ok: bool, arm: bool)
      requires Sane(Now()) && buff != []
      modifies this
      ensures ok ==> Run(old(Now()), buff) == Now() && Sane(Now()) && (arm <==> pos != size)
      ensures !ok ==> Run(old(Now()), buff) == Rejected
    {
      hide Run;
      var p, n := 0, |buff|;
      arm := false;
      assert buff[0..] == buff;
      while p < n
        invariant 0 <= p <= n && Sane(Now())
        invariant Run(Now(), buff[p..]) == Run(old(Now()), buff)
        decreases n - p, pos
      {
        ghost var s, rest := Now(), buff[p..];
        if pos < HEADER {
          assert rest[1..] == buff[p + 1..];
          RunByte(s, rest);
          rec := rec[pos := buff[p]];
          pos := pos + 1;
          p := p + 1;
          continue;
        } else if pos == HEADER {
          if !KnownType(s.rec[0]) || Length(s.rec) == 0 {
            RunRejected(s, rest);
          }
          size := Length(rec) + HEADER;
          var t := rec[0];
          if t < 0x14 || t > 0x18 {
            return false, false;
          }
        } else if pos == size {
          RunReset(s, rest);
          pos := 0;
          size := 0;
          continue;
        }
        var end := size - pos;
        if end <= 0 {
          return false, false;
        }
        if p + end > n {
          end := n - p;
        }
        RunOn(s, rest, end);
        assert rest[end..] == buff[p + end..];
        pos := pos + end;
        p := p + end;
      }
      assert buff[p..] == [];
      RunByte(Now(), []);
      ok := true;
      arm := pos != size;
    }
  }

  // ---------- Records of a whole stream ----------

  /** How a stream of records ends: in a record of which `have` bytes are there
      (with its size once that is looked at), or on a record boundary. */
  datatype Ending = Bad | Part(have: nat, size: nat) | Whole

  /** The records of section 5.1 of RFC 8446, one after the other. */
  function Ends(bytes: seq<Byte>): Ending
    decreases |bytes|
  {
    if bytes == [] then Whole
    else if |bytes| <= HEADER then Part(|bytes|, 0)
    else if !KnownType(bytes[0]) || Length(bytes) == 0 then Bad
    else
      var total := HEADER + Length(bytes);
      if |bytes| < total then Part(|bytes|, total) else Ends(bytes[total..])
  }

  /** At the start of a record. */
  ghost predicate AtStart(s: State) {
    Sane(s) && s.State? && ((s.pos == 0 && s.size == 0) || (s.pos > HEADER && s.pos == s.size))
  }

  /** The first bytes of a record fill the header. */
  lemma {:induction false} RunHeader(s: State, bytes: seq<Byte>)
    requires AtStart(s) && 0 < |bytes| <= HEADER
    ensures var t := Run(s, bytes); t.State? && t.pos == |bytes| && t.size == 0 && t.rec[..|bytes|] == bytes
    decreases |bytes|
  {
    var k := |bytes| - 1;
    var a, b := bytes[..k], bytes[k];
    assert bytes == a + [b];
    RunConcat(s, a, [b]);
    assert [b][1..] == [];
    assert Run(Run(s, a), [b]) == Step(Run(s, a), b);
    if k > 0 {
      RunHeader(s, a);
    }
  }

  /** The tracker rejects exactly the streams with a bad record, stands where the
      last record stands, and is done with it exactly on a record boundary. */
  lemma {:induction false} RunEnds(s: State, bytes: seq<Byte>)
    requires AtStart(s) && bytes != []
    ensures match Ends(bytes)
            case Bad => Run(s, bytes) == Rejected
            case Part(have, size) => Run(s, bytes).State? && Run(s, bytes).pos == have && Run(s, bytes).size == size
            case Whole => Run(s, bytes).State? && Run(s, bytes).pos == Run(s, bytes).size > HEADER
    ensures Ends(bytes).Part? ==> Ends(bytes).have != Ends(bytes).size
    decreases |bytes|
  {
    hide Run, Step;
    if |bytes| <= HEADER {
      RunHeader(s, bytes);
    } else if !KnownType(bytes[0]) || Length(bytes) == 0 {
      var t := AfterHeader(s, bytes);
      RunRejected(t, bytes[HEADER..]);
    } else {
      var total := HEADER + Length(bytes);
      RunRecord(s, bytes);
      if |bytes| > total {
        var u :| AtStart(u) && Run(s, bytes) == Run(u, bytes[total..]);
        RunEnds(u, bytes[total..]);
      } else if |bytes| == total {
        NoRecords();
        assert bytes[total..] == [];
      }
    }
  }

  lemma AfterHeader(s: State, bytes: seq<Byte>) returns (t: State)
    requires AtStart(s) && |bytes| > HEADER
    ensures Sane(t) && t == State(HEADER, 0, bytes[..HEADER]) && Run(s, bytes) == Run(t, bytes[HEADER..])
  {
    hide Run, Step;
    var h, rest := bytes[..HEADER], bytes[HEADER..];
    assert bytes == h + rest;
    RunHeader(s, h);
    RunConcat(s, h, rest);
    t := Run(s, h);
    assert t.rec == t.rec[..HEADER];
  }

  /** A record, or what there is of it. */
  lemma RunRecord(s: State, bytes: seq<Byte>)
    requires AtStart(s) && |bytes| > HEADER && KnownType(bytes[0]) && Length(bytes) > 0
    ensures var total, r := HEADER + Length(bytes), Run(s, bytes);
      && (|bytes| <= total ==> r.State? && r.pos == |bytes| && r.size == total)
      && (|bytes| > total ==> exists u :: AtStart(u) && r == Run(u, bytes[total..]))
  {
    hide Run, Step;
    var total := HEADER + Length(bytes);
    var t := AfterHeader(s, bytes);
    var rest := bytes[HEADER..];
    if |bytes| <= total {
      RunOn(t, rest, |rest|);
      assert rest[|rest|..] == [];
      NoBytes(State(|bytes|, total, t.rec));
    } else {
      RunOn(t, rest, Length(bytes));
      assert rest[Length(bytes)..] == bytes[total..];
      assert AtStart(State(total, total, t.rec));
    }
  }

  // ---------- Records as they are sent ----------

  datatype Sent = Sent(kind: Byte, major: Byte, minor: Byte, payload: seq<Byte>)

  /** A record on the wire: the type, two bytes of version, the length in network order, the payload. */
  function Wire(r: Sent): (s: seq<Byte>)
    requires |r.payload| < 0x10000
    ensures |s| == 5 + |r.payload|
  {
    [r.kind, r.major, r.minor, |r.payload| / 256, |r.payload| % 256] + r.payload
  }

  predicate Sendable(rs: seq<Sent>) {
    forall i :: 0 <= i < |rs| ==> |rs[i].payload| < 0x10000
  }

  function WireAll(rs: seq<Sent>): seq<Byte>
    requires Sendable(rs)
  {
    if rs == [] then [] else Wire(rs[0]) + WireAll(rs[1..])
  }

  /** What becomes of a record with bytes behind it. */
  lemma OneSent(r: Sent, rest: seq<Byte>)
    requires |r.payload| < 0x10000
    ensures 0x14 <= r.kind <= 0x18 && r.payload != [] ==> Ends(Wire(r) + rest) == Ends(rest)
    ensures (r.kind < 0x14 || r.kind > 0x18) && |r.payload| + |rest| > 0 ==> Ends(Wire(r) + rest) == Bad
    ensures r.payload == [] ==> Ends(Wire(r) + rest) == if rest == [] then Part(5, 0) else Bad
  {
    hide Ends;
    var bytes := Wire(r) + rest;
    assert bytes[0] == r.kind && bytes[3] as int * 256 + bytes[4] == |r.payload|;
    EndsStep(bytes);
    assert bytes[5 + |r.payload|..] == rest;
  }

  lemma EndsStep(bytes: seq<Byte>)
    requires |bytes| >= HEADER
    ensures Ends(bytes) ==
      if |bytes| == HEADER then Part(HEADER, 0)
      else if !KnownType(bytes[0]) || Length(bytes) == 0 then Bad
      else if |bytes| < HEADER + Length(bytes) then Part(|bytes|, HEADER + Length(bytes))
      else Ends(bytes[HEADER + Length(bytes)..])
  {
  }

  /** A stream of whole records is accepted to its last byte, and ends on a record boundary,
      if and only if their types are those of TLS and none of them is empty. */
  lemma {:induction false} WireWhole(rs: seq<Sent>)
    requires Sendable(rs)
    ensures Ends(WireAll(rs)) == Whole <==>
      forall i :: 0 <= i < |rs| ==> 0x14 <= rs[i].kind <= 0x18 && rs[i].payload != []
    ensures rs != [] ==>
      (Run(START, WireAll(rs)).State? && Run(START, WireAll(rs)).pos == Run(START, WireAll(rs)).size <==>
        forall i :: 0 <= i < |rs| ==> 0x14 <= rs[i].kind <= 0x18 && rs[i].payload != [])
    decreases |rs|
  {
    hide Ends, Run;
    if rs == [] {
      NoRecords();
    } else {
      OneSent(rs[0], WireAll(rs[1..]));
      WireWhole(rs[1..]);
      assert rs[1..] == [] ==> WireAll(rs[1..]) == [];
      RunEnds(START, WireAll(rs));
    }
  }

  /** A stream that breaks off `k` bytes into a record is in it at `k`, and knows its size once
      it is past the header. */
  lemma {:induction false} WirePart(rs: seq<Sent>, r: Sent, k: nat)
    requires Sendable(rs) && 0 < |r.payload| < 0x10000 && 0x14 <= r.kind <= 0x18 && 0 < k < 5 + |r.payload|
    requires forall i :: 0 <= i < |rs| ==> 0x14 <= rs[i].kind <= 0x18 && rs[i].payload != []
    ensures Ends(WireAll(rs) + Wire(r)[..k]) == Part(k, if k <= 5 then 0 else 5 + |r.payload|)
    decreases |rs|
  {
    hide Ends, Wire;
    var cut := Wire(r)[..k];
    if rs == [] {
      assert [] + cut == cut;
      CutRecord(r, k);
    } else {
      var rest := WireAll(rs[1..]);
      WirePart(rs[1..], r, k);
      OneSent(rs[0], rest + cut);
      Assoc(Wire(rs[0]), rest, cut);
    }
  }

  lemma Assoc(a: seq<Byte>, b: seq<Byte>, c: seq<Byte>)
    ensures (a + b) + c == a + (b + c)
  {
  }

  lemma CutRecord(r: Sent, k: nat)
    requires 0 < |r.payload| < 0x10000 && 0x14 <= r.kind <= 0x18 && 0 < k < 5 + |r.payload|
    ensures Ends(Wire(r)[..k]) == Part(k, if k <= 5 then 0 else 5 + |r.payload|)
  {
    hide Ends;
    var cut := Wire(r)[..k];
    ShortPart(cut);
    if k >= 5 {
      assert cut[0] == r.kind && cut[3] as int * 256 + cut[4] == |r.payload|;
      EndsStep(cut);
    }
  }

  lemma ShortPart(bytes: seq<Byte>)
    ensures 0 < |bytes| <= 5 ==> Ends(bytes) == Part(|bytes|, 0)
  {
  }

  function Flatten(pieces: seq<seq<Byte>>): seq<Byte> {
    if pieces == [] then [] else pieces[0] + Flatten(pieces[1..])
  }

  /** Whatever the pieces, the outcome is that of the whole stream. */
  method FeedAll(tracker: Tracker, pieces: seq<seq<Byte>>) returns (ok: bool)
    requires tracker.Now() == START && forall i :: 0 <= i < |pieces| ==> pieces[i] != []
    modifies tracker
    ensures ok <==> Ends(Flatten(pieces)) != Bad
    ensures ok && pieces != [] ==> Run(START, Flatten(pieces)) == tracker.Now()
    ensures ok && pieces != [] ==> (tracker.pos == tracker.size <==> Ends(Flatten(pieces)) == Whole)
  {
    hide Run, Ends;
    var i := 0;
    assert pieces[0..] == pieces;
    NoBytes(START);
    while i < |pieces|
      invariant 0 <= i <= |pieces| && Sane(tracker.Now())
      invariant Run(START, Flatten(pieces)) == Run(tracker.Now(), Flatten(pieces[i..]))
    {
      ghost var s, rest := tracker.Now(), Flatten(pieces[i + 1..]);
      assert pieces[i..][1..] == pieces[i + 1..];
      RunConcat(s, pieces[i], rest);
      var arm;
      ok, arm := tracker.Feed(pieces[i]);
      if !ok {
        StaysRejected(rest);
        NotEmpty(pieces);
        RunEnds(START, Flatten(pieces));
        return;
      }
      i := i + 1;
    }
    assert pieces[i..] == [];
    NoBytes(tracker.Now());
    if pieces != [] {
      NotEmpty(pieces);
      RunEnds(START, Flatten(pieces));
    }
    NoRecords();
    ok := true;
  }

  lemma NoBytes(s: State)
    requires Sane(s)
    ensures Run(s, []) == s && Flatten([]) == []
  {
  }

  lemma NoRecords()
    ensures Ends([]) == Whole
  {
  }

  lemma StaysRejected(bytes: seq<Byte>)
    ensures Run(Rejected, bytes) == Rejected
  {
    if bytes != [] {
      RunRejected(Rejected, bytes);
    }
  }

  lemma NotEmpty(pieces: seq<seq<Byte>>)
    requires pieces != [] && forall i :: 0 <= i < |pieces| ==> pieces[i] != []
    ensures Flatten(pieces) != []
  {
  }
}
