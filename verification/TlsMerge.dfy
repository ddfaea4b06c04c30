/** Merging the records at the start of a buffer into one, and what it takes for
    that to undo a cut. */
module TlsMerge {
  import opened Octets
  import opened TlsRecords

  /** Another record of the type of the first starts behind `full` bytes of payload and is all there. */
  predicate CanMerge(s: seq<Byte>, n: nat, full: nat)
    requires 0 < n <= |s|
  {
    5 + full + 5 <= n && s[5 + full] == s[0] && full + 10 + Number(s, full + 8) <= n
  }

  /** Its header taken out; the data moves down and its last bytes stay. */
  function Merged(s: seq<Byte>, n: nat, full: nat): (t: seq<Byte>)
    requires full + 10 <= n <= |s|
    ensures |t| == |s|
  {
    s[..5 + full] + s[10 + full..n] + s[n - 5..]
  }

  /** A sum as a uint16_t. */
  function Short(x: nat): (y: nat)
    ensures y < U16 && (x - y) % U16 == 0
  {
    x % U16
  }

  /** How the merging of at most `limit` records ends: not yet, or with the buffer,
      the length of the payload and the number of records merged. */
  datatype Outcome = More | Done(s: seq<Byte>, full: nat, count: nat)

  function Count(o: Outcome): Outcome {
    if o.Done? then Done(o.s, o.full, o.count + 1) else More
  }

  function Merging(s: seq<Byte>, n: nat, full: nat, limit: nat): (o: Outcome)
    requires 0 < n <= |s| && full < U16
    ensures o.Done? ==> |o.s| == |s| && o.full < U16
    decreases limit
  {
    if !CanMerge(s, n, full) then Done(s, full, 0)
    else if limit == 0 then More
    else Count(Merging(Merged(s, n, full), n, Short(full + Number(s, full + 8)), limit - 1))
  }

  /** The lengths written at the end: of the record, and of the message in it. */
  function Relabelled(s: seq<Byte>, full: nat): seq<Byte>
    requires |s| >= 9 && full < U16
  {
    Put(Put(s, 3, Bytes2(full)), 7, Bytes2(Short(full + U16 - 4)))
  }

  /** The loop of merge_tls_records, as far as `limit` records. */
  method MergeLoop(buffer: array<Byte>, n: nat, limit: nat) returns (done: bool, full: nat, i: nat)
    requires 5 <= n <= buffer.Length
    modifies buffer
    ensures full < U16
    ensures Merging(old(buffer[..]), n, Number(old(buffer[..]), 3), limit) ==
        if done then Done(buffer[..], full, i) else More
  {
    hide Merging, Put, Number, Short, Merged, CanMerge;
    var left: nat;
    full, left, i := 0, limit, 0;
    var size: nat := ReadNumber(buffer, 3);
    ghost var s, o := buffer[..], Merging(buffer[..], n, size, limit);
    while true
      invariant i + left == limit && size < U16 && full < U16 && buffer[..] == s && |s| == buffer.Length
      invariant Plus(Merging(s, n, Short(full + size), left), i) == o
      decreases left
    {
      full := Short(full + size);
      MergingStep(s, n, full, left);
      MergeTest(s, n, full);
      if 5 + full > n - 5 || buffer[5 + full] != buffer[0] {
        done := true;
        return;
      }
      size := ReadNumber(buffer, full + 8);
      if full + 10 + size > n {
        done := true;
        return;
      }
      if left == 0 {
        done := false;
        return;
      }
      MoveMerges(s, n, full);
      Move(buffer, 5 + full, 10 + full, n - (10 + full));
      s := Merged(s, n, full);
      i := i + 1;
      left := left - 1;
    }
  }

  lemma MergeTest(s: seq<Byte>, n: nat, full: nat)
    requires 0 < n <= |s|
    ensures 5 + full > n - 5 || s[5 + full] != s[0] ==> !CanMerge(s, n, full)
    ensures 5 + full + 5 <= n && s[5 + full] == s[0] ==>
      (CanMerge(s, n, full) <==> full + 10 + Number(s, full + 8) <= n)
  {
  }

  /** merge_tls_records, as far as `limit` records. Its own loop has no limit; where the
      outcome is `More` for every limit it never ends. */
  method MergeTlsRecords(buffer: array<Byte>, n: nat, limit: nat) returns (done: bool, r: nat)
    requires n <= buffer.Length && 9 <= buffer.Length
    modifies buffer
    ensures n < 5 ==> done && r == 0 && buffer[..] == old(buffer[..])
    ensures n >= 5 ==> done == Merging(old(buffer[..]), n, Number(old(buffer[..]), 3), limit).Done?
    ensures n >= 5 && done ==> var o := Merging(old(buffer[..]), n, Number(old(buffer[..]), 3), limit);
      r == 5 * o.count && buffer[..] == Relabelled(o.s, o.full)
  {
    hide Merging, Put, Number, Bytes2, Short;
    if n < 5 {
      return true, 0;
    }
    var full, i;
    done, full, i := MergeLoop(buffer, n, limit);
    if !done {
      return false, 0;
    }
    PutNumber(buffer, 3, full);
    PutNumber(buffer, 7, Short(full + U16 - 4));
    r := i * 5;
  }

  method ReadNumber(buffer: array<Byte>, i: nat) returns (x: nat)
    requires i + 2 <= buffer.Length
    ensures x == Number(buffer[..], i)
  {
    x := buffer[i] as int * 256 + buffer[i + 1];
  }

  /** `i` more records merged before. */
  function Plus(o: Outcome, i: nat): Outcome {
    if o.Done? then Done(o.s, o.full, o.count + i) else More
  }

  lemma MergingStep(s: seq<Byte>, n: nat, full: nat, limit: nat)
    requires 0 < n <= |s| && full < U16
    ensures !CanMerge(s, n, full) ==> Merging(s, n, full, limit) == Done(s, full, 0)
    ensures CanMerge(s, n, full) && limit == 0 ==> Merging(s, n, full, limit) == More
    ensures CanMerge(s, n, full) && limit > 0 ==>
      Merging(s, n, full, limit)
      == Plus(Merging(Merged(s, n, full), n, Short(full + Number(s, full + 8)), limit - 1), 1)
  {
  }

  lemma MoveMerges(s: seq<Byte>, n: nat, full: nat)
    requires full + 10 <= n <= |s|
    ensures Put(s, 5 + full, s[10 + full..n]) == Merged(s, n, full)
  {
  }

  // ---------- When merging undoes a cut ----------

  /** The last bytes `e`, left behind by each of `k` moves. */
  function Stale(e: seq<Byte>, k: nat): (s: seq<Byte>)
    ensures |s| == k * |e|
  {
    if k == 0 then [] else e + Stale(e, k - 1)
  }

  /** The bytes read as a complete record of type `t`. */
  predicate ReadsAsRecord(s: seq<Byte>, t: Byte) {
    |s| >= 5 && s[0] == t && 5 + Number(s, 3) <= |s|
  }

  /** The length of the first of the fragments. */
  function FirstLength(len: nat, ds: seq<nat>): nat {
    if ds == [] then len else ds[0]
  }

  /** What follows the header of the first of the fragments. */
  ghost function AfterHeader(h: seq<Byte>, len: nat, body: seq<Byte>, ds: seq<nat>): seq<Byte>
    requires Sum(ds) <= |body| && Sum(ds) <= len < U16
  {
    if ds == [] then body else body[..ds[0]] + Fragments(h, len - ds[0], body[ds[0]..], ds[1..])
  }

  lemma FragmentsHead(h: seq<Byte>, len: nat, body: seq<Byte>, ds: seq<nat>)
    requires Sum(ds) <= |body| && Sum(ds) <= len < U16 && |h| == 3
    ensures FirstLength(len, ds) <= len && FirstLength(len, ds) < U16
    ensures Fragments(h, len, body, ds) == h + Bytes2(FirstLength(len, ds)) + AfterHeader(h, len, body, ds)
    ensures len <= |body| ==> FirstLength(len, ds) <= |AfterHeader(h, len, body, ds)|
  {
    hide Fragments, Bytes2;
    if ds == [] {
      FragmentsNone(h, len, body);
    } else {
      FragmentsStep(h, len, body, ds);
      var x, y := body[..ds[0]], Fragments(h, len - ds[0], body[ds[0]..], ds[1..]);
      Assoc(h + Bytes2(ds[0]), x, y);
    }
  }

  /** A record header in the middle of the buffer is found and taken out. */
  lemma TakeOut(a: seq<Byte>, h: seq<Byte>, c: nat, f: seq<Byte>, x: seq<Byte>, z: seq<Byte>, n: nat, full: nat,
                e: seq<Byte>)
    requires |h| == 3 && |a| == 5 + full && a[0] == h[0] && c < U16 && c <= |f| && n == |a| + 5 + |f| + |x|
    requires |e| == 5
    requires var s := a + (h + Bytes2(c) + f) + x + z; s[n - 5..n] == e
    ensures var s := a + (h + Bytes2(c) + f) + x + z;
      CanMerge(s, n, full) && Number(s, full + 8) == c && Merged(s, n, full) == a + f + x + e + z
  {
    hide Bytes2, Number;
    var s := a + (h + Bytes2(c) + f) + x + z;
    assert s[full + 8..full + 10] == Bytes2(c) && s[..|s|] == s;
    NumberOf(s, |s|, full + 8);
    assert s[5 + full] == h[0];
    assert s[..5 + full] == a && s[10 + full..n] == f + x && s[n - 5..] == e + z;
  }

  /** All further fragments are merged into the first; each move leaves the last bytes behind once more. */
  lemma {:induction false} MergeFragments(a: seq<Byte>, h: seq<Byte>, len: nat, body: seq<Byte>, ds: seq<nat>,
                                          x: seq<Byte>,
                                          z: seq<Byte>, e: seq<Byte>, n: nat, full: nat, limit: nat)
    requires |h| == 3 && |a| == 5 + full && a[0] == h[0] && |e| == 5
    requires Sum(ds) <= len <= |body| && full + len < U16 && limit >= |ds| + 1
    requires n == |a| + |Fragments(h, len, body, ds)| + |x|
    requires var s := a + Fragments(h, len, body, ds) + x + z; n >= 5 && s[n - 5..n] == e
    ensures n <= |a + body + x + Stale(e, |ds| + 1) + z|
    ensures Merging(a + Fragments(h, len, body, ds) + x + z, n, full, limit)
      == Plus(Merging(a + body + x + Stale(e, |ds| + 1) + z, n, full + len, limit - |ds| - 1), |ds| + 1)
    decreases |ds|
  {
    hide Bytes2, Number, Fragments, Merging, Stale, CanMerge, Merged, Short;
    var c, f := FirstLength(len, ds), AfterHeader(h, len, body, ds);
    FragmentsHead(h, len, body, ds);
    TakeOut(a, h, c, f, x, z, n, full, e);
    var s := a + Fragments(h, len, body, ds) + x + z;
    MergingStep(s, n, full, limit);
    StaleMore(e, |ds|);
    var t := a + f + x + e + z;
    if ds == [] {
      StaleNone(e);
      assert e + [] == e;
    } else {
      var b, g := a + body[..c], Fragments(h, len - c, body[c..], ds[1..]);
      FragmentsStep(h, len, body, ds);
      Regroup(a, body[..c], g, x, e, z);
      LastFive(b + g + x, e, z, n);
      MergeFragments(b, h, len - c, body[c..], ds[1..], x + e, z, e, n, full + c, limit - 1);
      assert body == body[..c] + body[c..];
      RegroupStale(a, body[..c], body[c..], x, e, Stale(e, |ds|), z);
      PlusTwice(Merging(a + body + x + Stale(e, |ds| + 1) + z, n, full + len, limit - |ds| - 1), |ds|);
    }
  }

  lemma Regroup(a: seq<Byte>, b: seq<Byte>, g: seq<Byte>, x: seq<Byte>, e: seq<Byte>, z: seq<Byte>)
    ensures a + (b + g) + x + e + z == (a + b) + g + (x + e) + z == (a + b) + g + x + e + z
  {
  }

  lemma RegroupStale(a: seq<Byte>, b: seq<Byte>, c: seq<Byte>, x: seq<Byte>, e: seq<Byte>, t: seq<Byte>, z: seq<Byte>)
    ensures (a + b) + c + (x + e) + t + z == a + (b + c) + x + (e + t) + z
  {
  }

  lemma StaleMore(e: seq<Byte>, k: nat)
    ensures Stale(e, k + 1) == e + Stale(e, k)
  {
  }

  lemma StaleNone(e: seq<Byte>)
    ensures Stale(e, 0) == []
  {
  }

  lemma LastFive(a: seq<Byte>, e: seq<Byte>, z: seq<Byte>, n: nat)
    requires |e| == 5 && n == |a| + 5
    ensures (a + e + z)[n - 5..n] == e
  {
  }

  lemma PlusTwice(o: Outcome, k: nat)
    ensures Plus(Plus(o, k), 1) == Plus(o, k + 1)
  {
  }

  /** The record before it was cut. */
  function Single(h: seq<Byte>, payload: seq<Byte>): seq<Byte>
    requires |payload| < U16
  {
    h + Bytes2(|payload|) + payload
  }

  /** The payload is one handshake message, whose length field (all but its highest
      byte) gives the rest of the payload. */
  predicate SingleMessage(payload: seq<Byte>) {
    4 <= |payload| < U16 && payload[2..4] == Bytes2(|payload| - 4)
  }

  /** Writing the lengths of an uncut record changes nothing. */
  lemma RelabelledWhole(h: seq<Byte>, payload: seq<Byte>, first: seq<Byte>, rest: seq<Byte>)
    requires |h| == 3 && |first| == 2 && SingleMessage(payload)
    ensures Relabelled(h + first + payload + rest, |payload|) == Single(h, payload) + rest
  {
    hide Bytes2, Put, Short;
    var n := |payload|;
    var l, m := Bytes2(n), Bytes2(n - 4);
    assert h + first + payload + rest == h + first + (payload + rest);
    PutBetween(h + first + payload + rest, h, first, payload + rest, l);
    var s := h + l + (payload + rest);
    var front, back := h + l + payload[..2], payload[4..] + rest;
    assert s == front + payload[2..4] + back;
    PutBetween(s, front, payload[2..4], back, m);
    ShortSmall(n);
  }

  lemma ShortSmall(n: nat)
    requires 4 <= n < U16
    ensures Short(n + U16 - 4) == n - 4
  {
  }

  /** The outcome of merging a cut record: the `k` cuts are undone, and merging then
      goes on exactly if what is left behind the record reads as another one of its type. */
  lemma MergeCut(h: seq<Byte>, payload: seq<Byte>, tail: seq<Byte>, ds: seq<nat>, z: seq<Byte>, e: seq<Byte>,
                 limit: nat)
    requires |h| == 3 && |payload| < U16 && Sum(ds) <= |payload| && |e| == 5 && |ds| <= limit
    requires var s := Fragments(h, |payload|, payload + tail, ds); |s| >= 5 && s[|s| - 5..] == e
    ensures var s, first := Fragments(h, |payload|, payload + tail, ds), FirstLength(|payload|, ds);
      var t := h + Bytes2(first) + payload + (tail + Stale(e, |ds|)) + z;
      && first < U16 && |s + z| == |t| && 5 <= |s| <= |t|
      && Merging(s + z, |s|, first, limit) == Plus(Merging(t, |s|, |payload|, limit - |ds|), |ds|)
      && Number(s + z, 3) == first
      && (CanMerge(t, |s|, |payload|) <==> ReadsAsRecord(tail + Stale(e, |ds|), h[0]))
  {
    hide Bytes2, Number, Fragments, Merging, Stale, CanMerge, Merged, Short, AfterHeader;
    var body, c, s := payload + tail, FirstLength(|payload|, ds), Fragments(h, |payload|, payload + tail, ds);
    FragmentsHead(h, |payload|, body, ds);
    var f := AfterHeader(h, |payload|, body, ds);
    NumberFirst(h, Bytes2(c), f, z);
    if ds == [] {
      FragmentsNone(h, |payload|, body);
      StaleNone(e);
      assert tail + [] == tail;
      assert s + z == h + Bytes2(c) + payload + tail + z;
      PlusNone(Merging(s + z, |s|, c, limit));
    } else {
      FragmentsStep(h, |payload|, body, ds);
      var a, b, m := h + Bytes2(c) + body[..c], body[c..], |payload| - c;
      var g := Fragments(h, m, b, ds[1..]);
      assert s == a + g;
      NothingBetween(s, z);
      LastOf(s, z, e);
      MergeFragments(a, h, m, b, ds[1..], [], z, e, |s|, c, limit);
      Rejoined(h, Bytes2(c), payload, tail, c, Stale(e, |ds|), z);
    }
    FragmentsLength(h, |payload|, body, ds);
    StaleLength(e, |ds|);
    BehindIt(h, Bytes2(c), payload, tail + Stale(e, |ds|), z, |s|);
  }

  lemma NothingBetween(s: seq<Byte>, z: seq<Byte>)
    ensures s + [] + z == s + z
  {
  }

  lemma Rejoined(h: seq<Byte>, l: seq<Byte>, payload: seq<Byte>, tail: seq<Byte>, c: nat, y: seq<Byte>, z: seq<Byte>)
    requires c <= |payload|
    ensures var body := payload + tail;
      (h + l + body[..c]) + body[c..] + [] + y + z == h + l + payload + (tail + y) + z
  {
    var body := payload + tail;
    assert (h + l + body[..c]) + body[c..] == h + l + payload + tail;
  }

  lemma FragmentsLength(h: seq<Byte>, len: nat, body: seq<Byte>, ds: seq<nat>)
    requires |h| == 3 && Sum(ds) <= |body| && Sum(ds) <= len < U16
    ensures |Fragments(h, len, body, ds)| == |body| + 5 * |ds| + 5
  {
    PiecesLength(h, body, ds);
  }

  lemma StaleLength(e: seq<Byte>, k: nat)
    requires |e| == 5
    ensures |Stale(e, k)| == 5 * k
  {
  }

  lemma PlusNone(o: Outcome)
    ensures Plus(o, 0) == o
  {
  }

  lemma LastOf(s: seq<Byte>, z: seq<Byte>, e: seq<Byte>)
    requires |s| >= 5 && |e| == 5 && s[|s| - 5..] == e
    ensures (s + z)[|s| - 5..|s|] == e
  {
  }

  lemma NumberFirst(h: seq<Byte>, l: seq<Byte>, f: seq<Byte>, z: seq<Byte>)
    requires |h| == 3 && |l| == 2
    ensures Number(h + l + f + z, 3) == Number(l, 0)
  {
  }

  lemma BehindIt(h: seq<Byte>, l: seq<Byte>, payload: seq<Byte>, left: seq<Byte>, z: seq<Byte>, n: nat)
    requires |h| == 3 && |l| == 2 && n == 5 + |payload| + |left|
    ensures CanMerge(h + l + payload + left + z, n, |payload|) <==> ReadsAsRecord(left, h[0])
  {
    hide Number;
    var s := h + l + payload + left + z;
    if |left| >= 5 {
      assert s[|payload| + 8..|payload| + 10] == left[3..5] && s[..|s|] == s && left[..|left|] == left;
      NumberOf(s, |s|, |payload| + 8);
      NumberOf(left, |left|, 3);
    }
  }

  /** merge_tls_records undoes a cut of a single-message record, removing one header a
      cut, if and only if the bytes left past the merged data do not read as a further
      record of its type. */
  lemma MergeUndoes(h: seq<Byte>, payload: seq<Byte>, tail: seq<Byte>, ds: seq<nat>, z: seq<Byte>, e: seq<Byte>,
                    limit: nat)
    requires |h| == 3 && SingleMessage(payload) && Sum(ds) <= |payload| && |e| == 5 && |ds| <= limit
    requires var s := Fragments(h, |payload|, payload + tail, ds); |s| >= 5 && s[|s| - 5..] == e
    ensures var s, left := Fragments(h, |payload|, payload + tail, ds), tail + Stale(e, |ds|);
      var o := Merging(s + z, |s|, Number(s + z, 3), limit);
      && (!ReadsAsRecord(left, h[0]) <==> o.Done? && o.count == |ds|)
      && (!ReadsAsRecord(left, h[0]) ==>
          |o.s| >= 9 && Relabelled(o.s, o.full) == Single(h, payload) + tail + Stale(e, |ds|) + z)
  {
    hide Bytes2, Number, Fragments, Merging, Stale, CanMerge, ReadsAsRecord, Relabelled;
    var s, left, k := Fragments(h, |payload|, payload + tail, ds), tail + Stale(e, |ds|), |ds|;
    MergeCut(h, payload, tail, ds, z, e, limit);
    var first := Bytes2(FirstLength(|payload|, ds));
    var t := h + first + payload + left + z;
    MergingStep(t, |s|, |payload|, limit - k);
    if !ReadsAsRecord(left, h[0]) {
      assert t == h + first + payload + (left + z);
      RelabelledWhole(h, payload, first, left + z);
      assert Single(h, payload) + (left + z) == Single(h, payload) + tail + Stale(e, k) + z;
    }
  }

  // ---------- When merging ends ----------

  /** The `i`-th byte of `tail` with `e` behind it over and over. */
  function On(tail: seq<Byte>, e: seq<Byte>, i: nat): Byte
    requires |e| == 5
  {
    if i < |tail| then tail[i] else e[(i - |tail|) % 5]
  }

  /** `m` of these bytes from the `p`-th one on. */
  function Behind(tail: seq<Byte>, e: seq<Byte>, p: nat, m: nat): (s: seq<Byte>)
    requires |e| == 5
    ensures |s| == m && forall i :: 0 <= i < m ==> s[i] == On(tail, e, p + i)
  {
    seq<Byte>(m, i requires 0 <= i => On(tail, e, p + i))
  }

  /** The length in a header at `p`. */
  function LengthAt(tail: seq<Byte>, e: seq<Byte>, p: nat): nat
    requires |e| == 5
  {
    On(tail, e, p + 3) as int * 256 + On(tail, e, p + 4)
  }

  /** Record after record of type `t`, read from `p` on, comes to an empty one past the tail
      while their lengths, `o` so far, stay within `n`. */
  predicate ComesToEmpty(tail: seq<Byte>, e: seq<Byte>, t: Byte, n: nat, p: nat, o: nat)
    requires |e| == 5
    decreases n - o, if p < |tail| then |tail| - p else 0
  {
    var len := LengthAt(tail, e, p);
    && o + 5 <= n && On(tail, e, p) == t && o + 5 + len <= n
    && ((len == 0 && p >= |tail|) || ComesToEmpty(tail, e, t, n, p + 5 + len, o + len))
  }

  /** The bytes left behind a record are `n`, up to some repetition of the last five. */
  predicate LeftBehind(tail: seq<Byte>, e: seq<Byte>, n: nat) {
    |e| == 5 && n >= |tail| && (n - |tail|) % 5 == 0 && (n == |tail| >= 5 ==> tail[|tail| - 5..] == e)
  }

  lemma Repeats(tail: seq<Byte>, e: seq<Byte>, q: nat, i: nat)
    requires |e| == 5 && q >= |tail| && (q - |tail|) % 5 == 0 && i < 5
    ensures On(tail, e, q + i) == e[i]
  {
    assert q + i - |tail| == (q - |tail|) / 5 * 5 + i;
  }

  lemma SameAgain(tail: seq<Byte>, e: seq<Byte>, p: nat)
    requires |e| == 5 && p >= |tail|
    ensures On(tail, e, p + 5) == On(tail, e, p) && LengthAt(tail, e, p + 5) == LengthAt(tail, e, p)
  {
    assert (p + 5 - |tail|) % 5 == (p - |tail|) % 5;
    assert (p + 8 - |tail|) % 5 == (p + 3 - |tail|) % 5;
    assert (p + 9 - |tail|) % 5 == (p + 4 - |tail|) % 5;
  }

  /** A header taken out of what is left behind, and the last five bytes once more at the
      end: the same bytes from five further on. */
  lemma FiveFurther(tail: seq<Byte>, e: seq<Byte>, n: nat, p: nat, o: nat)
    requires LeftBehind(tail, e, n) && o <= p && (p - o) % 5 == 0 && o + 5 <= n
    ensures var v := Behind(tail, e, p, n - o);
      |v| >= 5 && v[|v| - 5..] == e && v[5..] + e == Behind(tail, e, p + 5, n - o)
  {
    hide On, Behind;
    var m := n - o;
    var v := Behind(tail, e, p, m);
    forall i | 0 <= i < 5
      ensures v[m - 5 + i] == e[i]
    {
      LastFiveAre(tail, e, n, p, o, i);
    }
    SumOfFives(p - o, n - |tail|);
    AppendEnd(tail, e, p, m);
  }

  lemma LastFiveAre(tail: seq<Byte>, e: seq<Byte>, n: nat, p: nat, o: nat, i: nat)
    requires LeftBehind(tail, e, n) && o <= p && (p - o) % 5 == 0 && o + 5 <= n && i < 5
    ensures p + n - o >= |tail| && (p + n - o - |tail|) % 5 == 0
    ensures On(tail, e, p + n - o - 5 + i) == e[i]
  {
    hide On;
    var q := p + n - o;
    SumOfFives(p - o, n - |tail|);
    if q - 5 >= |tail| {
      Repeats(tail, e, q - 5, i);
    } else {
      assert On(tail, e, q - 5 + i) == tail[q - 5 + i] by { InTail(tail, e, q - 5 + i); }
    }
  }

  lemma SumOfFives(x: nat, y: nat)
    requires x % 5 == 0 && y % 5 == 0
    ensures (x + y) % 5 == 0 && (x + y >= 5 ==> (x + y - 5) % 5 == 0) && (0 < x + y ==> x + y >= 5)
  {
  }

  lemma InTail(tail: seq<Byte>, e: seq<Byte>, i: nat)
    requires |e| == 5 && i < |tail|
    ensures On(tail, e, i) == tail[i]
  {
  }

  lemma AppendEnd(tail: seq<Byte>, e: seq<Byte>, p: nat, m: nat)
    requires |e| == 5 && m >= 5 && p + m >= |tail| && (p + m - |tail|) % 5 == 0
    ensures Behind(tail, e, p, m)[5..] + e == Behind(tail, e, p + 5, m)
  {
    hide On, Behind;
    var v, u := Behind(tail, e, p, m), Behind(tail, e, p + 5, m);
    forall i | 0 <= i < m
      ensures (v[5..] + e)[i] == u[i]
    {
      if i >= m - 5 {
        Repeats(tail, e, p + m, i - (m - 5));
      }
    }
  }

  lemma BehindSplit(tail: seq<Byte>, e: seq<Byte>, p: nat, m: nat, c: nat)
    requires |e| == 5 && c <= m
    ensures Behind(tail, e, p, m) == Behind(tail, e, p, c) + Behind(tail, e, p + c, m - c)
  {
  }

  /** The buffer with the `n` bytes left behind the record `a`, of which `x` are merged and the
      rest are read from `p` on. */
  function Walked(a: seq<Byte>, x: seq<Byte>, tail: seq<Byte>, e: seq<Byte>, p: nat, n: nat, z: seq<Byte>): seq<Byte>
    requires |e| == 5 && |x| <= n
  {
    a + x + Behind(tail, e, p, n - |x|) + z
  }

  /** One round of merging into what is left behind. */
  lemma WalkHere(a: seq<Byte>, x: seq<Byte>, tail: seq<Byte>, e: seq<Byte>, p: nat, n: nat, z: seq<Byte>, full: nat)
    requires LeftBehind(tail, e, n) && |a| == 5 + full && |x| <= n && |x| <= p && (p - |x|) % 5 == 0
    ensures var t, o, len := Walked(a, x, tail, e, p, n, z), |x|, LengthAt(tail, e, p);
      && 0 < |a| + n <= |t|
      && (CanMerge(t, |a| + n, full + o) <==> o + 5 <= n && On(tail, e, p) == a[0] && o + 5 + len <= n)
      && (CanMerge(t, |a| + n, full + o) ==>
            && Number(t, full + o + 8) == len
            && Merged(t, |a| + n, full + o) == Walked(a, x + Behind(tail, e, p + 5, len), tail, e, p + 5 + len, n, z))
  {
    hide Number, Behind, On, LengthAt;
    var o, v := |x|, Behind(tail, e, p, n - |x|);
    var t, len := a + x + v + z, LengthAt(tail, e, p);
    if o + 5 <= n {
      HeaderHere(a + x, v, z);
      LengthHere(tail, e, p, n - o);
      FiveFurther(tail, e, n, p, o);
      if o + 5 + len <= n {
        BehindSplit(tail, e, p + 5, n - o, len);
        OutOfBehind(a, x, v, e, z);
        Assoc(a + x, Behind(tail, e, p + 5, len), Behind(tail, e, p + 5 + len, n - o - len));
        Assoc(a, x, Behind(tail, e, p + 5, len));
      }
    }
  }

  lemma LengthHere(tail: seq<Byte>, e: seq<Byte>, p: nat, m: nat)
    requires |e| == 5 && m >= 5
    ensures Number(Behind(tail, e, p, m), 3) == LengthAt(tail, e, p) && Behind(tail, e, p, m)[0] == On(tail, e, p)
  {
  }

  lemma HeaderHere(b: seq<Byte>, v: seq<Byte>, z: seq<Byte>)
    requires |v| >= 5
    ensures Number(b + v + z, |b| + 3) == Number(v, 3) && (b + v + z)[|b|] == v[0]
  {
  }

  lemma OutOfBehind(a: seq<Byte>, x: seq<Byte>, v: seq<Byte>, e: seq<Byte>, z: seq<Byte>)
    requires |e| == 5 && |a| >= 5 && |v| >= 5 && v[|v| - 5..] == e
    ensures Merged(a + x + v + z, |a| + |x| + |v|, |a| - 5 + |x|) == a + x + (v[5..] + e) + z
  {
    var t, n := a + x + v + z, |a| + |x| + |v|;
    assert t[..|a| + |x|] == a + x && t[|a| + |x| + 5..n] == v[5..] && t[n - 5..] == e + z;
  }

  lemma {:induction false} WalkLoops(a: seq<Byte>, x: seq<Byte>, tail: seq<Byte>, e: seq<Byte>, p: nat, n: nat,
                                     z: seq<Byte>, full: nat, limit: nat)
    requires LeftBehind(tail, e, n) && |a| == 5 + full && |x| <= n && |x| <= p && (p - |x|) % 5 == 0
    requires full + n < U16 && ComesToEmpty(tail, e, a[0], n, p, |x|)
    ensures Merging(Walked(a, x, tail, e, p, n, z), |a| + n, full + |x|, limit) == More
    decreases limit
  {
    hide Merging, CanMerge, Merged, Number, Behind, On, LengthAt, Walked;
    WalkHere(a, x, tail, e, p, n, z, full);
    MergingStep(Walked(a, x, tail, e, p, n, z), |a| + n, full + |x|, limit);
    var len := LengthAt(tail, e, p);
    if limit > 0 {
      if len == 0 && p >= |tail| {
        SameAgain(tail, e, p);
      }
      WalkLoops(a, x + Behind(tail, e, p + 5, len), tail, e, p + 5 + len, n, z, full, limit - 1);
    }
  }

  lemma {:induction false} WalkEnds(a: seq<Byte>, x: seq<Byte>, tail: seq<Byte>, e: seq<Byte>, p: nat, n: nat,
                                    z: seq<Byte>, full: nat) returns (limit: nat)
    requires LeftBehind(tail, e, n) && |a| == 5 + full && |x| <= n && |x| <= p && (p - |x|) % 5 == 0
    requires full + n < U16 && !ComesToEmpty(tail, e, a[0], n, p, |x|)
    ensures Merging(Walked(a, x, tail, e, p, n, z), |a| + n, full + |x|, limit).Done?
    decreases n - |x|, if p < |tail| then |tail| - p else 0
  {
    hide Merging, CanMerge, Merged, Number, Behind, On, LengthAt, Walked;
    WalkHere(a, x, tail, e, p, n, z, full);
    limit := 0;
    if CanMerge(Walked(a, x, tail, e, p, n, z), |a| + n, full + |x|) {
      var len := LengthAt(tail, e, p);
      var l := WalkEnds(a, x + Behind(tail, e, p + 5, len), tail, e, p + 5 + len, n, z, full);
      limit := l + 1;
    }
    MergingStep(Walked(a, x, tail, e, p, n, z), |a| + n, full + |x|, limit);
  }

  /** What the cuts leave behind a record: the tail and its last five bytes over and over. */
  lemma {:induction false} StaleIsBehind(tail: seq<Byte>, e: seq<Byte>, k: nat)
    requires |e| == 5
    ensures tail + Stale(e, k) == Behind(tail, e, 0, |tail| + 5 * k)
  {
    hide Stale;
    StaleLength(e, k);
    forall i | 0 <= i < 5 * k
      ensures Stale(e, k)[i] == On(tail, e, |tail| + i)
    {
      StaleAt(e, k, i);
    }
  }

  lemma {:induction false} StaleAt(e: seq<Byte>, k: nat, i: nat)
    requires |e| == 5 && i < 5 * k
    ensures i < |Stale(e, k)| && Stale(e, k)[i] == e[i % 5]
  {
    if i >= 5 {
      StaleAt(e, k - 1, i - 5);
    }
  }

  /** Merging a cut record, with any bytes behind it, never ends if and only if these, and
      then the last five over and over, lead to an empty record of its type. */
  lemma CutEndsIff(h: seq<Byte>, payload: seq<Byte>, tail: seq<Byte>, ds: seq<nat>, z: seq<Byte>, e: seq<Byte>)
    requires |h| == 3 && Sum(ds) <= |payload| && |e| == 5 && |payload| + |tail| + 5 * |ds| < U16
    requires var s := Fragments(h, |payload|, payload + tail, ds); |s| >= 5 && s[|s| - 5..] == e
    ensures var s := Fragments(h, |payload|, payload + tail, ds);
      |s + z| >= 5 && ((forall limit: nat :: limit >= |ds| ==> Merging(s + z, |s|, Number(s + z, 3), limit) == More)
                       <==> ComesToEmpty(tail, e, h[0], |tail| + 5 * |ds|, 0, 0))
  {
    hide Merging, Number, Stale, Fragments, ComesToEmpty, Bytes2, Behind, LeftBehind;
    var s, k, n := Fragments(h, |payload|, payload + tail, ds), |ds|, |tail| + 5 * |ds|;
    FragmentsHead(h, |payload|, payload + tail, ds);
    FragmentsLength(h, |payload|, payload + tail, ds);
    var a := h + Bytes2(FirstLength(|payload|, ds)) + payload;
    StaleIsBehind(tail, e, k);
    assert a + [] == a;
    assert LeftBehind(tail, e, n) by { TailEnds(h, payload, tail, ds, e); }
    if ComesToEmpty(tail, e, h[0], n, 0, 0) {
      forall limit: nat | limit >= k
        ensures Merging(s + z, |s|, Number(s + z, 3), limit) == More
      {
        MergeCut(h, payload, tail, ds, z, e, limit);
        WalkLoops(a, [], tail, e, 0, n, z, |payload|, limit - k);
      }
    } else {
      var l := WalkEnds(a, [], tail, e, 0, n, z, |payload|);
      MergeCut(h, payload, tail, ds, z, e, l + k);
    }
  }

  lemma TailEnds(h: seq<Byte>, payload: seq<Byte>, tail: seq<Byte>, ds: seq<nat>, e: seq<Byte>)
    requires |h| == 3 && Sum(ds) <= |payload| < U16 && |e| == 5
    requires var s := Fragments(h, |payload|, payload + tail, ds); |s| >= 5 && s[|s| - 5..] == e
    ensures LeftBehind(tail, e, |tail| + 5 * |ds|)
  {
    hide Bytes2, Fragments;
    if ds == [] && |tail| >= 5 {
      FragmentsNone(h, |payload|, payload + tail);
      var s := h + Bytes2(|payload|) + (payload + tail);
      assert s[|s| - 5..] == tail[|tail| - 5..];
    }
  }

  /** A handshake message that ends in the header of an empty record of its type: cut
      once, it is merged for ever. */
  lemma NeverEnds(limit: nat)
    requires limit >= 1
    ensures var h, payload := [22, 3, 1], [1, 0, 0, 5, 22, 3, 1, 0, 0];
      && SingleMessage(payload) && Sum([4]) == 4
      && var s := Fragments(h, 9, payload, [4]);
      |s| >= 5 && Merging(s, |s|, Number(s, 3), limit) == More
  {
    var h: seq<Byte>, payload: seq<Byte>, e: seq<Byte> := [22, 3, 1], [1, 0, 0, 5, 22, 3, 1, 0, 0], [22, 3, 1, 0, 0];
    EmptyAtEnd(h, payload, e);
    EmptyAgain(e);
    var s := Fragments(h, 9, payload, [4]);
    hide Merging, Fragments, ComesToEmpty, Number, Stale, Bytes2;
    assert s + [] == s;
    assert payload + [] == payload;
    CutEndsIff(h, payload, [], [4], [], e);
  }

  lemma EmptyAgain(e: seq<Byte>)
    requires e == [22, 3, 1, 0, 0]
    ensures ComesToEmpty([], e, 22, 5, 0, 0)
  {
    assert On([], e, 0) == 22 && On([], e, 3) == 0 && On([], e, 4) == 0;
  }

  lemma EmptyAtEnd(h: seq<Byte>, payload: seq<Byte>, e: seq<Byte>)
    requires h == [22, 3, 1] && payload == [1, 0, 0, 5, 22, 3, 1, 0, 0] && e == [22, 3, 1, 0, 0]
    ensures SingleMessage(payload) && Sum([4]) == 4
    ensures var s := Fragments(h, 9, payload, [4]); |s| >= 5 && s[|s| - 5..] == e
  {
    assert Bytes2(5) == [0, 5] && payload[2..4] == [0, 5];
    hide Fragments, Pieces, Bytes2;
    assert [4][1..] == [] && Sum([]) == 0;
    FragmentsLength(h, 9, payload, [4]);
    FragmentsStep(h, 9, payload, [4]);
    FragmentsNone(h, 5, payload[4..]);
    LastOfThree(h + Bytes2(4) + payload[..4], h + Bytes2(5), payload[4..], e);
  }

  lemma LastOfThree(a: seq<Byte>, b: seq<Byte>, c: seq<Byte>, e: seq<Byte>)
    requires c == e && |e| == 5
    ensures var s := a + (b + c); |s| >= 5 && s[|s| - 5..] == e
  {
  }
}
