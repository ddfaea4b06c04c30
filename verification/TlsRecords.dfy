/** Cutting a TLS record into several and merging records into one, in place. */
module TlsRecords {
  import opened Octets

  /** A 16-bit number in network order. */
  function Bytes2(x: nat): (s: seq<Byte>)
    requires x < U16
    ensures |s| == 2 && Number(s, 0) == x
  {
    [x / 256, x % 256]
  }

  /** ANTOHS. */
  function Number(s: seq<Byte>, i: nat): (x: nat)
    requires i + 2 <= |s|
    ensures x < U16
  {
    s[i] as int * 256 + s[i + 1]
  }

  /** `d` written over `s` at `i`. */
  function Put(s: seq<Byte>, i: nat, d: seq<Byte>): (t: seq<Byte>)
    requires i + |d| <= |s|
    ensures |t| == |s|
  {
    s[..i] + d + s[i + |d|..]
  }

  /** memmove within a buffer. */
  method Move(buffer: array<Byte>, to: nat, from: nat, n: nat)
    requires to + n <= buffer.Length && from + n <= buffer.Length
    modifies buffer
    ensures buffer[..] == Put(old(buffer[..]), to, old(buffer[from..from + n]))
  {
    ghost var was := buffer[..];
    var copy := buffer[from..from + n];
    forall i | 0 <= i < n {
      buffer[to + i] := copy[i];
    }
  }

  /** SHTONA. */
  method PutNumber(buffer: array<Byte>, i: nat, x: nat)
    requires i + 2 <= buffer.Length && x < U16
    modifies buffer
    ensures buffer[..] == Put(old(buffer[..]), i, Bytes2(x))
  {
    buffer[i] := x / 256;
    buffer[i + 1] := x % 256;
  }

  // ---------- Cutting ----------

  /** The record at `base` cut after `pos` bytes of payload; what follows moves up by a header. */
  function CutAt(s: seq<Byte>, base: nat, pos: nat): seq<Byte>
    requires base + 5 + pos <= |s| && pos <= Number(s, base + 3)
  {
    var h, len := s[base..base + 3], Number(s, base + 3);
    s[..base] + (h + Bytes2(pos) + s[base + 5..base + 5 + pos]) + (h + Bytes2(len - pos) + s[base + 5 + pos..])
  }

  lemma NumberOf(b: seq<Byte>, n: nat, i: nat)
    requires i + 2 <= n <= |b|
    ensures Number(b[..n], i) == Number(b[i..i + 2], 0) == Number(b, i)
  {
  }

  lemma PutBetween(s: seq<Byte>, a: seq<Byte>, x: seq<Byte>, c: seq<Byte>, d: seq<Byte>)
    requires s == a + x + c && |x| == |d|
    ensures Put(s, |a|, d) == a + d + c
  {
  }

  lemma PutInside(a: seq<Byte>, x: seq<Byte>, b: seq<Byte>, h: seq<Byte>, c: seq<Byte>, d: seq<Byte>)
    requires |x| == |d|
    ensures Put(a + x + b + h + c, |a|, d) == a + d + b + h + c
  {
    assert a + x + b + h + c == a + x + (b + h + c);
    PutBetween(a + x + b + h + c, a, x, b + h + c, d);
    assert a + d + b + h + c == a + d + (b + h + c);
  }

  /** What the four writes of part_tls do to a buffer of known parts. */
  lemma CutWrites(a: seq<Byte>, l: seq<Byte>, b: seq<Byte>, o: seq<Byte>, z: seq<Byte>, c: seq<Byte>,
                  h: seq<Byte>, p: seq<Byte>, q: seq<Byte>)
    requires |l| == |p| && |o| == |h| && |z| == |q|
    ensures Put(Put(Put(a + l + b + o + (z + c), |a + l + b|, h), |a|, p), |a + p + b + h|, q) == a + p + b + h + q + c
  {
    hide Put;
    var front := a + p + b + h;
    PutBetween(a + l + b + o + (z + c), a + l + b, o, z + c, h);
    PutInside(a, l, b, h, z + c, p);
    Assoc(front, z, c);
    PutBetween(front + (z + c), front, z, c, q);
  }

  /** A buffer with its bytes from `at` to `n` moved up by five. */
  lemma MovedUp(b: seq<Byte>, base: nat, at: nat, n: nat)
    requires base + 5 <= at <= n && n + 5 <= |b|
    ensures var o, z := b[at..at + 3], b[at + 3..at + 5];
      var b1 := Put(b, at + 5, b[at..n]);
      && b1 == b[..base + 3] + b[base + 3..base + 5] + b[base + 5..at] + o + (z + (b[at..n] + b[n + 5..]))
      && b1[base..base + 3] == b[base..base + 3]
  {
    hide Put;
    var x, y, front := b[at..n], b[n + 5..], b[..at + 5];
    PutBetween(b, front, b[at + 5..n + 5], y, x);
    FrontParts(b, base, at);
    var o, z := b[at..at + 3], b[at + 3..at + 5];
    var start := b[..base + 3] + b[base + 3..base + 5] + b[base + 5..at] + o;
    assert start + z + x + y == start + (z + (x + y));
    assert (front + x + y)[base..base + 3] == front[base..base + 3];
  }

  lemma FrontParts(b: seq<Byte>, base: nat, at: nat)
    requires base + 5 <= at && at + 5 <= |b|
    ensures b[..at + 5]
      == b[..base + 3] + b[base + 3..base + 5] + b[base + 5..at] + b[at..at + 3] + b[at + 3..at + 5]
  {
  }

  lemma CutTaken(b: seq<Byte>, base: nat, at: nat, n: nat)
    requires base + 5 <= at <= n <= |b|
    ensures b[..base + 3] == b[..base] + b[base..base + 3]
    ensures b[..n][base..base + 3] == b[base..base + 3] && b[..n][base + 5..at] == b[base + 5..at]
    ensures b[..n][at..] == b[at..n] && b[..n][..base] == b[..base]
  {
  }

  lemma CutShape(a: seq<Byte>, h: seq<Byte>, p: seq<Byte>, mid: seq<Byte>, q: seq<Byte>, x: seq<Byte>, y: seq<Byte>)
    ensures var t := (a + h) + p + mid + h + q + (x + y);
      var k := |a| + |h| + |p| + |mid| + |h| + |q| + |x|;
      |t| >= k && t[..k] == a + (h + p + mid) + (h + q + x)
  {
  }

  /** The moves of part_tls cut the record. */
  lemma CutCode(b: seq<Byte>, base: nat, n: nat, pos: nat)
    requires base + 5 + pos <= n && n + 5 <= |b| && pos <= Number(b, base + 3)
    ensures var at, len := base + 5 + pos, Number(b, base + 3);
      var b1 := Put(b, at + 5, b[at..n]);
      var b2 := Put(b1, at, b1[base..base + 3]);
      var b3 := Put(b2, base + 3, Bytes2(pos));
      var b4 := Put(b3, at + 3, Bytes2(len - pos));
      Number(b[..n], base + 3) == len && b4[..n + 5] == CutAt(b[..n], base, pos)
  {
    hide Number, Bytes2, Put;
    var at, len := base + 5 + pos, Number(b, base + 3);
    NumberOf(b, n, base + 3);
    var h, x, mid, y, p, q := b[base..base + 3], b[at..n], b[base + 5..at], b[n + 5..], Bytes2(pos), Bytes2(len - pos);
    MovedUp(b, base, at, n);
    CutTaken(b, base, at, n);
    CutWrites(b[..base + 3], b[base + 3..base + 5], mid, b[at..at + 3], b[at + 3..at + 5], x + y, h, p, q);
    CutShape(b[..base], h, p, mid, q, x, y);
  }

  /** ... and leave what lies past them. */
  lemma PutPast(s: seq<Byte>, i: nat, d: seq<Byte>, n: nat)
    requires i + |d| <= n <= |s|
    ensures Put(s, i, d)[n..] == s[n..]
  {
  }

  /** part_tls on the record at `base`; `n` is the end of the data. */
  method PartTls(buffer: array<Byte>, base: nat, n: nat, pos: int) returns (r: int)
    requires base <= n <= buffer.Length
    modifies buffer
    ensures n - base < 3 || buffer.Length - n < 5 || pos < 0 || base + pos + 5 > n ==> r == 0
    ensures !(n - base < 3 || buffer.Length - n < 5 || pos < 0 || base + pos + 5 > n) ==>
      r == if Number(old(buffer[..n]), base + 3) < pos then n - base else 5
    ensures r != 5 || Number(old(buffer[..n]), base + 3) < pos ==> buffer[..] == old(buffer[..])
    ensures r == 5 && pos <= Number(old(buffer[..n]), base + 3) ==>
      && n + 5 <= buffer.Length && buffer[..n + 5] == CutAt(old(buffer[..n]), base, pos)
      && buffer[n + 5..] == old(buffer[n + 5..])
  {
    hide Put, CutAt, Number, Bytes2;
    if n - base < 3 || buffer.Length - n < 5 || pos < 0 || base + pos + 5 > n {
      return 0;
    }
    ghost var b := buffer[..];
    NumberOf(b, n, base + 3);
    var size := Number(buffer[base + 3..base + 5], 0);
    assert buffer[base + 3..base + 5] == b[base + 3..base + 5] && buffer[..n] == b[..n];
    if size < pos {
      return n - base;
    }
    CutCode(b, base, n, pos);
    ghost var at := base + 5 + pos;
    PutPast(b, at + 5, b[at..n], n + 5);
    ghost var b1 := Put(b, at + 5, b[at..n]);
    PutPast(b1, at, b1[base..base + 3], n + 5);
    ghost var b2 := Put(b1, at, b1[base..base + 3]);
    PutPast(b2, base + 3, Bytes2(pos), n + 5);
    ghost var b3 := Put(b2, base + 3, Bytes2(pos));
    PutPast(b3, at + 3, Bytes2(size - pos), n + 5);
    Move(buffer, base + 5 + pos + 5, base + 5 + pos, n - (base + 5 + pos));
    Move(buffer, base + 5 + pos, base, 3);
    PutNumber(buffer, base + 3, pos);
    PutNumber(buffer, base + 5 + pos + 3, size - pos);
    assert buffer[..n + 5] == buffer[..][..n + 5] && buffer[n + 5..] == buffer[..][n + 5..];
    return 5;
  }

  /** part_tls refuses the place `pos` behind `base`, with `n` bytes of data in a buffer of `room`. */
  predicate Refuses(room: nat, n: nat, base: nat, pos: int) {
    pos < base || n - base < 3 || room - n < 5 || pos + 5 > n
  }

  /** The buffer after part_tls at `pos`, whatever stands at `base`: it is cut as a record that
      reaches as far, and left alone as one that does not. */
  function Parted(b: seq<Byte>, n: nat, base: nat, pos: int): (t: seq<Byte>)
    requires base <= n <= |b| && !Refuses(|b|, n, base, pos)
    ensures |t| == |b|
  {
    if pos - base <= Number(b[..n], base + 3) then CutAt(b[..n], base, pos - base) + b[n + 5..] else b
  }

  function Sum(ds: seq<nat>): nat {
    if ds == [] then 0 else ds[0] + Sum(ds[1..])
  }

  /** Records of type and version `h` that carry the first bytes of `body` in pieces of the lengths `ds`. */
  function Pieces(h: seq<Byte>, body: seq<Byte>, ds: seq<nat>): seq<Byte>
    requires Sum(ds) <= |body| && Sum(ds) < U16
  {
    if ds == [] then []
    else h + Bytes2(ds[0]) + body[..ds[0]] + Pieces(h, body[ds[0]..], ds[1..])
  }

  /** A record of `len` bytes cut into pieces of the lengths `ds` and the rest. */
  function Fragments(h: seq<Byte>, len: nat, body: seq<Byte>, ds: seq<nat>): seq<Byte>
    requires Sum(ds) <= |body| && Sum(ds) <= len < U16
  {
    Pieces(h, body, ds) + (h + Bytes2(len - Sum(ds)) + body[Sum(ds)..])
  }

  lemma {:induction false} SumAppend(ds: seq<nat>, d: nat)
    ensures Sum(ds + [d]) == Sum(ds) + d
  {
    if ds == [] {
      assert ([] + [d])[1..] == [];
    } else {
      SumAppend(ds[1..], d);
      assert (ds + [d])[1..] == ds[1..] + [d];
    }
  }

  lemma {:induction false} PiecesAppend(h: seq<Byte>, body: seq<Byte>, ds: seq<nat>, d: nat)
    requires Sum(ds) + d <= |body| && Sum(ds) + d < U16
    ensures Sum(ds + [d]) == Sum(ds) + d
    ensures Pieces(h, body, ds + [d]) == Pieces(h, body, ds) + (h + Bytes2(d) + body[Sum(ds)..Sum(ds) + d])
    decreases |ds|
  {
    hide Bytes2, Pieces;
    SumAppend(ds, d);
    PiecesNone(h, body);
    if ds == [] {
      assert [] + [d] == [d];
      PiecesStep(h, body, [d]);
      assert [d][1..] == [];
      PiecesNone(h, body[d..]);
    } else {
      var all, rest := ds + [d], body[ds[0]..];
      assert all[1..] == ds[1..] + [d];
      PiecesAppend(h, rest, ds[1..], d);
      var y := h + Bytes2(d) + body[Sum(ds)..Sum(ds) + d];
      assert rest[Sum(ds[1..])..Sum(ds[1..]) + d] == body[Sum(ds)..Sum(ds) + d];
      PiecesStep(h, body, all);
      PiecesStep(h, body, ds);
      Assoc(h + Bytes2(ds[0]) + body[..ds[0]], Pieces(h, rest, ds[1..]), y);
    }
  }

  lemma Assoc(a: seq<Byte>, b: seq<Byte>, c: seq<Byte>)
    ensures (a + b) + c == a + (b + c)
  {
  }

  lemma PiecesNone(h: seq<Byte>, body: seq<Byte>)
    ensures Sum([]) == 0 && Pieces(h, body, []) == []
  {
  }

  lemma PiecesStep(h: seq<Byte>, body: seq<Byte>, ds: seq<nat>)
    requires Sum(ds) <= |body| && Sum(ds) < U16 && ds != []
    ensures Pieces(h, body, ds) == h + Bytes2(ds[0]) + body[..ds[0]] + Pieces(h, body[ds[0]..], ds[1..])
  {
  }

  lemma {:induction false} PiecesLength(h: seq<Byte>, body: seq<Byte>, ds: seq<nat>)
    requires Sum(ds) <= |body| && Sum(ds) < U16 && |h| == 3
    ensures |Pieces(h, body, ds)| == Sum(ds) + 5 * |ds|
    decreases |ds|
  {
    if ds != [] {
      PiecesLength(h, body[ds[0]..], ds[1..]);
    }
  }

  /** Where the parts of a record are. */
  lemma RecordAt(a: seq<Byte>, h: seq<Byte>, l: seq<Byte>, rest: seq<Byte>, d: nat)
    requires |h| == 3 && |l| == 2 && d <= |rest|
    ensures var s, base := a + (h + l + rest), |a|;
      && |s| == base + 5 + |rest| && s[..base] == a && s[base..base + 3] == h && s[base + 3..base + 5] == l
      && s[base + 5..base + 5 + d] == rest[..d] && s[base + 5 + d..] == rest[d..]
  {
  }

  lemma FragmentsAre(h: seq<Byte>, len: nat, body: seq<Byte>, ds: seq<nat>)
    requires Sum(ds) <= |body| && Sum(ds) <= len < U16
    ensures Fragments(h, len, body, ds) == Pieces(h, body, ds) + (h + Bytes2(len - Sum(ds)) + body[Sum(ds)..])
  {
  }

  /** A record after `a`, cut. */
  lemma CutAfter(a: seq<Byte>, h: seq<Byte>, m: nat, rest: seq<Byte>, d: nat)
    requires |h| == 3 && d <= |rest| && d <= m < U16
    ensures var s, base := a + (h + Bytes2(m) + rest), |a|;
      && |s| == base + 5 + |rest| && Number(s, base + 3) == m
      && CutAt(s, base, d) == (a + (h + Bytes2(d) + rest[..d])) + (h + Bytes2(m - d) + rest[d..])
  {
    hide Bytes2, Number;
    var s, base := a + (h + Bytes2(m) + rest), |a|;
    RecordAt(a, h, Bytes2(m), rest, d);
    NumberOf(s, |s|, base + 3);
    assert s[..|s|] == s;
  }

  /** One more cut in the last record. */
  lemma CutMore(h: seq<Byte>, len: nat, body: seq<Byte>, ds: seq<nat>, d: nat)
    requires |h| == 3 && Sum(ds) + d <= |body| && Sum(ds) + d <= len < U16
    ensures var s, base := Fragments(h, len, body, ds), Sum(ds) + 5 * |ds|;
      && |s| == |body| + 5 * |ds| + 5 && base + 5 + d <= |s| && Number(s, base + 3) == len - Sum(ds)
      && Sum(ds + [d]) == Sum(ds) + d && CutAt(s, base, d) == Fragments(h, len, body, ds + [d])
  {
    hide Pieces, Bytes2, Number, CutAt, Fragments, Sum;
    PiecesLength(h, body, ds);
    PiecesAppend(h, body, ds, d);
    FragmentsAre(h, len, body, ds);
    FragmentsAre(h, len, body, ds + [d]);
    var rest := body[Sum(ds)..];
    TailOfTail(body, Sum(ds), d);
    assert rest[..d] == body[Sum(ds)..Sum(ds) + d];
    CutAfter(Pieces(h, body, ds), h, len - Sum(ds), rest, d);
  }

  lemma PartedIs(was: seq<Byte>, b: seq<Byte>, n: nat, base: nat, d: nat, r: int)
    requires base <= n <= |b| == |was| && (r == 0 <==> Refuses(|b|, n, base, base + d))
    requires r != 0 && Number(was[..n], base + 3) < d ==> b == was
    requires r != 0 && d <= Number(was[..n], base + 3) ==>
      b[..n + 5] == CutAt(was[..n], base, d) && b[n + 5..] == was[n + 5..]
    ensures r != 0 ==> b == Parted(was, n, base, base + d)
  {
    hide CutAt, Number;
    if r != 0 {
      assert b == b[..n + 5] + b[n + 5..];
    }
  }

  /** part_tls, on what is left of a record cut before as long as the data is `whole`. */
  method CutNext(buffer: array<Byte>, base: nat, n: nat, d: nat, ghost whole: bool, ghost h: seq<Byte>, ghost len: nat,
                 ghost body: seq<Byte>, ghost ds: seq<nat>) returns (r: int, ghost cut: bool)
    requires base <= n <= buffer.Length && Sum(ds) <= |body| && Sum(ds) <= len < U16 && |h| == 3
    requires whole ==>
        base == Sum(ds) + 5 * |ds| && n == |body| + 5 + 5 * |ds| && buffer[..n] == Fragments(h, len, body, ds)
    modifies buffer
    ensures r != 0 ==> n + 5 <= buffer.Length && base + d + 5 <= n
    ensures r == 0 <==> Refuses(buffer.Length, n, base, base + d)
    ensures r != 0 ==> buffer[..] == Parted(old(buffer[..]), n, base, base + d)
    ensures cut <==> whole && r != 0 && d <= len - Sum(ds)
    ensures r == 0 || (whole && !cut) ==> buffer[..] == old(buffer[..])
    ensures cut ==> Sum(ds) + d <= |body| && Sum(ds + [d]) == Sum(ds) + d
    ensures cut ==> buffer[..n + 5] == Fragments(h, len, body, ds + [d]) && buffer[n + 5..] == old(buffer[n + 5..])
  {
    hide Pieces, Bytes2, Number, CutAt, Fragments;
    if whole {
      CutRange(h, len, body, ds);
    }
    ghost var was := buffer[..];
    assert was[..n] == buffer[..n];
    r := PartTls(buffer, base, n, d);
    PartedIs(was, buffer[..], n, base, d, r);
    cut := whole && r != 0 && d <= len - Sum(ds);
    if cut {
      CutMore(h, len, body, ds, d);
    }
  }

  /** Where the `k`-th round starts: behind the header written by the one before. */
  function StartOf(cuts: seq<int>, k: nat): int
    requires k <= |cuts|
  {
    if k == 0 then 0 else cuts[k - 1] + 5
  }

  /** The first `k` rounds are not refused, for the lengths and the places alone. */
  predicate Passes(room: nat, n0: nat, cuts: seq<int>, k: nat) {
    && k <= |cuts|
    && forall j :: 0 <= j < k ==> 0 <= StartOf(cuts, j) && !Refuses(room, n0 + 5 * j, StartOf(cuts, j), cuts[j])
  }

  /** The buffer after `k` rounds. */
  function Rounds(b: seq<Byte>, n0: nat, cuts: seq<int>, k: nat): (t: seq<Byte>)
    requires n0 <= |b| && Passes(|b|, n0, cuts, k)
    ensures |t| == |b|
  {
    if k == 0 then b
    else Parted(Rounds(b, n0, cuts, k - 1), n0 + 5 * (k - 1), StartOf(cuts, k - 1), cuts[k - 1])
  }

  /** The record loop of tamp: cuts the record at the given places until it is through or a
      place is refused, which is a matter of the lengths and the places alone. The first `ds`
      places lie in the record. A place past what is left of it cuts nothing, but the data
      counts as five bytes longer all the same; of the rounds after that place each takes
      what stands behind it for a record. */
  method Tamp(buffer: array<Byte>, n0: nat, cuts: seq<int>) returns (n: nat, ghost ds: seq<nat>, ghost over: nat)
    requires 5 <= n0 <= buffer.Length
    modifies buffer
    ensures n == n0 + 5 * (|ds| + over) <= buffer.Length && Passes(buffer.Length, n0, cuts, |ds| + over)
    ensures |ds| + over < |cuts| ==>
      Refuses(buffer.Length, n, StartOf(cuts, |ds| + over), cuts[|ds| + over])
    ensures buffer[..] == Rounds(old(buffer[..]), n0, cuts, |ds| + over)
    ensures Sum(ds) <= n0 - 5 && Sum(ds) <= Number(old(buffer[..n0]), 3)
    ensures forall i :: 0 <= i < |ds| ==> cuts[i] == Sum(ds[..i + 1]) + 5 * i
    ensures over <= 1 ==> buffer[..n0 + 5 * |ds|]
                          == Fragments(old(buffer[..3]), Number(old(buffer[..n0]), 3), old(buffer[5..n0]), ds)
    ensures over <= 1 ==> buffer[n0 + 5 * |ds|..] == old(buffer[..])[n0 + 5 * |ds|..]
    ensures over > 0 ==> cuts[|ds|] > Number(old(buffer[..n0]), 3) + 5 * |ds|
  {
    hide Pieces, Bytes2, Number, CutAt, Fragments, CutSoFar, Sum, Parted, Refuses, Rounds, Passes;
    ghost var h, len, body, past := buffer[..3], Number(buffer[..n0], 3), buffer[5..n0], buffer[..];
    n, ds, over := n0, [], 0;
    NotYetCut(past, n0);
    NoRounds(past, n0, cuts);
    assert past[..n0] == buffer[..n0] && past[..3] == h && past[5..n0] == body;
    var lp, i := 0, 0;
    while i < |cuts|
      invariant i == |ds| + over <= |cuts| && n == n0 + 5 * i <= buffer.Length && 0 <= lp <= n
      invariant lp == StartOf(cuts, i) && Passes(buffer.Length, n0, cuts, i)
      invariant buffer[..] == Rounds(past, n0, cuts, i)
      invariant over == 0 ==> lp == Sum(ds) + 5 * |ds|
      invariant Sum(ds) <= |body| && Sum(ds) <= len
      invariant over <= 1 ==> CutSoFar(buffer[..], past, n0, h, len, body, ds)
      invariant forall j :: 0 <= j < |ds| ==> cuts[j] == Sum(ds[..j + 1]) + 5 * j
      invariant over > 0 ==> cuts[|ds|] > len + 5 * |ds|
    {
      var pos := cuts[i];
      if pos < lp {
        PlaceBehind(buffer.Length, n, lp, pos);
        break;
      }
      ghost var d := pos - lp;
      var r;
      ghost var cut, was := false, buffer[..];
      CutWhole(was, past, n0, h, len, body, ds, over == 0);
      assert buffer[..n] == was[..n];
      r, cut := CutNext(buffer, lp, n, pos - lp, over == 0, h, len, body, ds);
      if r == 0 {
        assert buffer[..] == was;
        break;
      }
      OneMoreRound(past, n0, cuts, i);
      if cut {
        SumsKept(ds, d);
        CutFurther(was, buffer[..], past, n0, h, len, body, ds, d);
        ds := ds + [d];
      } else {
        over := over + 1;
      }
      n := n + 5;
      lp := pos + 5;
      i := i + 1;
    }
    CutTold(buffer[..], past, n0, h, len, body, ds, over <= 1);
    assert buffer[..n0 + 5 * |ds|] == buffer[..][..n0 + 5 * |ds|];
    assert buffer[n0 + 5 * |ds|..] == buffer[..][n0 + 5 * |ds|..];
  }

  lemma NoRounds(b: seq<Byte>, n0: nat, cuts: seq<int>)
    requires n0 <= |b|
    ensures Passes(|b|, n0, cuts, 0) && Rounds(b, n0, cuts, 0) == b
  {
  }

  lemma PlaceBehind(room: nat, n: nat, base: nat, pos: int)
    requires pos < base
    ensures Refuses(room, n, base, pos)
  {
  }

  lemma OneMoreRound(b: seq<Byte>, n0: nat, cuts: seq<int>, k: nat)
    requires n0 <= |b| && Passes(|b|, n0, cuts, k) && k < |cuts| && 0 <= StartOf(cuts, k)
    requires !Refuses(|b|, n0 + 5 * k, StartOf(cuts, k), cuts[k])
    ensures Passes(|b|, n0, cuts, k + 1) && StartOf(cuts, k) <= n0 + 5 * k <= |b|
    ensures Rounds(b, n0, cuts, k + 1) == Parted(Rounds(b, n0, cuts, k), n0 + 5 * k, StartOf(cuts, k), cuts[k])
  {
    hide Parted;
  }

  /** The record in the first `n0` bytes cut into pieces of the lengths `ds`, and the rest as it was. */
  ghost predicate CutSoFar(b: seq<Byte>, past: seq<Byte>, n0: nat, h: seq<Byte>, len: nat, body: seq<Byte>,
                           ds: seq<nat>) {
    && Sum(ds) <= |body| && Sum(ds) <= len < U16 && n0 + 5 * |ds| <= |b| == |past|
    && b[..n0 + 5 * |ds|] == Fragments(h, len, body, ds) && b[n0 + 5 * |ds|..] == past[n0 + 5 * |ds|..]
  }

  lemma NotYetCut(s: seq<Byte>, n0: nat)
    requires 5 <= n0 <= |s|
    ensures Sum([]) == 0 && CutSoFar(s, s, n0, s[..3], Number(s[..n0], 3), s[5..n0], [])
  {
    Uncut(s[..n0]);
    assert s[..n0][..3] == s[..3] && s[..n0][5..] == s[5..n0];
  }

  lemma CutWhole(b: seq<Byte>, past: seq<Byte>, n0: nat, h: seq<Byte>, len: nat, body: seq<Byte>, ds: seq<nat>,
                 whole: bool)
    requires whole ==> CutSoFar(b, past, n0, h, len, body, ds)
    ensures whole ==> Sum(ds) <= |body| && Sum(ds) <= len < U16 && n0 + 5 * |ds| <= |b|
    ensures whole ==> b[..n0 + 5 * |ds|] == Fragments(h, len, body, ds)
  {
  }

  lemma CutTold(b: seq<Byte>, past: seq<Byte>, n0: nat, h: seq<Byte>, len: nat, body: seq<Byte>, ds: seq<nat>,
                told: bool)
    requires told ==> CutSoFar(b, past, n0, h, len, body, ds)
    ensures told ==> Sum(ds) <= |body| && Sum(ds) <= len < U16 && n0 + 5 * |ds| <= |b| == |past|
    ensures told ==> b[..n0 + 5 * |ds|] == Fragments(h, len, body, ds) && b[n0 + 5 * |ds|..] == past[n0 + 5 * |ds|..]
  {
  }

  lemma CutFurther(was: seq<Byte>, b: seq<Byte>, past: seq<Byte>, n0: nat, h: seq<Byte>, len: nat, body: seq<Byte>,
                   ds: seq<nat>, d: nat)
    requires CutSoFar(was, past, n0, h, len, body, ds) && |b| == |was| && n0 + 5 * |ds| + 5 <= |b|
    requires Sum(ds) + d <= |body| && Sum(ds) + d <= len < U16 && Sum(ds + [d]) == Sum(ds) + d
    requires b[..n0 + 5 * |ds| + 5] == Fragments(h, len, body, ds + [d])
    requires b[n0 + 5 * |ds| + 5..] == was[n0 + 5 * |ds| + 5..]
    ensures CutSoFar(b, past, n0, h, len, body, ds + [d])
  {
    hide Fragments, Sum;
    DropMore(past, n0 + 5 * |ds|);
    DropMore(was, n0 + 5 * |ds|);
  }

  lemma DropMore(s: seq<Byte>, n: nat)
    requires n + 5 <= |s|
    ensures s[n..][5..] == s[n + 5..]
  {
  }

  lemma Uncut(s: seq<Byte>)
    requires |s| >= 5
    ensures Sum([]) == 0 && s == Fragments(s[..3], Number(s, 3), s[5..], [])
  {
  }

  lemma CutRange(h: seq<Byte>, len: nat, body: seq<Byte>, ds: seq<nat>)
    requires |h| == 3 && Sum(ds) <= |body| && Sum(ds) <= len < U16
    ensures var s, base := Fragments(h, len, body, ds), Sum(ds) + 5 * |ds|;
      |s| == |body| + 5 * |ds| + 5 && base + 5 <= |s| && Number(s, base + 3) == len - Sum(ds)
  {
    CutMore(h, len, body, ds, 0);
  }

  lemma SumsKept(ds: seq<nat>, d: nat)
    ensures forall j :: 1 <= j <= |ds| ==> (ds + [d])[..j] == ds[..j]
    ensures (ds + [d])[..|ds| + 1] == ds + [d]
  {
  }

  lemma FragmentsNone(h: seq<Byte>, len: nat, body: seq<Byte>)
    requires len < U16
    ensures Fragments(h, len, body, []) == h + Bytes2(len) + body
  {
    hide Bytes2;
    assert body[0..] == body;
    var r := h + Bytes2(len) + body;
    assert [] + r == r;
  }

  lemma SumStep(ds: seq<nat>)
    requires ds != []
    ensures Sum(ds) == ds[0] + Sum(ds[1..])
  {
  }

  lemma FragmentsStep(h: seq<Byte>, len: nat, body: seq<Byte>, ds: seq<nat>)
    requires Sum(ds) <= |body| && Sum(ds) <= len < U16 && ds != []
    ensures Sum(ds) == ds[0] + Sum(ds[1..])
    ensures Fragments(h, len, body, ds)
      == h + Bytes2(ds[0]) + body[..ds[0]] + Fragments(h, len - ds[0], body[ds[0]..], ds[1..])
  {
    hide Bytes2, Pieces, Fragments, Sum, OneRecord;
    SumStep(ds);
    var rest, r := body[ds[0]..], ds[1..];
    TailOfTail(body, ds[0], Sum(r));
    AsRecords(h, len, body, ds);
    AsRecords(h, len - ds[0], rest, r);
    assert len - ds[0] - Sum(r) == len - Sum(ds);
    Assoc(OneRecord(h, ds[0], body[..ds[0]]), Pieces(h, rest, r), OneRecord(h, len - Sum(ds), body[Sum(ds)..]));
    RecordIs(h, ds[0], body[..ds[0]]);
  }

  function OneRecord(h: seq<Byte>, n: nat, data: seq<Byte>): seq<Byte>
    requires n < U16
  {
    h + Bytes2(n) + data
  }

  lemma RecordIs(h: seq<Byte>, n: nat, data: seq<Byte>)
    requires n < U16
    ensures OneRecord(h, n, data) == h + Bytes2(n) + data
  {
  }

  lemma AsRecords(h: seq<Byte>, len: nat, body: seq<Byte>, ds: seq<nat>)
    requires Sum(ds) <= |body| && Sum(ds) <= len < U16
    ensures Fragments(h, len, body, ds) == Pieces(h, body, ds) + OneRecord(h, len - Sum(ds), body[Sum(ds)..])
    ensures ds != [] ==> ds[0] + Sum(ds[1..]) == Sum(ds)
    ensures ds != [] ==> Pieces(h, body, ds) == OneRecord(h, ds[0], body[..ds[0]]) + Pieces(h, body[ds[0]..], ds[1..])
  {
    if ds != [] {
      PiecesStep(h, body, ds);
    }
  }

  lemma TailOfTail(s: seq<Byte>, i: nat, j: nat)
    requires i + j <= |s|
    ensures s[i..][j..] == s[i + j..]
  {
  }

  // ---------- Records ----------

  datatype Record = Record(head: seq<Byte>, payload: seq<Byte>)

  /** The complete records at the start of `s` (section 5.1 of RFC 8446). */
  function Parse(s: seq<Byte>): seq<Record>
    decreases |s|
  {
    if |s| < 5 || 5 + Number(s, 3) > |s| then []
    else [Record(s[..3], s[5..5 + Number(s, 3)])] + Parse(s[5 + Number(s, 3)..])
  }

  function Payload(rs: seq<Record>): seq<Byte> {
    if rs == [] then [] else rs[0].payload + Payload(rs[1..])
  }

  ghost predicate Alike(rs: seq<Record>, h: seq<Byte>) {
    forall i :: 0 <= i < |rs| ==> rs[i].head == h
  }

  /** A record cut into pieces parses as one more record than cuts, all of its type
      and version, that carry its payload. */
  lemma {:induction false} ParseFragments(h: seq<Byte>, body: seq<Byte>, ds: seq<nat>)
    requires |h| == 3 && Sum(ds) <= |body| < U16
    ensures var rs := Parse(Fragments(h, |body|, body, ds));
      |rs| == |ds| + 1 && Alike(rs, h) && Payload(rs) == body
    decreases |ds|
  {
    hide Bytes2, Fragments, Number, Parse;
    if ds == [] {
      FragmentsNone(h, |body|, body);
      ParseStep(h, body, []);
      NothingLeft();
      assert h + Bytes2(|body|) + body + [] == h + Bytes2(|body|) + body;
      assert [Record(h, body)] + [] == [Record(h, body)];
      assert [Record(h, body)][1..] == [];
    } else {
      FragmentsStep(h, |body|, body, ds);
      var rest := body[ds[0]..];
      var f := Fragments(h, |body| - ds[0], rest, ds[1..]);
      ParseFragments(h, rest, ds[1..]);
      ParseStep(h, body[..ds[0]], f);
      var rs := [Record(h, body[..ds[0]])] + Parse(f);
      assert rs[1..] == Parse(f);
      assert body == body[..ds[0]] + rest;
    }
  }

  lemma NothingLeft()
    ensures Parse([]) == []
  {
  }

  lemma ParseStep(h: seq<Byte>, payload: seq<Byte>, rest: seq<Byte>)
    requires |h| == 3 && |payload| < U16
    ensures Parse(h + Bytes2(|payload|) + payload + rest) == [Record(h, payload)] + Parse(rest)
  {
    hide Bytes2, Number;
    var s := h + Bytes2(|payload|) + payload + rest;
    assert s[3..5] == Bytes2(|payload|) && s[..|s|] == s;
    NumberOf(s, |s|, 3);
    assert s[5..5 + |payload|] == payload && s[5 + |payload|..] == rest && s[..3] == h;
  }
}
