/** The Internet checksum over chains of packet buffers. */
module PbufChecksum {
  import opened Octets
  import opened OnesComplement
  import opened Checksum
  import opened PbufStore
  import opened PbufRefs
  import opened PbufBytes
  import opened PbufChains
  import opened PbufSplits
  import opened PbufSplit64k

  datatype Version = V1 | V2 | V3

  /** LWIP_CHKSUM, in any of its versions, for data at an address. */
  method Chksum(v: Version, data: seq<Byte>, addr: nat, little: bool) returns (r: nat)
    requires |data| <= 0x20002
    ensures r == InternetSum(data, little)
  {
    hide InternetSum, AddressSum, Settle, Ones, HostSum;
    match v
    case V1 =>
      r := Chksum1(data, little);
      Chksum1Exact(data, little);
      NoOverflow(data, false, false);
      PlainSum(data);
    case V2 =>
      r := Chksum2(data, addr, little);
      Chksum2Exact(data, addr % 2 == 1, little);
      NoOverflow(data, addr % 2 == 1, little);
    case V3 =>
      r := Chksum3(data, addr, little);
      SettledSum(data, addr % 2 == 1, little);
  }

  /** inet_chksum of bytes in one piece. */
  method InetChksum(v: Version, data: seq<Byte>, addr: nat, little: bool) returns (r: nat)
    requires |data| <= 0xffff
    ensures r == 0xffff - InternetSum(data, little)
  {
    var sum := Chksum(v, data, addr, little);
    r := 0xffff - sum;
  }

  /** The accumulator after bytes with the host sum `x`, an odd number of them if `swapped`. */
  ghost function Held(x: nat, swapped: bool): nat {
    if swapped then Swap(Ones(x)) else Ones(x)
  }

  /** One more segment in the accumulator. */
  lemma HeldStep(a: nat, before: seq<Byte>, data: seq<Byte>, acc: nat, little: bool)
    requires acc == Held(a + HostSum(before, little), |before| % 2 == 1)
    ensures acc <= 0xffff && InternetSum(data, little) <= 0xffff
    ensures var sum := Fold(acc + InternetSum(data, little));
      && sum <= 0xffff && sum == Held(a + HostSum(before + data, little), |before| % 2 == 1)
      && Swap(sum) == Held(a + HostSum(before + data, little), |before| % 2 == 0)
  {
    hide Fold, Swap, Ones, Sum;
    var x, odd := a + HostSum(before, little), |before| % 2 == 1;
    var y := if odd then Sum(data, Odd(little), Even(little)) else Sum(data, Even(little), Odd(little));
    SumConcat(before, data, Even(little), Odd(little));
    SwapIsTimes256(Ones(x));
    SwapIsTimes256(Ones(x + y));
    var sum := acc + InternetSum(data, little);
    FoldKeeps(sum);
    if odd {
      OnesSwapped(data, Odd(little), Even(little));
      SwapIsTimes256(Ones(y));
      OnesTimes(x);
      OnesTimes(y);
      OnesTimes(x + y);
      OnesAdd(256 * x, 256 * y);
      OnesAdd(Ones(256 * x), 256 * y);
      assert Ones(sum) == Ones(256 * (x + y));
    } else {
      OnesAdd(x, y);
      OnesAdd(Ones(x), y);
    }
  }

  /** The field len has 16 bits. The field tot_len is not looked at. */
  ghost predicate Lengths(s: Store) {
    forall p :: p in s ==> |s[p].data| < U16
  }

  lemma LengthHere(s: Store, p: Ptr)
    requires Lengths(s) && p in s
    ensures |s[p].data| < U16
  {
  }

  /** The loop of inet_chksum_pbuf and inet_cksum_pseudo_base over the pbufs of a chain. */
  method SumChain(m: Pbufs, p: Ptr, v: Version, at: Ptr -> nat, little: bool, acc0: nat, ghost ps: seq<Ptr>)
    returns (acc: nat)
    requires Lengths(m.store) && StandsAt(m.store, ps, 0, p) && acc0 <= 0xffff
    ensures acc == Ones(acc0 + HostSum(Flat(m.store, ps), little)) && acc <= 0xffff
  {
    hide StandsAt, Flat, Lengths, HostSum, Fold, Swap, Ones, InternetSum;
    ghost var s, i := m.store, 0;
    acc := acc0;
    var q, swapped := p, false;
    FlatNone(s, ps);
    OnesSmall(acc0);
    NoBytes(little);
    while q != NULL
      invariant i <= |ps| && StandsAt(s, ps, i, q) && m.store == s
      invariant swapped == (|Flat(s, ps[..i])| % 2 == 1)
      invariant acc == Held(acc0 + HostSum(Flat(s, ps[..i]), little), swapped) && acc <= 0xffff
      decreases |ps| - i
    {
      StandsNext(s, ps, i, q);
      LengthHere(s, q);
      FlatStep(s, ps, i);
      HeldStep(acc0, Flat(s, ps[..i]), s[q].data, acc, little);
      var sum := Chksum(v, m.store[q].data, at(q), little);
      acc := acc + sum;
      acc := Fold(acc);
      if |m.store[q].data| % 2 != 0 {
        swapped := !swapped;
        SwapSmall(acc);
        acc := Swap(acc);
      }
      q := m.store[q].next;
      i := i + 1;
    }
    StandsEnd(s, ps, i, q);
    Whole(s, ps);
    if swapped {
      SwapIsTimes256(Ones(acc0 + HostSum(Flat(s, ps), little)));
      acc := Swap(acc);
    }
  }

  lemma NoBytes(little: bool)
    ensures HostSum([], little) == 0
  {
  }

  lemma SwapSmall(x: nat)
    ensures Swap(x) <= 0xffff
  {
  }

  /** inet_chksum_pbuf: the checksum of the flat bytes, however they are cut into pbufs. */
  method InetChksumPbuf(m: Pbufs, p: Ptr, v: Version, at: Ptr -> nat, little: bool) returns (r: nat)
    requires m.Valid() && Lengths(m.store) && (p == NULL || p in m.store)
    ensures r == 0xffff - InternetSum(m.Contents(p), little)
  {
    hide Flat, HostSum, Ones, IsPath, PathOf;
    StandsFirst(m.store, m.rank, p, m.Path(p));
    var acc := SumChain(m, p, v, at, little, 0, m.Path(p));
    r := 0xffff - acc;
  }

  /** inet_cksum_pseudo_base: the same with the sum `acc0` of the pseudo header. */
  method PseudoBase(m: Pbufs, p: Ptr, proto: nat, protoLen: nat, acc0: nat, v: Version, at: Ptr -> nat, little: bool)
    returns (r: nat)
    requires m.Valid() && Lengths(m.store) && (p == NULL || p in m.store)
    requires proto < 256 && protoLen <= 0xffff && acc0 <= 0xffff
    ensures r == 0xffff - Ones(acc0 + HostSum(m.Contents(p), little) + Htons(proto, little) + Htons(protoLen, little))
  {
    hide Flat, HostSum, Ones, IsPath, PathOf, Fold, Swap;
    StandsFirst(m.store, m.rank, p, m.Path(p));
    var acc := SumChain(m, p, v, at, little, acc0, m.Path(p));
    SwapSmall(proto);
    SwapSmall(protoLen);
    ghost var x := acc0 + HostSum(m.Contents(p), little);
    OnesAdd(x, Htons(proto, little) + Htons(protoLen, little));
    acc := acc + Htons(proto, little);
    acc := acc + Htons(protoLen, little);
    FoldTwice(acc);
    acc := Fold(acc);
    acc := Fold(acc);
    r := 0xffff - acc;
  }

  /** inet_chksum_pseudo: with the 32-bit addresses of the IPv4 pseudo header. */
  method InetChksumPseudo(m: Pbufs, p: Ptr, proto: nat, protoLen: nat, src: nat, dst: nat, v: Version, at: Ptr -> nat,
                          little: bool)
    returns (r: nat)
    requires m.Valid() && Lengths(m.store) && (p == NULL || p in m.store)
    requires proto < 256 && protoLen <= 0xffff && src < U32 && dst < U32
    ensures r == 0xffff - Ones(src % U16 + src / U16 + dst % U16 + dst / U16
      + HostSum(m.Contents(p), little) + Htons(proto, little) + Htons(protoLen, little))
  {
    hide Flat, HostSum, Ones, IsPath, PathOf, Fold, Swap;
    var acc: nat := src % U16;
    acc := acc + src / U16 % U16;
    acc := acc + dst % U16;
    acc := acc + dst / U16 % U16;
    ghost var header, rest := acc, HostSum(m.Contents(p), little) + Htons(proto, little) + Htons(protoLen, little);
    FoldTwice(acc);
    OnesAdd(acc, rest);
    OnesAtMost(acc);
    acc := Fold(acc);
    acc := Fold(acc);
    r := PseudoBase(m, p, proto, protoLen, acc, v, at, little);
  }

  /** A 32-bit number at four bytes of memory, as the host reads it. */
  function HostLong(a: seq<Byte>, little: bool): nat
    requires |a| == 4
  {
    if little then a[0] as int + 0x100 * a[1] as int + 0x1_0000 * a[2] as int + 0x100_0000 * a[3] as int
    else a[3] as int + 0x100 * a[2] as int + 0x1_0000 * a[1] as int + 0x100_0000 * a[0] as int
  }

  /** The checksum with a pseudo header is that of the bytes of the pseudo header (the two
      addresses, a zero, the protocol, the length in network order) and the data behind them. */
  lemma PseudoHeader(src: seq<Byte>, dst: seq<Byte>, proto: Byte, len: nat, data: seq<Byte>, little: bool)
    requires |src| == |dst| == 4 && len < 0x10000
    ensures var s, d := HostLong(src, little), HostLong(dst, little);
      Ones(s % U16 + s / U16 + d % U16 + d / U16 + HostSum(data, little) + Htons(proto, little) + Htons(len, little))
      == InternetSum(src + dst + [0, proto] + [len / 256, len % 256] + data, little)
  {
    hide Ones, Sum, Htons, HostLong, Even, Odd;
    var e, o := Even(little), Odd(little);
    var front := src + dst;
    SumConcat(src, dst, e, o);
    SumConcat(front, [0, proto], e, o);
    SumConcat(front + [0, proto], [len / 256, len % 256], e, o);
    SumConcat(front + [0, proto] + [len / 256, len % 256], data, e, o);
    LongSum(src, little);
    LongSum(dst, little);
    NetworkPair(proto, [0, proto], little);
    NetworkPair(len, [len / 256, len % 256], little);
  }

  /** Two bytes in network order count as the number in them. */
  lemma NetworkPair(x: nat, w: seq<Byte>, little: bool)
    requires x < 0x10000 && w == [x / 256, x % 256]
    ensures Sum(w, Even(little), Odd(little)) == Htons(x, little)
  {
    PairSum(w, Even(little), Odd(little));
  }

  lemma LongSum(a: seq<Byte>, little: bool)
    requires |a| == 4
    ensures Sum(a, Even(little), Odd(little)) == HostLong(a, little) % U16 + HostLong(a, little) / U16
  {
    assert a == a[..2] + a[2..];
    SumConcat(a[..2], a[2..], Even(little), Odd(little));
    PairSum(a[..2], Even(little), Odd(little));
    PairSum(a[2..], Even(little), Odd(little));
  }

  lemma OnesAtMost(x: nat)
    ensures Ones(x) <= 0xffff
  {
  }

  /** The checksum `c` as the host stores it into memory. */
  function Stored(c: nat, little: bool): seq<Byte>
    requires c <= 0xffff
  {
    if little then [c % 256, c / 256] else [c / 256, c % 256]
  }

  /** A packet with its checksum filled in, at an even offset that held zeros, checks to 0. */
  lemma Verifies(a: seq<Byte>, b: seq<Byte>, little: bool)
    requires |a| % 2 == 0
    ensures var c := 0xffff - InternetSum(a + [0, 0] + b, little);
      InternetSum(a + Stored(c, little) + b, little) == 0xffff
  {
    var e, o := Even(little), Odd(little);
    var x := HostSum(a + [0, 0] + b, little);
    var c := 0xffff - Ones(x);
    WordBetween(a, [0, 0], b, e, o);
    WordBetween(a, Stored(c, little), b, e, o);
    var k := OnesQuotient(x);
    OnesIs(x + c, 0xffff, k);
  }

  lemma WordBetween(a: seq<Byte>, w: seq<Byte>, b: seq<Byte>, e: nat, o: nat)
    requires |a| % 2 == 0 && |w| == 2
    ensures Sum(a + w + b, e, o) == Sum(a, e, o) + (w[0] * e + w[1] * o) + Sum(b, e, o)
  {
    SumConcat(a + w, b, e, o);
    SumConcat(a, w, e, o);
    PairSum(w, e, o);
  }
}
