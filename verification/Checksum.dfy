/** The three versions of the Internet checksum sum, and what they have in common. */
module Checksum {
  import opened Octets
  import opened OnesComplement

  /** A 16-bit word of memory as the host reads it. */
  function Word(data: seq<Byte>, i: nat, little: bool): nat
    requires i + 2 <= |data|
  {
    data[i] * Even(little) + data[i + 1] * Odd(little)
  }

  /** A 32-bit word of memory as the host reads it. */
  function Long(data: seq<Byte>, i: nat, little: bool): nat
    requires i + 4 <= |data|
  {
    if little then Word(data, i, little) + U16 * Word(data, i + 2, little)
    else U16 * Word(data, i, little) + Word(data, i + 2, little)
  }

  /** lwip_htons. */
  function Htons(x: nat, little: bool): nat {
    if little then Swap(x) else x
  }

  /** The first `i` bytes summed, with the weights of a sum that starts at `odd`. */
  ghost function Upto(data: seq<Byte>, i: nat, little: bool): nat
    requires i <= |data|
  {
    HostSum(data[..i], little)
  }

  lemma WordSum(data: seq<Byte>, i: nat, little: bool)
    requires i + 2 <= |data| && i % 2 == 0
    ensures Upto(data, i + 2, little) == Upto(data, i, little) + Word(data, i, little)
    ensures Word(data, i, little) <= 0xffff && Word(data, i, false) == data[i] as int * 256 + data[i + 1]
  {
    hide Weighted;
    var w := data[i..i + 2];
    assert data[..i + 2] == data[..i] + w;
    SumConcat(data[..i], w, Even(little), Odd(little));
    PairSum(w, Even(little), Odd(little));
  }

  lemma PairSum(w: seq<Byte>, a: nat, b: nat)
    requires |w| == 2
    ensures Sum(w, a, b) == w[0] * a + w[1] * b
  {
    assert w[1..][1..] == [];
    assert Sum(w[1..], b, a) == Weighted(w[1], b);
  }

  lemma ByteSum(data: seq<Byte>, little: bool)
    requires |data| % 2 == 1
    ensures Upto(data, |data|, little) == Upto(data, |data| - 1, little) + data[|data| - 1] * Even(little)
  {
    var i := |data| - 1;
    assert data[..|data|] == data[..i] + [data[i]];
    SumConcat(data[..i], [data[i]], Even(little), Odd(little));
  }

  lemma UptoEnds(data: seq<Byte>, little: bool)
    ensures Upto(data, 0, little) == 0 && Upto(data, |data|, little) == HostSum(data, little)
  {
    assert data[..0] == [] && data[..|data|] == data;
  }

  lemma WrapAdd(x: nat, y: nat)
    ensures (x % U32 + y) % U32 == (x + y) % U32
  {
  }

  /** Version 1: bytes paired in network order. */
  method Chksum1(data: seq<Byte>, little: bool) returns (r: nat)
    ensures r == Htons(Ones(HostSum(data, false) % U32), little)
  {
    hide Upto, Ones, Word;
    UptoEnds(data, false);
    var acc: nat, i := 0, 0;
    var len := |data|;
    while len > 1
      invariant 0 <= len && i + len == |data| && i % 2 == 0
      invariant acc == Upto(data, i, false) % U32
    {
      WordSum(data, i, false);
      var src: nat := data[i] as int * 256;
      i := i + 1;
      src := src + data[i];
      i := i + 1;
      WrapAdd(Upto(data, i - 2, false), src);
      acc := (acc + src) % U32;
      len := len - 2;
    }
    if len > 0 {
      ByteSum(data, false);
      WrapAdd(Upto(data, i, false), data[i] as int * 256);
      acc := (acc + data[i] as int * 256) % U32;
    }
    FoldTwice(acc);
    FoldKeeps(acc);
    acc := Fold(acc);
    if acc / U16 != 0 {
      acc := Fold(acc);
    }
    r := Htons(acc, little);
  }

  /** What the accumulator of versions 2 and 3 adds up: at an odd address the
      bytes take each other's place in the machine words. */
  ghost function AddressSum(data: seq<Byte>, odd: bool, little: bool): nat {
    if odd then Sum(data, Odd(little), Even(little)) else HostSum(data, little)
  }

  /** The bytes after the one that an odd start puts aside. */
  function Aligned(data: seq<Byte>, odd: bool): seq<Byte> {
    if odd && |data| > 0 then data[1..] else data
  }

  /** The byte put aside at an odd start, in its half of a word. */
  function Head(data: seq<Byte>, odd: bool, little: bool): nat {
    if odd && |data| > 0 then data[0] * Odd(little) else 0
  }

  /** The byte left over at the end, in its half of a word. */
  function Tail(body: seq<Byte>, little: bool): nat {
    if |body| % 2 == 1 then body[|body| - 1] * Even(little) else 0
  }

  lemma EndsSum(data: seq<Byte>, odd: bool, little: bool)
    ensures var body := Aligned(data, odd);
      AddressSum(data, odd, little)
      == Upto(body, |body| / 2 * 2, little) + (Head(data, odd, little) + Tail(body, little))
    ensures Head(data, odd, little) + Tail(Aligned(data, odd), little) <= 0xffff
  {
    var body := Aligned(data, odd);
    UptoEnds(body, little);
    if |body| % 2 == 1 {
      ByteSum(body, little);
    }
  }

  /** Gets to an even address. */
  method TakeHead(data: seq<Byte>, odd: bool, little: bool) returns (pb: nat, len: nat, t: nat)
    ensures pb + len == |data| && len == |Aligned(data, odd)| && t == Head(data, odd, little)
  {
    pb, len, t := 0, |data|, 0;
    if odd && len > 0 {
      t := data[pb] * Odd(little);
      pb := pb + 1;
      len := len - 1;
    }
  }

  /** Adds the left-over byte and the folded word of both ends. */
  method Finish(data: seq<Byte>, odd: bool, little: bool, sum0: nat, t0: nat, pb: nat, len: nat) returns (sum: nat)
    requires pb + len == |data| && len == |Aligned(data, odd)| % 2
    ensures sum == Settle((sum0 + (t0 + Tail(Aligned(data, odd), little))) % U32, odd)
  {
    hide Ones, Fold, Swap;
    var t := t0;
    if len > 0 {
      t := t + data[pb] * Even(little);
    }
    sum := (sum0 + t) % U32;
    FoldTwice(sum);
    sum := Fold(sum);
    sum := Fold(sum);
    if odd {
      sum := Swap(sum);
    }
  }

  /** Version 2: machine words, in a 32-bit accumulator that may wrap around. */
  method Chksum2(data: seq<Byte>, addr: nat, little: bool) returns (r: nat)
    ensures r == Settle(AddressSum(data, addr % 2 == 1, little) % U32, addr % 2 == 1)
  {
    hide AddressSum, Upto, Word, Settle, Head, Tail;
    var odd := addr % 2 == 1;
    ghost var body := Aligned(data, odd);
    EndsSum(data, odd, little);
    UptoEnds(body, little);
    var pb, len, t := TakeHead(data, odd, little);
    ghost var start := pb;
    var sum: nat := 0;
    while len > 1
      invariant pb + len == |data| && start <= pb && (pb - start) % 2 == 0
      invariant sum == Upto(body, pb - start, little) % U32
    {
      WordSum(body, pb - start, little);
      WordAt(data, odd, pb, little);
      WrapAdd(Upto(body, pb - start, little), Word(data, pb, little));
      sum := (sum + Word(data, pb, little)) % U32;
      pb := pb + 2;
      len := len - 2;
    }
    WrapAdd(Upto(body, |body| / 2 * 2, little), Head(data, odd, little) + Tail(body, little));
    r := Finish(data, odd, little, sum, t, pb, len);
  }

  lemma WordAt(data: seq<Byte>, odd: bool, i: nat, little: bool)
    requires i + 2 <= |data| && (odd && |data| > 0 ==> i >= 1)
    ensures var body := Aligned(data, odd);
      Word(body, if odd && |data| > 0 then i - 1 else i, little) == Word(data, i, little)
  {
  }

  /** The 16-bit value of an accumulator, turned back if the start was odd. */
  ghost function Settle(sum: nat, odd: bool): nat {
    if odd then Swap(Ones(sum)) else Ones(sum)
  }

  /** One 32-bit word added with end-around carry. */
  function EndAround(sum: nat, x: nat): nat {
    var tmp := (sum + x) % U32;
    if tmp < sum then tmp + 1 else tmp
  }

  lemma EndAroundKeeps(sum: nat, x: nat)
    requires sum < U32 && x < U32
    ensures EndAround(sum, x) < U32 && Ones(EndAround(sum, x)) == Ones(sum + x)
  {
    var n := OnesQuotient(sum + x);
    var k := if sum + x < U32 then 0 else 0x10001;
    OnesIs(EndAround(sum, x), Ones(sum + x), n - k);
  }

  lemma LongIsWords(data: seq<Byte>, i: nat, little: bool, sum: nat)
    requires i + 4 <= |data|
    ensures Long(data, i, little) < U32
    ensures Ones(sum + Long(data, i, little)) == Ones(sum + Word(data, i, little) + Word(data, i + 2, little))
  {
    var v, w := Word(data, i, little), Word(data, i + 2, little);
    var n := OnesQuotient(sum + v + w);
    OnesIs(sum + Long(data, i, little), Ones(sum + v + w), n + if little then w else v);
  }

  /** Two adjacent words added as one 32-bit word. */
  lemma LongAdded(data: seq<Byte>, odd: bool, body: seq<Byte>, pb: nat, j: nat, little: bool, sum: nat)
    requires body == Aligned(data, odd) && pb + 4 <= |data| && j + 4 <= |body| && j % 2 == 0 && sum < U32
    requires pb == j + |data| - |body| && Ones(sum) == Ones(Upto(body, j, little))
    ensures EndAround(sum, Long(data, pb, little)) < U32
    ensures Ones(EndAround(sum, Long(data, pb, little))) == Ones(Upto(body, j + 4, little))
  {
    hide Upto, Word, Ones, EndAround, Long;
    WordSum(body, j, little);
    WordSum(body, j + 2, little);
    WordAt(data, odd, pb, little);
    WordAt(data, odd, pb + 2, little);
    LongIsWords(data, pb, little, sum);
    EndAroundKeeps(sum, Long(data, pb, little));
    var words := Word(data, pb, little) + Word(data, pb + 2, little);
    OnesAdd(sum, words);
    OnesAdd(Upto(body, j, little), words);
  }

  /** Adds the 16-bit words that remain; the sum cannot wrap around. */
  method AddWords(data: seq<Byte>, odd: bool, ghost start: nat, sum0: nat, pb0: nat, len0: nat, little: bool)
    returns (sum: nat, pb: nat, len: nat)
    requires start + |Aligned(data, odd)| == |data| == pb0 + len0 && start <= pb0
    requires (pb0 - start) % 2 == 0 && sum0 <= 0x1fffe && len0 <= 7
    requires Ones(sum0) == Ones(Upto(Aligned(data, odd), pb0 - start, little))
    ensures sum < 0x5fffc && len == len0 % 2 && pb + len == |data|
    ensures Ones(sum) == Ones(Upto(Aligned(data, odd), |Aligned(data, odd)| / 2 * 2, little))
  {
    hide Upto, Word, Ones, Aligned;
    sum, pb, len := sum0, pb0, len0;
    ghost var body := Aligned(data, odd);
    while len > 1
      invariant pb + len == |data| && start <= pb && (pb - start) % 2 == 0
      invariant len <= len0 && len % 2 == len0 % 2 && 2 * sum <= 2 * 0x1fffe + (len0 - len) * 0xffff
      invariant Ones(sum) == Ones(Upto(body, pb - start, little))
    {
      WordAdded(data, odd, body, pb, pb - start, little, sum);
      sum := (sum + Word(data, pb, little)) % U32;
      pb := pb + 2;
      len := len - 2;
    }
  }

  lemma WordAdded(data: seq<Byte>, odd: bool, body: seq<Byte>, pb: nat, j: nat, little: bool, sum: nat)
    requires body == Aligned(data, odd) && pb + 2 <= |data| && j + 2 <= |body| && j % 2 == 0
    requires pb == j + |data| - |body| && Ones(sum) == Ones(Upto(body, j, little))
    ensures Word(data, pb, little) <= 0xffff
    ensures Ones(sum + Word(data, pb, little)) == Ones(Upto(body, j + 2, little))
  {
    hide Upto, Word, Ones;
    WordSum(body, j, little);
    WordAt(data, odd, pb, little);
    OnesAdd(sum, Word(data, pb, little));
    OnesAdd(Upto(body, j, little), Word(data, pb, little));
  }

  /** Version 3: two 32-bit words at a time, with end-around carry. */
  method Chksum3(data: seq<Byte>, addr: nat, little: bool) returns (r: nat)
    ensures r == Settle(AddressSum(data, addr % 2 == 1, little), addr % 2 == 1)
  {
    hide AddressSum, Upto, Word, Ones, Fold, Settle, Head, Tail, Long, EndAround;
    var odd := addr % 2 == 1;
    ghost var body := Aligned(data, odd);
    EndsSum(data, odd, little);
    UptoEnds(body, little);
    var pb, len, t := TakeHead(data, odd, little);
    ghost var start := pb;
    var sum: nat := 0;
    if (addr + pb) % 4 != 0 && len > 1 {
      WordAdded(data, odd, body, pb, 0, little, 0);
      sum := sum + Word(data, pb, little);
      pb := pb + 2;
      len := len - 2;
    }
    while len > 7
      invariant pb + len == |data| && start <= pb && (pb - start) % 2 == 0
      invariant sum < U32 && Ones(sum) == Ones(Upto(body, pb - start, little))
    {
      LongAdded(data, odd, body, pb, pb - start, little, sum);
      sum := EndAround(sum, Long(data, pb, little));
      pb := pb + 4;
      LongAdded(data, odd, body, pb, pb - start, little, sum);
      sum := EndAround(sum, Long(data, pb, little));
      pb := pb + 4;
      len := len - 8;
    }
    FoldKeeps(sum);
    sum := Fold(sum);
    sum, pb, len := AddWords(data, odd, start, sum, pb, len, little);
    SettleSame(sum, Upto(body, |body| / 2 * 2, little), Head(data, odd, little) + Tail(body, little), odd);
    r := Finish(data, odd, little, sum, t, pb, len);
  }

  lemma SettleSame(x: nat, y: nat, t: nat, odd: bool)
    requires Ones(x) == Ones(y)
    ensures Settle(x + t, odd) == Settle(y + t, odd)
  {
    OnesAdd(x, t);
    OnesAdd(y, t);
  }

  // ---------- The versions agree ----------

  /** The Internet sum of the bytes as the host reads it. */
  ghost function InternetSum(data: seq<Byte>, little: bool): nat {
    Ones(HostSum(data, little))
  }

  /** One's complement addition of 16-bit numbers: the carry comes back in. */
  function AddCarry(x: nat, y: nat): nat {
    if x + y > 0xffff then x + y - 0xffff else x + y
  }

  /** The sum of section 1 of RFC 1071: 16-bit words in network order, an odd
      last byte followed by a zero. */
  function RfcSum(data: seq<Byte>): nat {
    if data == [] then 0
    else if |data| == 1 then data[0] as int * 256
    else AddCarry(data[0] as int * 256 + data[1], RfcSum(data[2..]))
  }

  /** The sum in network order is the one RFC 1071 defines. */
  lemma {:induction false} RfcAgrees(data: seq<Byte>)
    ensures InternetSum(data, false) == RfcSum(data)
  {
    if |data| == 0 {
    } else if |data| == 1 {
      assert data[1..] == [];
      assert Sum(data, 256, 1) == Weighted(data[0], 256) + Sum(data[1..], 1, 256);
      assert HostSum(data, false) == data[0] as int * 256;
      OnesSmall(data[0] as int * 256);
    } else {
      RfcAgrees(data[2..]);
      var w := data[0] as int * 256 + data[1];
      assert data[1..][1..] == data[2..] && data[1..] != [];
      assert Sum(data[1..], 1, 256) == Weighted(data[1], 1) + Sum(data[2..], 256, 1);
      assert Sum(data, 256, 1) == Weighted(data[0], 256) + Sum(data[1..], 1, 256);
      assert HostSum(data, false) == w + HostSum(data[2..], false);
      OnesAdd(w, HostSum(data[2..], false));
      CarryIsOnes(w, InternetSum(data[2..], false));
    }
  }

  lemma CarryIsOnes(x: nat, y: nat)
    requires x <= 0xffff && y <= 0xffff
    ensures AddCarry(x, y) == Ones(x + y)
  {
    OnesIs(x + y, AddCarry(x, y), if x + y > 0xffff then 1 else 0);
  }

  /** Swapping the weights of the sum swaps the bytes of its value. */
  lemma OnesSwapped(data: seq<Byte>, a: nat, b: nat)
    requires {a, b} == {1, 256}
    ensures Swap(Ones(Sum(data, a, b))) == Ones(Sum(data, b, a))
  {
    var k;
    if b == 256 {
      k := SumSwapped(data);
    } else {
      k := SumSwappedBack(data);
    }
    var x, y := Sum(data, a, b), Sum(data, b, a);
    SwapIsTimes256(Ones(x));
    OnesTimes(x);
    var n := OnesQuotient(256 * x);
    SumZero(data, a, b);
    OnesIs(y, Ones(256 * x), n + k);
  }

  lemma {:induction false} SumZero(data: seq<Byte>, a: nat, b: nat)
    requires a > 0 && b > 0
    ensures Sum(data, a, b) == 0 <==> Sum(data, b, a) == 0
  {
    if data != [] {
      SumZero(data[1..], a, b);
      assert data[0] * a == 0 <==> data[0] == 0;
      assert data[0] * b == 0 <==> data[0] == 0;
    }
  }

  /** The value in memory does not depend on the byte order of the host. */
  lemma ByteOrderFree(data: seq<Byte>)
    ensures InternetSum(data, true) == Swap(InternetSum(data, false))
  {
    OnesSwapped(data, 256, 1);
  }

  lemma SettledSum(data: seq<Byte>, odd: bool, little: bool)
    ensures Settle(AddressSum(data, odd, little), odd) == InternetSum(data, little)
  {
    if odd {
      OnesSwapped(data, Odd(little), Even(little));
    }
  }

  /** Wrapping a sum around at 32 bits loses exactly the sums that do not fit. */
  lemma WrapLoses(x: nat)
    requires x < 0xffff * U32
    ensures Ones(x % U32) == Ones(x) <==> x < U32
  {
    if Ones(x % U32) == Ones(x) {
      var k := WrapQuotient(x);
    }
  }

  lemma WrapQuotient(x: nat) returns (k: int)
    requires Ones(x % U32) == Ones(x)
    ensures x / U32 == 0xffff * k
  {
    var m := OnesQuotient(x % U32);
    var n := OnesQuotient(x);
    k := n - m - 0x10001 * (x / U32);
  }

  lemma {:induction false} SumBound(data: seq<Byte>, a: nat, b: nat)
    requires (a == 1 && b == 256) || (a == 256 && b == 1)
    ensures Sum(data, a, b) <= |data| / 2 * 0xffff + |data| % 2 * 255 * 256
  {
    hide Weighted;
    if |data| == 0 {
    } else if |data| == 1 {
      assert data[1..] == [];
      WeightedBound(data[0], a);
    } else {
      SumBound(data[2..], a, b);
      assert data[1..][1..] == data[2..];
      assert Sum(data, a, b) == Weighted(data[0], a) + (Weighted(data[1], b) + Sum(data[2..], a, b));
      WeightedBound(data[0], a);
      WeightedBound(data[1], b);
    }
  }

  lemma WeightedBound(b: Byte, w: nat)
    requires w == 1 || w == 256
    ensures Weighted(b, w) <= 255 * w
  {
  }

  lemma {:induction false} SumOfMax(n: nat, a: nat, b: nat)
    requires 1 <= a && 1 <= b && a + b == 257
    ensures Sum(seq(n, _ => 255), a, b) >= n / 2 * 0xffff + n % 2 * 255
  {
    var data: seq<Byte> := seq(n, _ => 255);
    if n == 0 {
    } else if n == 1 {
    } else {
      SumOfMax(n - 2, a, b);
      assert data[1..][1..] == seq(n - 2, _ => 255);
    }
  }

  /** Version 2 is right exactly when its accumulator does not overflow. */
  lemma Chksum2Exact(data: seq<Byte>, odd: bool, little: bool)
    requires |data| < 0x8000_0000
    ensures Settle(AddressSum(data, odd, little) % U32, odd) == InternetSum(data, little)
      <==> AddressSum(data, odd, little) < U32
  {
    var x := AddressSum(data, odd, little);
    SettledSum(data, odd, little);
    SumBound(data, if odd then Odd(little) else Even(little), if odd then Even(little) else Odd(little));
    WrapLoses(x);
    SwapIsTimes256(Ones(x));
    SwapIsTimes256(Ones(x % U32));
  }

  /** No data of up to 0x20002 bytes overflows the accumulator. */
  lemma NoOverflow(data: seq<Byte>, odd: bool, little: bool)
    requires |data| <= 0x20002
    ensures AddressSum(data, odd, little) < U32
  {
    SumBound(data, if odd then Odd(little) else Even(little), if odd then Even(little) else Odd(little));
  }

  /** For every greater length there is data that does, so the bound is exact. */
  lemma OverflowBeyond(n: nat, odd: bool, little: bool)
    requires 0x20002 < n < 0x8000_0000
    ensures AddressSum(seq(n, _ => 255), odd, little) >= U32
    ensures Settle(AddressSum(seq(n, _ => 255), odd, little) % U32, odd) != InternetSum(seq(n, _ => 255), little)
  {
    SumOfMax(n, if odd then Odd(little) else Even(little), if odd then Even(little) else Odd(little));
    Chksum2Exact(seq(n, _ => 255), odd, little);
  }

  /** Version 1 is right under the same condition on its own sum. */
  lemma Chksum1Exact(data: seq<Byte>, little: bool)
    requires |data| < 0x8000_0000
    ensures Htons(Ones(HostSum(data, false) % U32), little) == InternetSum(data, little) <==> HostSum(data, false) < U32
  {
    var x := HostSum(data, false);
    SumBound(data, 256, 1);
    WrapLoses(x);
    ByteOrderFree(data);
    SwapIsTimes256(Ones(x));
    SwapIsTimes256(Ones(x % U32));
  }

  /** All three versions give the Internet sum, whatever the alignment. */
  method AllAgree(data: seq<Byte>, addr: nat, little: bool) returns (r1: nat, r2: nat, r3: nat)
    requires |data| <= 0x20002
    ensures r1 == r2 == r3 == InternetSum(data, little)
  {
    hide AddressSum, Settle, InternetSum, Ones;
    r1 := Chksum1(data, little);
    r2 := Chksum2(data, addr, little);
    r3 := Chksum3(data, addr, little);
    Chksum1Exact(data, little);
    NoOverflow(data, false, false);
    PlainSum(data);
    Chksum2Exact(data, addr % 2 == 1, little);
    NoOverflow(data, addr % 2 == 1, little);
    SettledSum(data, addr % 2 == 1, little);
  }

  lemma PlainSum(data: seq<Byte>)
    ensures AddressSum(data, false, false) == HostSum(data, false)
  {
  }
}
