/** One's complement arithmetic on 16-bit words, and sums of bytes of
    alternating weight (RFC 1071, sections 1 and 2). */
module OnesComplement {
  import opened Octets

  /** The 16-bit one's complement value of a sum. It is 0 only for the sum 0, and
      otherwise the representative in 1..0xffff modulo 0xffff. */
  function Ones(x: nat): (r: nat)
    ensures r <= 0xffff
  {
    if x == 0 then 0 else (x - 1) % 0xffff + 1
  }

  lemma OnesIs(x: nat, r: nat, k: int)
    requires r <= 0xffff && x == r + 0xffff * k && (r == 0 <==> x == 0)
    ensures Ones(x) == r
  {
    if x > 0 {
      assert x - 1 == 0xffff * k + (r - 1);
      assert (x - 1) / 0xffff == k;
    }
  }

  lemma OnesQuotient(x: nat) returns (k: nat)
    ensures x == Ones(x) + 0xffff * k && (Ones(x) == 0 <==> x == 0)
  {
    k := if x == 0 then 0 else (x - 1) / 0xffff;
  }

  /** Sums may be reduced at any point. */
  lemma OnesAdd(x: nat, y: nat)
    ensures Ones(Ones(x) + y) == Ones(x + y) == Ones(x + Ones(y))
  {
    var k := OnesQuotient(x);
    var m := OnesQuotient(y);
    var n := OnesQuotient(x + y);
    OnesIs(Ones(x) + y, Ones(x + y), n - k);
    OnesIs(x + Ones(y), Ones(x + y), n - m);
  }

  lemma OnesTimes(x: nat)
    ensures Ones(256 * Ones(x)) == Ones(256 * x)
  {
    var k := OnesQuotient(x);
    var n := OnesQuotient(256 * x);
    OnesIs(256 * Ones(x), Ones(256 * x), n - 256 * k);
  }

  lemma OnesSmall(x: nat)
    requires x <= 0xffff
    ensures Ones(x) == x
  {
  }

  /** FOLD_U32T: adds the two halves of a 32-bit word. */
  function Fold(x: nat): nat {
    x / U16 + x % U16
  }

  /** SWAP_BYTES_IN_WORD: exchanges the two low bytes. */
  function Swap(x: nat): nat {
    x % 256 * 256 + x / 256 % 256
  }

  lemma FoldKeeps(x: nat)
    ensures Ones(Fold(x)) == Ones(x)
    ensures x < U32 ==> Fold(x) <= 0x1fffe
    ensures x <= 0x1fffe ==> Fold(x) <= 0xffff && Fold(x) == Ones(x)
  {
    var n := OnesQuotient(x);
    OnesIs(Fold(x), Ones(x), n - x / U16);
  }

  /** Folding a 32-bit sum twice leaves its 16-bit value. */
  lemma FoldTwice(x: nat)
    requires x < U32
    ensures Fold(Fold(x)) == Ones(x)
  {
    FoldKeeps(x);
    FoldKeeps(Fold(x));
  }

  /** Swapping bytes is multiplication by 256. */
  lemma SwapIsTimes256(x: nat)
    requires x <= 0xffff
    ensures Swap(x) == Ones(256 * x) && Swap(x) <= 0xffff && Swap(Swap(x)) == x
  {
    OnesIs(256 * x, Swap(x), x / 256);
  }

  function Weighted(b: Byte, w: nat): nat {
    b * w
  }

  /** The sum of the bytes with weights `a`, `b`, `a`, `b` and so on. */
  function Sum(data: seq<Byte>, a: nat, b: nat): nat {
    if data == [] then 0 else Weighted(data[0], a) + Sum(data[1..], b, a)
  }

  /** The weight of the byte at an even offset: machine words start with
      their low byte on little-endian hosts. */
  function Even(little: bool): nat {
    if little then 1 else 256
  }

  function Odd(little: bool): nat {
    if little then 256 else 1
  }

  /** The sum of the bytes taken as 16-bit words of the host, zero-padded. */
  function HostSum(data: seq<Byte>, little: bool): nat {
    Sum(data, Even(little), Odd(little))
  }

  lemma {:induction false} SumConcat(s: seq<Byte>, t: seq<Byte>, a: nat, b: nat)
    ensures Sum(s + t, a, b) == Sum(s, a, b) + if |s| % 2 == 0 then Sum(t, a, b) else Sum(t, b, a)
  {
    hide Weighted;
    if s == [] {
      assert s + t == t;
    } else {
      SumConcat(s[1..], t, b, a);
      assert (s + t)[1..] == s[1..] + t;
    }
  }

  /** Exchanging the weights multiplies the sum by 256 modulo 0xffff. */
  lemma {:induction false} SumSwapped(data: seq<Byte>) returns (k: int)
    ensures Sum(data, 256, 1) - 256 * Sum(data, 1, 256) == 0xffff * k
    decreases |data|, 0
  {
    if data == [] {
      k := 0;
    } else {
      k := SumSwappedBack(data[1..]);
    }
  }

  lemma {:induction false} SumSwappedBack(data: seq<Byte>) returns (k: int)
    ensures Sum(data, 1, 256) - 256 * Sum(data, 256, 1) == 0xffff * k
    decreases |data|, 1
  {
    if data == [] {
      k := 0;
    } else {
      var m := SumSwapped(data[1..]);
      k := m - data[0];
    }
  }
}
