/** What the three comparisons mean: each is the comparison, as far as the
    shorter one goes, of canonical sequences made from the keys. */
module Comparators {
  import opened Octets
  import opened Prefixes
  import opened Elements

  // ---------- Bits ----------

  /** The number made of the first `k` bits of a byte. */
  function TopBits(b: Byte, k: nat): int
    requires k <= 8
  {
    b / Pow2(8 - k)
  }

  /** The first `k` bits of a byte, most significant first. */
  function ByteBits(b: Byte, k: nat): (s: seq<int>)
    requires k <= 8
    ensures |s| == k
  {
    if k == 0 then [] else ByteBits(b, k - 1) + [TopBits(b, k) % 2]
  }

  /** The first `len` bits of the data. */
  function BitString(data: seq<Byte>, len: nat): (s: seq<int>)
    requires len <= 8 * |data|
    ensures |s| == len
  {
    if len <= 8 then (if len == 0 then [] else ByteBits(data[0], len))
    else ByteBits(data[0], 8) + BitString(data[1..], len - 8)
  }

  lemma TopBitsHalve(b: Byte, k: nat)
    requires 0 < k <= 8
    ensures TopBits(b, k - 1) == TopBits(b, k) / 2
  {
    assert Pow2(0) == 1 && Pow2(1) == 2 && Pow2(2) == 4 && Pow2(3) == 8;
    assert Pow2(4) == 16 && Pow2(5) == 32 && Pow2(6) == 64 && Pow2(7) == 128;
    assert Pow2(8) == 256;
    if k == 1 {} else if k == 2 {} else if k == 3 {} else if k == 4 {}
    else if k == 5 {} else if k == 6 {} else if k == 7 {} else {}
  }

  /** Comparing leading bits one by one is comparing the numbers they make. */
  lemma {:induction false} TopBitsOrder(b: Byte, c: Byte, k: nat)
    requires k <= 8
    ensures PrefixCmp(ByteBits(b, k), ByteBits(c, k)) == Sign(TopBits(b, k) - TopBits(c, k))
  {
    if k == 0 {
      assert Pow2(8) == 256;
    } else {
      TopBitsOrder(b, c, k - 1);
      TopBitsHalve(b, k);
      TopBitsHalve(c, k);
      PrefixCmpConcat(ByteBits(b, k - 1), [TopBits(b, k) % 2], ByteBits(c, k - 1), [TopBits(c, k) % 2]);
    }
  }

  lemma {:induction false} Truncate(s: seq<int>, t: seq<int>, n: nat)
    requires n <= |s| && n <= |t| && (n == |s| || n == |t|)
    ensures PrefixCmp(s, t) == PrefixCmp(s[..n], t[..n])
  {
    if n > 0 {
      assert s[..n][1..] == s[1..][..n - 1] && t[..n][1..] == t[1..][..n - 1];
      Truncate(s[1..], t[1..], n - 1);
    }
  }

  lemma {:induction false} ByteBitsPrefix(b: Byte, n: nat, k: nat)
    requires n <= k <= 8
    ensures ByteBits(b, k)[..n] == ByteBits(b, n)
  {
    if n < k {
      ByteBitsPrefix(b, n, k - 1);
      assert ByteBits(b, k)[..n] == ByteBits(b, k - 1)[..n];
    } else {
      assert ByteBits(b, k)[..n] == ByteBits(b, k);
    }
  }

  /** The bits come from the bytes they lie in. */
  lemma {:induction false} BitStringSame(s: seq<Byte>, t: seq<Byte>, len: nat)
    requires len <= 8 * |s| && len <= 8 * |t| && forall i :: 0 <= i < |s| && i < |t| && 8 * i < len ==> s[i] == t[i]
    ensures BitString(s, len) == BitString(t, len)
    decreases len
  {
    if len > 8 {
      BitStringSame(s[1..], t[1..], len - 8);
    }
  }

  lemma {:induction false} BitStringPrefix(data: seq<Byte>, n: nat, len: nat)
    requires n <= len <= 8 * |data|
    ensures BitString(data, len)[..n] == BitString(data, n)
  {
    if len <= 8 {
      if len > 0 {
        ByteBitsPrefix(data[0], n, len);
      }
    } else if n <= 8 {
      ByteBitsPrefix(data[0], n, 8);
      assert BitString(data, len)[..n] == ByteBits(data[0], 8)[..n];
    } else {
      BitStringPrefix(data[1..], n - 8, len - 8);
      assert BitString(data, len)[..n] == ByteBits(data[0], 8) + BitString(data[1..], len - 8)[..n - 8];
    }
  }

  /** The part of `BitCmp` that looks at two blocks of `len` bits. */
  function BlockCmp(signedChar: bool, s: seq<Byte>, t: seq<Byte>, len: nat): int
    requires len <= 8 * |s| && len <= 8 * |t|
  {
    var df, bytes := len % 8, len / 8;
    var cmp := Memcmp(s, t, bytes);
    if cmp != 0 || df == 0 then cmp
    else
      var c1, c2 := Shifted(signedChar, s[bytes], df), Shifted(signedChar, t[bytes], df);
      if c1 != c2 then (if c1 < c2 then -1 else 1) else 0
  }

  lemma PowersUpTo8()
    ensures Pow2(0) == 1 && Pow2(1) == 2 && Pow2(2) == 4 && Pow2(3) == 8 && Pow2(4) == 16
    ensures Pow2(5) == 32 && Pow2(6) == 64 && Pow2(7) == 128 && Pow2(8) == 256
  {
  }

  lemma NegativeShift(b: int, df: nat)
    requires 0 < df < 8
    ensures (b - 256) / Pow2(8 - df) == b / Pow2(8 - df) - Pow2(df)
  {
    PowersUpTo8();
    hide Pow2;
    if df == 1 {} else if df == 2 {} else if df == 3 {} else if df == 4 {}
    else if df == 5 {} else if df == 6 {} else {}
  }

  lemma TopBitsRange(b: Byte, df: nat)
    requires 0 < df < 8
    ensures 0 <= TopBits(b, df) < Pow2(df) == 2 * Pow2(df - 1) <= 128
    ensures b >= 128 <==> TopBits(b, df) >= Pow2(df - 1)
  {
    PowersUpTo8();
    hide Pow2;
    if df == 1 {} else if df == 2 {} else if df == 3 {} else if df == 4 {}
    else if df == 5 {} else if df == 6 {} else {}
  }

  /** A negative char keeps its leading bits when shifted, below a row of ones. */
  lemma ShiftedValue(signedChar: bool, b: Byte, df: nat)
    requires 0 < df < 8
    ensures Shifted(signedChar, b, df) == TopBits(b, df) + if signedChar && b >= 128 then 256 - Pow2(df) else 0
  {
    hide Pow2;
    NegativeShift(b, df);
    TopBitsRange(b, df);
  }

  /** The shifted chars compare like the leading bits, whether or not `char` is signed. */
  lemma ShiftedOrder(signedChar: bool, b: Byte, c: Byte, df: nat)
    requires 0 < df < 8
    ensures Sign(Shifted(signedChar, b, df) - Shifted(signedChar, c, df)) == Sign(TopBits(b, df) - TopBits(c, df))
  {
    hide TopBits, Shifted;
    ShiftedValue(signedChar, b, df);
    ShiftedValue(signedChar, c, df);
    TopBitsRange(b, df);
    TopBitsRange(c, df);
  }

  lemma {:induction false} BlockCmpIsPrefixCmp(signedChar: bool, s: seq<Byte>, t: seq<Byte>, len: nat)
    requires len <= 8 * |s| && len <= 8 * |t|
    ensures BlockCmp(signedChar, s, t, len) == PrefixCmp(BitString(s, len), BitString(t, len))
    decreases len
  {
    if len < 8 {
      if len > 0 {
        TopBitsOrder(s[0], t[0], len);
        ShiftedOrder(signedChar, s[0], t[0], len);
      }
    } else {
      TopBitsOrder(s[0], t[0], 8);
      BlockCmpIsPrefixCmp(signedChar, s[1..], t[1..], len - 8);
      BitStringStep(s, len);
      BitStringStep(t, len);
      PrefixCmpConcat(ByteBits(s[0], 8), BitString(s[1..], len - 8), ByteBits(t[0], 8), BitString(t[1..], len - 8));
      BlockCmpStep(signedChar, s, t, len);
    }
  }

  lemma BitStringStep(s: seq<Byte>, len: nat)
    requires 8 <= len <= 8 * |s|
    ensures BitString(s, len) == ByteBits(s[0], 8) + BitString(s[1..], len - 8)
  {
  }

  lemma BlockCmpStep(signedChar: bool, s: seq<Byte>, t: seq<Byte>, len: nat)
    requires 8 <= len <= 8 * |s| && len <= 8 * |t|
    ensures BlockCmp(signedChar, s, t, len) ==
        if s[0] != t[0] then (if s[0] < t[0] then -1 else 1) else BlockCmp(signedChar, s[1..], t[1..], len - 8)
  {
    assert len / 8 == (len - 8) / 8 + 1 && len % 8 == (len - 8) % 8;
  }

  // ---------- Host names ----------

  /** A name backwards, closed by a dot. */
  function Labels(a: seq<Byte>): (s: seq<int>)
    ensures |s| == |a| + 1
  {
    if a == [] then [DOT] else [a[|a| - 1]] + Labels(a[..|a| - 1])
  }

  /** The same with the values that the platform's `char` gives the bytes. */
  function LabelValues(signedChar: bool, a: seq<Byte>): (s: seq<int>)
    ensures |s| == |a| + 1
  {
    if a == [] then [CharValue(signedChar, DOT)]
    else [CharValue(signedChar, a[|a| - 1])] + LabelValues(signedChar, a[..|a| - 1])
  }

  predicate NotBelowDot(signedChar: bool, a: seq<Byte>) {
    forall i :: 0 <= i < |a| ==> CharValue(signedChar, a[i]) >= CharValue(signedChar, DOT)
  }

  lemma {:induction false} HostCmpIsPrefixCmp(signedChar: bool, a: seq<Byte>, b: seq<Byte>)
    requires NotBelowDot(signedChar, a) && NotBelowDot(signedChar, b)
    ensures HostCmpNames(signedChar, a, b) == PrefixCmp(LabelValues(signedChar, a), LabelValues(signedChar, b))
  {
    if a != [] && b != [] {
      if a[|a| - 1] == b[|b| - 1] {
        HostCmpIsPrefixCmp(signedChar, a[..|a| - 1], b[..|b| - 1]);
      }
    } else if a == [] && b == [] {
    } else {
      var c := if a != [] then a[|a| - 1] else b[|b| - 1];
      assert c == DOT <==> CharValue(signedChar, c) == CharValue(signedChar, DOT);
    }
  }

  /** `a` is the name `b` itself or one of its parent domains. */
  predicate IsDomainOf(a: seq<Byte>, b: seq<Byte>) {
    a == b || (|a| < |b| && b[|b| - |a|..] == a && b[|b| - |a| - 1] == DOT)
  }

  lemma {:induction false} LabelsPrefix(signedChar: bool, a: seq<Byte>, b: seq<Byte>)
    ensures LabelValues(signedChar, a) <= LabelValues(signedChar, b) <==> IsDomainOf(a, b)
  {
    var s, t := LabelValues(signedChar, a), LabelValues(signedChar, b);
    if a == [] {
      if b != [] {
        assert b[|b|..] == a;
        assert s <= t <==> s[0] == t[0];
      }
    } else if b == [] {
    } else {
      var a', b' := a[..|a| - 1], b[..|b| - 1];
      LabelsPrefix(signedChar, a', b');
      assert s[1..] == LabelValues(signedChar, a') && t[1..] == LabelValues(signedChar, b');
      assert s <= t <==> s[0] == t[0] && s[1..] <= t[1..];
      DomainStep(a, b);
    }
  }

  lemma DomainStep(a: seq<Byte>, b: seq<Byte>)
    requires a != [] && b != []
    ensures IsDomainOf(a, b) <==> a[|a| - 1] == b[|b| - 1] && IsDomainOf(a[..|a| - 1], b[..|b| - 1])
  {
    var a', b' := a[..|a| - 1], b[..|b| - 1];
    assert a == a' + [a[|a| - 1]] && b == b' + [b[|b| - 1]];
    if |a| < |b| {
      assert b[|b| - |a|..] == b'[|b'| - |a'|..] + [b[|b| - 1]];
    }
  }

  // ---------- All three ----------

  /** The sequence that stands for a key. */
  function Canon(signedChar: bool, k: Key): seq<int> {
    match k.cmpType
    case Bits => BitString(k.data, k.len)
    case Host => LabelValues(signedChar, Name(k))
    case Bytes => [k.len] + Unsigned(Name(k))
  }

  function Unsigned(a: seq<Byte>): (s: seq<int>)
    ensures |s| == |a| && forall i :: 0 <= i < |a| ==> s[i] == a[i]
  {
    if a == [] then [] else [a[0] as int] + Unsigned(a[1..])
  }

  /** Keys for which the comparison can be trusted: host names without a byte below the dot. */
  predicate Clean(signedChar: bool, k: Key) {
    k.cmpType == Host ==> NotBelowDot(signedChar, Name(k))
  }

  lemma {:induction false} MemcmpIsPrefixCmp(s: seq<Byte>, t: seq<Byte>, n: nat)
    requires n <= |s| && n <= |t|
    ensures Memcmp(s, t, n) == PrefixCmp(Unsigned(s[..n]), Unsigned(t[..n]))
  {
    if n > 0 {
      assert s[..n][1..] == s[1..][..n - 1] && t[..n][1..] == t[1..][..n - 1];
      MemcmpIsPrefixCmp(s[1..], t[1..], n - 1);
    }
  }

  /** Every comparison of a pool is the prefix comparison of canonical sequences. */
  lemma ScmpIsPrefixCmp(signedChar: bool, p: Key, q: Key)
    requires p.cmpType == q.cmpType && Clean(signedChar, p) && Clean(signedChar, q)
    ensures Sign(Scmp(signedChar)(p, q)) == PrefixCmp(Canon(signedChar, p), Canon(signedChar, q))
  {
    match p.cmpType {
      case Bits => BitsCase(signedChar, p, q);
      case Host => HostCmpIsPrefixCmp(signedChar, Name(p), Name(q));
      case Bytes => BytesCase(signedChar, p, q);
    }
  }

  lemma BitsCase(signedChar: bool, p: Key, q: Key)
    requires p.cmpType == q.cmpType == Bits
    ensures BitCmp(signedChar, p, q) == PrefixCmp(Canon(signedChar, p), Canon(signedChar, q))
  {
    hide BitString, Memcmp, Shifted, PrefixCmp;
    var n := Min(q.len, p.len);
    Truncate(BitString(p.data, p.len), BitString(q.data, q.len), n);
    BitStringPrefix(p.data, n, p.len);
    BitStringPrefix(q.data, n, q.len);
    BlockCmpIsPrefixCmp(signedChar, p.data, q.data, n);
  }

  lemma BytesCase(signedChar: bool, p: Key, q: Key)
    requires p.cmpType == q.cmpType == Bytes
    ensures ByteCmp(p, q) == PrefixCmp(Canon(signedChar, p), Canon(signedChar, q))
  {
    MemcmpIsPrefixCmp(p.data, q.data, Min(p.len, q.len));
    var s, t := Canon(signedChar, p), Canon(signedChar, q);
    assert s[1..] == Unsigned(Name(p)) && t[1..] == Unsigned(Name(q));
  }

  /** One key covers another: a bit prefix, a parent domain, or the same bytes. */
  predicate Covers(k: Key, q: Key)
    requires k.cmpType == q.cmpType
  {
    match k.cmpType
    case Bits => k.len <= q.len && BitString(k.data, k.len) == BitString(q.data, k.len)
    case Host => IsDomainOf(Name(k), Name(q))
    case Bytes => Name(k) == Name(q)
  }

  /** The `i`-th bit of the data, the most significant bit of each byte first. */
  function BitAt(data: seq<Byte>, i: nat): int
    requires i < 8 * |data|
  {
    data[i / 8] / Pow2(7 - i % 8) % 2
  }

  lemma {:induction false} ByteBitsAt(b: Byte, k: nat, i: nat)
    requires i < k <= 8
    ensures ByteBits(b, k)[i] == b / Pow2(7 - i) % 2
  {
    if i < k - 1 {
      ByteBitsAt(b, k - 1, i);
    }
  }

  lemma {:induction false} BitStringAt(data: seq<Byte>, len: nat, i: nat)
    requires i < len <= 8 * |data|
    ensures BitString(data, len)[i] == BitAt(data, i)
    decreases len
  {
    hide ByteBits, Pow2, BitAt;
    if i < 8 {
      FirstBits(data, i);
    }
    if len <= 8 {
      ByteBitsAt(data[0], len, i);
    } else if i < 8 {
      ByteBitsAt(data[0], 8, i);
    } else {
      BitStringAt(data[1..], len - 8, i - 8);
      LaterBits(data, i);
    }
  }

  lemma FirstBits(data: seq<Byte>, i: nat)
    requires i < 8 <= 8 * |data|
    ensures BitAt(data, i) == data[0] / Pow2(7 - i) % 2
  {
    hide Pow2;
  }

  lemma LaterBits(data: seq<Byte>, i: nat)
    requires 8 <= i < 8 * |data|
    ensures BitAt(data[1..], i - 8) == BitAt(data, i)
  {
    hide Pow2;
    assert (i - 8) / 8 == i / 8 - 1 && (i - 8) % 8 == i % 8;
  }

  /** A prefix covers exactly the keys that agree with it bit by bit, as far as it goes. */
  lemma CoversBits(k: Key, q: Key)
    requires k.cmpType == q.cmpType == Bits
    ensures Covers(k, q) <==> k.len <= q.len && forall i :: 0 <= i < k.len ==> BitAt(k.data, i) == BitAt(q.data, i)
  {
    hide BitString, BitAt;
    if k.len <= q.len {
      forall i | 0 <= i < k.len
        ensures BitString(k.data, k.len)[i] == BitAt(k.data, i)
        ensures BitString(q.data, k.len)[i] == BitAt(q.data, i)
      {
        BitStringAt(k.data, k.len, i);
        BitStringAt(q.data, k.len, i);
      }
      if BitString(k.data, k.len) == BitString(q.data, k.len) {
        forall i | 0 <= i < k.len
          ensures BitAt(k.data, i) == BitAt(q.data, i)
        {
          assert BitString(k.data, k.len)[i] == BitString(q.data, k.len)[i];
        }
      }
    }
  }

  lemma {:induction false} UnsignedInjective(a: seq<Byte>, b: seq<Byte>)
    requires Unsigned(a) == Unsigned(b)
    ensures a == b
  {
    var s, t := Unsigned(a), Unsigned(b);
    assert |a| == |b|;
    forall i | 0 <= i < |a|
      ensures a[i] == b[i]
    {
      assert s[i] == a[i] && t[i] == b[i];
    }
  }

  /** Covering is being a prefix, on canonical sequences. */
  lemma CoversIsPrefix(signedChar: bool, k: Key, q: Key)
    requires k.cmpType == q.cmpType
    ensures Covers(k, q) <==> Canon(signedChar, k) <= Canon(signedChar, q)
    ensures Covers(k, q) ==> k.len <= q.len
  {
    var s, t := Canon(signedChar, k), Canon(signedChar, q);
    match k.cmpType {
      case Bits =>
        if k.len <= q.len {
          BitStringPrefix(q.data, k.len, q.len);
        }
      case Host =>
        LabelsPrefix(signedChar, Name(k), Name(q));
      case Bytes =>
        if s <= t {
          assert s[0] == t[0] && |s| == |t|;
          assert Unsigned(Name(k)) == s[1..] && Unsigned(Name(q)) == t[1..];
          UnsignedInjective(Name(k), Name(q));
        }
    }
  }

  lemma {:induction false} HostZero(signedChar: bool, a: seq<Byte>, b: seq<Byte>)
    ensures HostCmpNames(signedChar, a, b) == 0 <==> IsDomainOf(a, b) || IsDomainOf(b, a)
  {
    if a != [] && b != [] {
      DomainStep(a, b);
      DomainStep(b, a);
      if a[|a| - 1] == b[|b| - 1] {
        HostZero(signedChar, a[..|a| - 1], b[..|b| - 1]);
      }
    } else {
      assert a == [] ==> b[|b|..] == a;
      assert b == [] ==> a[|a|..] == b;
    }
  }

  /** Two keys compare as equal, whatever bytes they hold, when one covers the
      other; then the shorter one covers the longer one. */
  lemma EqualMeansCovers(signedChar: bool, p: Key, q: Key)
    requires p.cmpType == q.cmpType
    ensures Scmp(signedChar)(p, q) == 0 <==> Covers(p, q) || Covers(q, p)
    ensures Scmp(signedChar)(p, q) == 0 ==> (Covers(p, q) <==> p.len <= q.len)
  {
    CoversIsPrefix(signedChar, p, q);
    CoversIsPrefix(signedChar, q, p);
    if p.cmpType == Host {
      HostZero(signedChar, Name(p), Name(q));
    } else {
      ScmpIsPrefixCmp(signedChar, p, q);
      PrefixCmpZero(Canon(signedChar, p), Canon(signedChar, q));
    }
    if Covers(q, p) && p.len == q.len {
      assert Canon(signedChar, p) == Canon(signedChar, q);
    }
  }

  /** The same for host names; only the two stored ones need to be clean. */
  lemma {:induction false} HostFalls(signedChar: bool, x: seq<Byte>, a: seq<Byte>, b: seq<Byte>)
    requires NotBelowDot(signedChar, a) && NotBelowDot(signedChar, b) && HostCmpNames(signedChar, a, b) < 0
    ensures Sign(HostCmpNames(signedChar, x, a)) >= Sign(HostCmpNames(signedChar, x, b))
  {
    if x != [] && a != [] && b != [] && a[|a| - 1] == b[|b| - 1] == x[|x| - 1] {
      HostFalls(signedChar, x[..|x| - 1], a[..|a| - 1], b[..|b| - 1]);
    } else {
      assert b != [] && CharValue(signedChar, b[|b| - 1]) >= CharValue(signedChar, DOT);
      assert CharValue(signedChar, b[|b| - 1]) == CharValue(signedChar, DOT) <==> b[|b| - 1] == DOT;
      if a != [] {
        assert CharValue(signedChar, a[|a| - 1]) >= CharValue(signedChar, DOT);
        assert CharValue(signedChar, a[|a| - 1]) == CharValue(signedChar, DOT) <==> a[|a| - 1] == DOT;
      }
    }
  }

  /** What ordered search needs: going up from the stored `a` to a larger
      stored `b`, the comparison with any query can only go down. */
  lemma ScmpFalls(signedChar: bool, x: Key, a: Key, b: Key)
    requires x.cmpType == a.cmpType == b.cmpType && Clean(signedChar, a) && Clean(signedChar, b)
    requires Scmp(signedChar)(a, b) < 0
    ensures Sign(Scmp(signedChar)(x, a)) >= Sign(Scmp(signedChar)(x, b))
  {
    if x.cmpType == Host {
      HostFalls(signedChar, Name(x), Name(a), Name(b));
    } else {
      ScmpIsPrefixCmp(signedChar, a, b);
      ScmpIsPrefixCmp(signedChar, x, a);
      ScmpIsPrefixCmp(signedChar, x, b);
      PrefixCmpFalls(Canon(signedChar, x), Canon(signedChar, a), Canon(signedChar, b));
    }
  }

  lemma ScmpAntisymmetric(signedChar: bool, a: Key, b: Key)
    requires a.cmpType == b.cmpType && Clean(signedChar, a) && Clean(signedChar, b)
    ensures Sign(Scmp(signedChar)(a, b)) == -Sign(Scmp(signedChar)(b, a))
  {
    ScmpIsPrefixCmp(signedChar, a, b);
    ScmpIsPrefixCmp(signedChar, b, a);
    PrefixCmpAntisymmetric(Canon(signedChar, a), Canon(signedChar, b));
  }

  // ---------- When host comparison is an order ----------

  /** Names over the alphabet `cs`. */
  predicate Over(cs: set<Byte>, a: seq<Byte>) {
    forall i :: 0 <= i < |a| ==> a[i] in cs
  }

  /** What ordered search needs: going up from `a` to a larger `b`, the
      comparison with any `x` can only go down. */
  ghost predicate HostOrdered(signedChar: bool, cs: set<Byte>) {
    forall x, a, b ::
      Over(cs, x) && Over(cs, a) && Over(cs, b) && HostCmpNames(signedChar, a, b) < 0 ==>
        Sign(HostCmpNames(signedChar, x, a)) >= Sign(HostCmpNames(signedChar, x, b))
  }

  /** Which bytes are below the dot as the platform's plain `char`. */
  lemma BelowDot(signedChar: bool, b: Byte)
    ensures CharValue(signedChar, b) < CharValue(signedChar, DOT) <==> b < 0x2e || (signedChar && b >= 0x80)
  {
  }

  /** Names over an alphabet with the dot are ordered if and only if no
      character of it is below the dot. */
  lemma HostOrderedIff(signedChar: bool, cs: set<Byte>)
    requires DOT in cs
    ensures HostOrdered(signedChar, cs) <==>
      forall c :: c in cs ==> CharValue(signedChar, c) >= CharValue(signedChar, DOT)
  {
    if forall c :: c in cs ==> CharValue(signedChar, c) >= CharValue(signedChar, DOT) {
      forall x, a, b | Over(cs, x) && Over(cs, a) && Over(cs, b) && HostCmpNames(signedChar, a, b) < 0
        ensures Sign(HostCmpNames(signedChar, x, a)) >= Sign(HostCmpNames(signedChar, x, b))
      {
        HostFalls(signedChar, x, a, b);
      }
    } else {
      var c: Byte :| c in cs && CharValue(signedChar, c) < CharValue(signedChar, DOT);
      HostMisordered(signedChar, c);
      assert Over(cs, [c]) && Over(cs, [c, c]) && Over(cs, [DOT, c]);
    }
  }

  /** The smallest failure: a name, the same name with a character below the
      dot in front, and a sub-domain of the first. */
  lemma HostMisordered(signedChar: bool, c: Byte)
    requires CharValue(signedChar, c) < CharValue(signedChar, DOT)
    ensures HostCmpNames(signedChar, [c], [c, c]) < 0
    ensures HostCmpNames(signedChar, [DOT, c], [c]) == 0 && IsDomainOf([c], [DOT, c])
    ensures HostCmpNames(signedChar, [DOT, c], [c, c]) > 0
  {
    assert [c][..0] == [] && [c, c][..1] == [c] && [DOT, c][..1] == [DOT];
    assert [DOT, c][1..] == [c];
  }
}
