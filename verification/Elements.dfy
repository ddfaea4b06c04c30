/** Keys of the pools and the three ways in which a pool compares them. */
module Elements {
  import opened Octets
  import opened Prefixes

  datatype CmpType = Bytes | Bits | Host

  /** Key bytes with a length, counted in bits for `Bits` and in bytes otherwise. */
  datatype RawKey = RawKey(cmpType: CmpType, data: seq<Byte>, len: nat)

  predicate Readable(k: RawKey) {
    if k.cmpType == Bits then k.len <= 8 * |k.data| else k.len <= |k.data|
  }

  type Key = k: RawKey | Readable(k) witness RawKey(Bytes, [], 0)

  const DOT: Byte := 46

  /** The value of a byte as the platform's plain `char`. */
  function CharValue(signedChar: bool, b: Byte): int {
    if signedChar && b >= 128 then b - 256 else b
  }

  function Min(a: nat, b: nat): nat {
    if a < b then a else b
  }

  /** The sign of comparing two blocks of `n` bytes as unsigned values. */
  function Memcmp(s: seq<Byte>, t: seq<Byte>, n: nat): int
    requires n <= |s| && n <= |t|
  {
    if n == 0 then 0
    else if s[0] != t[0] then (if s[0] < t[0] then -1 else 1)
    else Memcmp(s[1..], t[1..], n - 1)
  }

  // ---------- Comparison by bits ----------

  function Pow2(n: nat): (r: nat)
    ensures r > 0
  {
    if n == 0 then 1 else 2 * Pow2(n - 1)
  }

  /** A char shifted right by 8 - `df` places and cut back to a byte. */
  function Shifted(signedChar: bool, b: Byte, df: nat): Byte
    requires 0 < df < 8
  {
    (CharValue(signedChar, b) / Pow2(8 - df)) % 256
  }

  function BitCmp(signedChar: bool, p: Key, q: Key): int
    requires p.cmpType == q.cmpType == Bits
  {
    var len := Min(q.len, p.len);
    var df, bytes := len % 8, len / 8;
    var cmp := Memcmp(p.data, q.data, bytes);
    if cmp != 0 || df == 0 then cmp
    else
      var c1, c2 := Shifted(signedChar, p.data[bytes], df), Shifted(signedChar, q.data[bytes], df);
      if c1 != c2 then (if c1 < c2 then -1 else 1) else 0
  }

  // ---------- Comparison by bytes ----------

  function ByteCmp(p: Key, q: Key): int
    requires p.cmpType == q.cmpType == Bytes
  {
    if p.len != q.len then (if p.len < q.len then -1 else 1)
    else Memcmp(p.data, q.data, p.len)
  }

  // ---------- Comparison of host names ----------

  /** Compares names from the end; a name equals its sub-domains, and otherwise
      comes before every name it is the end of. */
  function HostCmpNames(signedChar: bool, a: seq<Byte>, b: seq<Byte>): int {
    if a != [] && b != [] then
      var x, y := a[|a| - 1], b[|b| - 1];
      if x != y then (if CharValue(signedChar, x) < CharValue(signedChar, y) then -1 else 1)
      else HostCmpNames(signedChar, a[..|a| - 1], b[..|b| - 1])
    else if a == [] && b == [] then 0
    else if (if a != [] then a[|a| - 1] else b[|b| - 1]) == DOT then 0
    else if a != [] then 1 else -1
  }

  function Name(k: Key): seq<Byte>
    requires k.cmpType != Bits
  {
    k.data[..k.len]
  }

  function HostCmp(signedChar: bool, p: Key, q: Key): int
    requires p.cmpType == q.cmpType == Host
  {
    HostCmpNames(signedChar, Name(p), Name(q))
  }

  /** The comparison as the code runs it, with two indices moving backwards. */
  method CompareHosts(signedChar: bool, p: Key, q: Key) returns (r: int)
    requires p.cmpType == q.cmpType == Host
    ensures r == HostCmp(signedChar, p, q)
  {
    var len := if q.len < p.len then q.len else p.len;
    var pd, qd := p.len, q.len;
    while len > 0
      invariant 0 <= len <= pd <= p.len && len <= qd <= q.len
      invariant pd - len == 0 || qd - len == 0
      invariant pd - qd == p.len - q.len
      invariant HostCmp(signedChar, p, q) == HostCmpNames(signedChar, p.data[..pd], q.data[..qd])
    {
      len, pd, qd := len - 1, pd - 1, qd - 1;
      assert p.data[..pd + 1][..pd] == p.data[..pd] && q.data[..qd + 1][..qd] == q.data[..qd];
      if p.data[pd] != q.data[qd] {
        return if CharValue(signedChar, p.data[pd]) < CharValue(signedChar, q.data[qd]) then -1 else 1;
      }
    }
    if p.len == q.len || (if p.len > q.len then p.data[pd - 1] else q.data[qd - 1]) == DOT {
      return 0;
    }
    r := if p.len > q.len then 1 else -1;
  }

  /** The comparison of a pool; the query decides on the kind. Pools hold keys of one kind only. */
  function Scmp(signedChar: bool): (Key, Key) -> int {
    (p: Key, q: Key) =>
      if p.cmpType != q.cmpType then 0
      else match p.cmpType
        case Bits => BitCmp(signedChar, p, q)
        case Host => HostCmp(signedChar, p, q)
        case Bytes => ByteCmp(p, q)
  }
}
