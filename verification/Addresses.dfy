/** Address and port patterns: octet wildcards, ranges and IPv6 prefixes, on fixed-width integers. */
module Addresses {
  import opened Bytes

  // ---- Bits ----

  function Pow2(n: nat): (p: nat)
    ensures p > 0
  {
    if n == 0 then 1 else 2 * Pow2(n - 1)
  }

  /** `x & y`, bit by bit. */
  function BitAnd(x: nat, y: nat): nat {
    if x == 0 || y == 0 then 0 else 2 * BitAnd(x / 2, y / 2) + (x % 2) * (y % 2)
  }

  /** `x << k` on `width` bits. */
  function ShiftLeft(x: nat, k: nat, width: nat): nat { x * Pow2(k) % Pow2(width) }

  const WIDTH: nat := 128

  /** `u128::MAX << (128 - prefix)`. */
  function Mask(prefix: nat): nat
    requires prefix <= WIDTH
  {
    ShiftLeft(Pow2(WIDTH) - 1, WIDTH - prefix, WIDTH)
  }

  lemma {:induction false} Pow2Add(a: nat, b: nat)
    ensures Pow2(a + b) == Pow2(a) * Pow2(b)
  {
    if a > 0 {
      Pow2Add(a - 1, b);
      assert Pow2(a + b) == 2 * (Pow2(a - 1) * Pow2(b)) == Pow2(a) * Pow2(b);
    }
  }

  lemma MulAtLeast(d: int, m: nat)
    requires d >= 1
    ensures d * m >= m
  {
    assert d * m == m + (d - 1) * m;
    assert (d - 1) * m >= 0;
  }

  lemma DivUnique(x: int, m: nat, q: int, r: int)
    requires m > 0 && x == q * m + r && 0 <= r < m
    ensures x / m == q && x % m == r
  {
    var q', r' := x / m, x % m;
    Decompose(x, m);
    var d := q - q';
    assert d * m == q * m - q' * m;
    if d >= 1 {
      MulAtLeast(d, m);
    } else if d <= -1 {
      MulAtLeast(-d, m);
    }
  }

  lemma Decompose(x: int, m: nat)
    requires m > 0
    ensures x == (x / m) * m + x % m && 0 <= x % m < m
  {
  }

  lemma MaskIsHighBits(k: nat, w: nat)
    requires k <= w
    ensures Pow2(k) <= Pow2(w)
    ensures ShiftLeft(Pow2(w) - 1, k, w) == Pow2(w) - Pow2(k)
  {
    var m, n := Pow2(w), Pow2(k);
    Pow2Add(k, w - k);
    assert n * Pow2(w - k) >= n;
    assert (m - 1) * n == (n - 1) * m + (m - n);
    DivUnique((m - 1) * n, m, n - 1, m - n);
  }

  lemma {:induction false} AllOnes(x: nat, w: nat)
    requires x < Pow2(w)
    ensures BitAnd(x, Pow2(w) - 1) == x
  {
    if w > 0 {
      var ones := Pow2(w) - 1;
      assert ones == 2 * (Pow2(w - 1) - 1) + 1;
      assert ones / 2 == Pow2(w - 1) - 1 && ones % 2 == 1;
      AllOnes(x / 2, w - 1);
    }
  }

  /** The remainder by a power of two, one bit at a time. */
  lemma ModHalf(x: nat, k: nat)
    requires k > 0
    ensures x % Pow2(k) == 2 * (x / 2 % Pow2(k - 1)) + x % 2
  {
    var m, h := Pow2(k - 1), x / 2;
    assert h == (h / m) * m + h % m;
    assert x == (h / m) * (2 * m) + (2 * (h % m) + x % 2);
    DivUnique(x, 2 * m, h / m, 2 * (h % m) + x % 2);
  }

  /** Masking with the high bits clears exactly the low `k` bits. */
  lemma {:induction false} MaskClearsLowBits(x: nat, k: nat, w: nat)
    requires x < Pow2(w) && k <= w
    ensures Pow2(k) <= Pow2(w) && BitAnd(x, Pow2(w) - Pow2(k)) == x - x % Pow2(k)
  {
    hide BitAnd, Pow2;
    MaskIsHighBits(k, w);
    if k == 0 {
      AllOnes(x, w);
      NoLowBits(x);
    } else {
      Pow2Step(w);
      Pow2Step(k);
      MaskClearsLowBits(x / 2, k - 1, w - 1);
      ModHalf(x, k);
      HalfAnd(x, Pow2(w - 1) - Pow2(k - 1));
    }
  }

  lemma Pow2Step(n: nat)
    requires n > 0
    ensures Pow2(n) == 2 * Pow2(n - 1)
  {
  }

  lemma NoLowBits(x: nat)
    ensures Pow2(0) == 1 && x % Pow2(0) == 0
  {
  }

  lemma HalfAnd(x: nat, y: nat)
    ensures BitAnd(x, 2 * y) == 2 * BitAnd(x / 2, y)
  {
    assert 2 * y / 2 == y && 2 * y % 2 == 0;
  }

  // ---- IPv6 prefixes ----

  /** The masked comparison, with its special case for the empty prefix. */
  predicate InPrefix(net: nat, prefix: nat, ip: nat) {
    prefix <= WIDTH && (prefix == 0 || BitAnd(net, Mask(prefix)) == BitAnd(ip, Mask(prefix)))
  }

  /** The first address of the network: `net` with the host bits cleared. */
  function Base(net: nat, prefix: nat): int
    requires prefix <= WIDTH
  {
    net - net % Pow2(WIDTH - prefix)
  }

  lemma InPrefixIsSameBlock(net: nat, prefix: nat, ip: nat)
    requires net < Pow2(WIDTH) && ip < Pow2(WIDTH) && prefix <= WIDTH
    ensures InPrefix(net, prefix, ip) <==> net / Pow2(WIDTH - prefix) == ip / Pow2(WIDTH - prefix)
  {
    hide Pow2, BitAnd;
    var k := WIDTH - prefix;
    var m := Pow2(k);
    if prefix == 0 {
      DivUnique(net, m, 0, net);
      DivUnique(ip, m, 0, ip);
    } else {
      MaskIsHighBits(k, WIDTH);
      MaskClearsLowBits(net, k, WIDTH);
      MaskClearsLowBits(ip, k, WIDTH);
      assert net == (net / m) * m + net % m && ip == (ip / m) * m + ip % m;
      if (net / m) * m == (ip / m) * m {
        DivUnique((net / m) * m, m, net / m, 0);
        DivUnique((ip / m) * m, m, ip / m, 0);
      }
    }
  }

  /** The prefix test is membership in the block of 2^(128 - prefix) addresses that holds `net`. */
  lemma PrefixIsRange(net: nat, prefix: nat, ip: nat)
    requires net < Pow2(WIDTH) && ip < Pow2(WIDTH) && prefix <= WIDTH
    ensures InPrefix(net, prefix, ip) <==> Base(net, prefix) <= ip <= Base(net, prefix) + Pow2(WIDTH - prefix) - 1
  {
    hide Pow2, InPrefix;
    InPrefixIsSameBlock(net, prefix, ip);
    var m := Pow2(WIDTH - prefix);
    var q := net / m;
    assert Base(net, prefix) == q * m;
    if q * m <= ip <= q * m + m - 1 {
      DivUnique(ip, m, q, ip - q * m);
    } else {
      assert ip == (ip / m) * m + ip % m;
    }
  }

  lemma Regroup(q: nat, b: nat, r: nat, a: nat, s: nat)
    requires r < b && s < a
    ensures (q * b + r) * a + s == q * (a * b) + (r * a + s) && 0 <= r * a + s < a * b
  {
    assert (q * b + r) * a == q * b * a + r * a == q * (a * b) + r * a;
    var gap := b - 1 - r;
    assert gap * a >= 0;
    assert a * b == (r + gap + 1) * a == r * a + gap * a + a;
  }

  lemma DivByProduct(x: nat, a: nat, b: nat)
    requires a > 0 && b > 0
    ensures a * b > 0 && x / (a * b) == x / a / b
  {
    var q, s := x / a, x % a;
    var p, r := q / b, q % b;
    Regroup(p, b, r, a, s);
    Recompose(x, a, b, q, s, p, r);
    DivUnique(x, a * b, p, r * a + s);
  }

  lemma Recompose(x: nat, a: nat, b: nat, q: nat, s: nat, p: nat, r: nat)
    requires a > 0 && b > 0 && q == x / a && s == x % a && p == q / b && r == q % b
    ensures x == (p * b + r) * a + s
  {
    Decompose(x, a);
    Decompose(q, b);
  }

  /** A longer prefix matches less: monotone in the prefix length. */
  lemma LongerPrefixIsNarrower(net: nat, longer: nat, shorter: nat, ip: nat)
    requires net < Pow2(WIDTH) && ip < Pow2(WIDTH) && shorter <= longer <= WIDTH
    requires InPrefix(net, longer, ip)
    ensures InPrefix(net, shorter, ip)
  {
    hide Pow2, InPrefix;
    InPrefixIsSameBlock(net, longer, ip);
    InPrefixIsSameBlock(net, shorter, ip);
    var a, b := Pow2(WIDTH - longer), Pow2(longer - shorter);
    Pow2Add(WIDTH - longer, longer - shorter);
    DivByProduct(net, a, b);
    DivByProduct(ip, a, b);
  }

  // ---- Patterns ----

  /** A parsed host pattern; `Malformed` is text no parser accepted, and matches nothing. */
  datatype IpPattern =
    | AnyIp
    | V4Range(first: Octets4, last: Octets4)
    | V4Parts(parts: seq<Option<Byte>>)
    | V6Prefix(net: Octets16, prefix: nat)
    | V6Range(from: Octets16, to: Octets16)
    | V6Exact(address: Octets16)
    | Malformed

  /** Every part that is not a star equals its octet. */
  predicate PartsMatch(parts: seq<Option<Byte>>, octets: Octets4) {
    |parts| == 4 && forall i :: 0 <= i < 4 ==> parts[i].Some? ==> parts[i].value == octets[i]
  }

  method MatchParts(parts: seq<Option<Byte>>, octets: Octets4) returns (b: bool)
    ensures b <==> PartsMatch(parts, octets)
  {
    if |parts| != 4 {
      return false;
    }
    for i := 0 to 4
      invariant forall k :: 0 <= k < i ==> parts[k].Some? ==> parts[k].value == octets[k]
    {
      if parts[i].None? {
        continue;
      }
      if parts[i].value != octets[i] {
        return false;
      }
    }
    return true;
  }

  predicate MatchIpPattern(p: IpPattern, ip: IpAddr) {
    match (p, ip)
    case (AnyIp, _) => true
    case (V4Range(first, last), V4(o)) => BigEndian(first) <= BigEndian(o) <= BigEndian(last)
    case (V4Parts(parts), V4(o)) => PartsMatch(parts, o)
    case (V6Prefix(net, prefix), V6(o)) => InPrefix(BigEndian(net), prefix, BigEndian(o))
    case (V6Range(from, to), V6(o)) => BigEndian(from) <= BigEndian(o) <= BigEndian(to)
    case (V6Exact(address), V6(o)) => address == o
    case _ => false
  }

  datatype PortPattern = AnyPort | PortRange(low: nat, high: nat) | OnePort(port: nat) | BadPort

  predicate MatchPortPattern(p: PortPattern, port: nat) {
    match p
    case AnyPort => true
    case PortRange(low, high) => low <= port <= high
    case OnePort(n) => n == port
    case BadPort => false
  }

  lemma {:induction false} BigEndianBounded(s: seq<Byte>)
    ensures BigEndian(s) < Pow2(8 * |s|)
  {
    if s != [] {
      var n := |s| - 1;
      BigEndianBounded(s[..n]);
      Pow2Add(8 * n, 8);
      assert Pow2(8) == 256 by { assert Pow2(4) == 16; Pow2Add(4, 4); }
    }
  }

  /** A prefix pattern on real addresses is the range of addresses of its network. */
  lemma PrefixPatternIsRange(net: Octets16, prefix: nat, o: Octets16)
    requires prefix <= WIDTH
    ensures MatchIpPattern(V6Prefix(net, prefix), V6(o))
       <==> Base(BigEndian(net), prefix) <= BigEndian(o) <= Base(BigEndian(net), prefix) + Pow2(WIDTH - prefix) - 1
  {
    hide InPrefix, Base, Pow2, BigEndian;
    BigEndianBounded(net);
    BigEndianBounded(o);
    PrefixIsRange(BigEndian(net), prefix, BigEndian(o));
  }

  function Fixed(octets: seq<Byte>): seq<Option<Byte>> { seq(|octets|, i requires 0 <= i < |octets| => Some(octets[i])) }

  function Stars(n: nat): seq<Option<Byte>> { seq(n, i => None) }

  function Fill(octets: seq<Byte>, b: Byte): (s: seq<Byte>)
    requires |octets| <= 4
    ensures |s| == 4
  {
    octets + seq(4 - |octets|, i => b)
  }

  /** Octet strings that agree on a head and span everything behind it bound exactly the strings with that head. */
  lemma {:induction false} HeadFixesRange(n: nat, low: seq<Byte>, high: seq<Byte>, ip: seq<Byte>)
    requires n <= |low| == |high| == |ip|
    requires forall i :: 0 <= i < n ==> low[i] == high[i]
    requires forall i :: n <= i < |low| ==> low[i] == 0 && high[i] == 255
    ensures (forall i :: 0 <= i < n ==> low[i] == ip[i]) <==> BigEndian(low) <= BigEndian(ip) <= BigEndian(high)
  {
    if |low| > 0 {
      var last := |low| - 1;
      var m, l, h, p := if n > last then last else n, low[..last], high[..last], ip[..last];
      HeadFixesRange(m, l, h, p);
      assert (forall i :: 0 <= i < m ==> l[i] == p[i]) <==> forall i :: 0 <= i < m ==> low[i] == ip[i];
      if n > last {
        assert l == h;
      }
    }
  }

  /** An octet pattern whose stars are all at the end is the range from its zeros to its 255s. */
  lemma TrailingStarsAreRange(head: seq<Byte>, ip: Octets4)
    requires |head| <= 4
    ensures MatchIpPattern(V4Parts(Fixed(head) + Stars(4 - |head|)), V4(ip))
       <==> MatchIpPattern(V4Range(Fill(head, 0), Fill(head, 255)), V4(ip))
  {
    hide BigEndian;
    var parts, low, high := Fixed(head) + Stars(4 - |head|), Fill(head, 0), Fill(head, 255);
    HeadFixesRange(|head|, low, high, ip);
    assert forall i :: 0 <= i < |head| ==> parts[i] == Some(head[i]) && low[i] == head[i];
    assert forall i :: |head| <= i < 4 ==> parts[i] == None;
  }
}
