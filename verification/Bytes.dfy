/** Bytes, addresses and text, shared by the wire-format modules. */
module Bytes {

  type Byte = b: int | 0 <= b < 256

  /** A Rust string, seen as its UTF-8 bytes. */
  type Text = seq<Byte>

  datatype Option<+T> = None | Some(value: T)

  type Octets4 = s: seq<Byte> | |s| == 4 witness [0, 0, 0, 0]
  type Octets16 = s: seq<Byte> | |s| == 16 witness seq(16, i => 0)

  datatype IpAddr = V4(octets: Octets4) | V6(segments: Octets16)

  datatype SocketAddr = SocketAddr(ip: IpAddr, port: nat)

  /** What a proxy is asked to connect to. */
  datatype Target<+Name> = ToIp(addr: SocketAddr) | ToDomain(name: Name, port: nat)

  /** The interface internet traffic used before the tunnel's routes existed, by index and family. */
  datatype Interface = Interface(v4: Option<nat>, v6: Option<nat>)

  predicate IsPort(p: nat) { p < 0x1_0000 }

  /** Big-endian 16-bit value of two bytes. */
  function U16(hi: Byte, lo: Byte): (n: nat)
    ensures n < 0x1_0000
  {
    hi * 256 + lo
  }

  function U16Bytes(n: nat): (s: seq<Byte>)
    requires n < 0x1_0000
    ensures |s| == 2 && U16(s[0], s[1]) == n
  {
    [n / 256, n % 256]
  }

  /** Value of a byte string read most significant byte first. */
  function BigEndian(s: seq<Byte>): nat {
    if s == [] then 0 else BigEndian(s[..|s| - 1]) * 256 + s[|s| - 1]
  }

  predicate Continuation(b: Byte) { 0x80 <= b <= 0xBF }

  /** Length of the well-formed UTF-8 sequence `s` starts with, 0 when there is none. */
  function ScalarLength(s: seq<Byte>): (n: nat)
    ensures n <= |s| && n <= 4
  {
    if |s| >= 1 && s[0] < 0x80 then 1
    else if |s| >= 2 && 0xC2 <= s[0] <= 0xDF && Continuation(s[1]) then 2
    else if |s| >= 3 && 0xE0 <= s[0] <= 0xEF && Continuation(s[1]) && Continuation(s[2])
            && (s[0] == 0xE0 ==> 0xA0 <= s[1]) && (s[0] == 0xED ==> s[1] <= 0x9F) then 3
    else if |s| >= 4 && 0xF0 <= s[0] <= 0xF4 && Continuation(s[1]) && Continuation(s[2]) && Continuation(s[3])
            && (s[0] == 0xF0 ==> 0x90 <= s[1]) && (s[0] == 0xF4 ==> s[1] <= 0x8F) then 4
    else 0
  }

  /** Whether `std::str::from_utf8` accepts `s`. */
  predicate Utf8(s: seq<Byte>) {
    s == [] || (ScalarLength(s) > 0 && Utf8(s[ScalarLength(s)..]))
  }

  lemma {:induction false} Utf8Concat(a: seq<Byte>, b: seq<Byte>)
    requires Utf8(a) && Utf8(b)
    ensures Utf8(a + b)
  {
    if a == [] {
      assert a + b == b;
    } else {
      var n := ScalarLength(a);
      assert forall i :: 0 <= i < |a| ==> (a + b)[i] == a[i];
      assert ScalarLength(a + b) == n;
      assert (a + b)[n..] == a[n..] + b;
      Utf8Concat(a[n..], b);
    }
  }
}
