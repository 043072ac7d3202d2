/** The SOCKS5 client handshake (RFC 1928, RFC 1929) over a byte stream that may carry tunnel data behind it. */
module Socks5 {
  import opened Bytes

  const VERSION: Byte := 5
  const CMD_CONNECT: Byte := 1
  const ATYP_IPV4: Byte := 1
  const ATYP_DOMAIN: Byte := 3
  const ATYP_IPV6: Byte := 4
  const AUTH_NONE: Byte := 0
  const AUTH_USERPASS: Byte := 2

  /** Size of the buffer the bound address is drained into. */
  const SCRATCH := 270

  datatype Credentials = Credentials(username: Option<Text>, password: Option<Text>)

  // ---- What the client sends ----

  function Greeting(useAuth: bool): seq<Byte> {
    if useAuth then [VERSION, 2, AUTH_NONE, AUTH_USERPASS] else [VERSION, 1, AUTH_NONE]
  }

  function UserPass(user: Text, pass: Text): Option<seq<Byte>> {
    if |user| > 255 || |pass| > 255 then None
    else Some([1, |user|] + user + [|pass|] + pass)
  }

  predicate ValidPort(dest: Target<Text>) {
    match dest
    case ToIp(addr) => IsPort(addr.port)
    case ToDomain(_, port) => IsPort(port)
  }

  function ConnectRequest(dest: Target<Text>): Option<seq<Byte>>
    requires ValidPort(dest)
  {
    var head := [VERSION, CMD_CONNECT, 0];
    match dest
    case ToIp(SocketAddr(V4(o), port)) => Some(head + [ATYP_IPV4] + o + U16Bytes(port))
    case ToIp(SocketAddr(V6(o), port)) => Some(head + [ATYP_IPV6] + o + U16Bytes(port))
    case ToDomain(name, port) =>
      if name == [] || |name| > 255 then None
      else Some(head + [ATYP_DOMAIN, |name|] + name + U16Bytes(port))
  }

  // ---- What a server reads, by the RFCs ----

  datatype Login = Login(user: Text, pass: Text, rest: seq<Byte>)

  /** Section 2 of RFC 1929: VER, ULEN, UNAME, PLEN, PASSWD. */
  function DecodeUserPass(s: seq<Byte>): Option<Login> {
    if |s| < 2 || s[0] != 1 then None
    else
      var u: nat := s[1];
      if |s| < 3 + u then None
      else
        var p: nat := s[2 + u];
        if |s| < 3 + u + p then None else Some(Login(s[2..2 + u], s[3 + u..3 + u + p], s[3 + u + p..]))
  }

  datatype Request = Request(command: Byte, dest: Target<Text>, rest: seq<Byte>)

  function PortAt(s: seq<Byte>, i: nat): nat
    requires i + 2 <= |s|
  {
    U16(s[i], s[i + 1])
  }

  /** Section 4 of RFC 1928: VER, CMD, RSV, ATYP, DST.ADDR, DST.PORT. */
  function DecodeRequest(s: seq<Byte>): Option<Request> {
    if |s| < 5 || s[0] != VERSION || s[2] != 0 then None
    else if s[3] == ATYP_IPV4 then
      if |s| < 10 then None else Some(Request(s[1], ToIp(SocketAddr(V4(s[4..8]), PortAt(s, 8))), s[10..]))
    else if s[3] == ATYP_IPV6 then
      if |s| < 22 then None else Some(Request(s[1], ToIp(SocketAddr(V6(s[4..20]), PortAt(s, 20))), s[22..]))
    else if s[3] == ATYP_DOMAIN then
      var n: nat := s[4];
      if |s| < 7 + n then None else Some(Request(s[1], ToDomain(s[5..5 + n], PortAt(s, 5 + n)), s[7 + n..]))
    else None
  }

  /** A server recovers every login that is sent, whatever follows it. */
  lemma UserPassReadBack(user: Text, pass: Text, rest: seq<Byte>)
    ensures UserPass(user, pass).Some? <==> |user| <= 255 && |pass| <= 255
    ensures UserPass(user, pass).Some? ==>
              DecodeUserPass(UserPass(user, pass).value + rest) == Some(Login(user, pass, rest))
  {
    if |user| <= 255 && |pass| <= 255 {
      var s := UserPass(user, pass).value + rest;
      var u, p := |user|, |pass|;
      assert s[2 + u] == p;
      assert s[2..2 + u] == user && s[3 + u..3 + u + p] == pass && s[3 + u + p..] == rest;
    }
  }

  /** A server recovers the target of every request that is sent, whatever follows it. */
  lemma ConnectRequestReadBack(dest: Target<Text>, rest: seq<Byte>)
    requires ValidPort(dest)
    ensures ConnectRequest(dest).None? <==> dest.ToDomain? && !(1 <= |dest.name| <= 255)
    ensures ConnectRequest(dest).Some? ==>
              DecodeRequest(ConnectRequest(dest).value + rest) == Some(Request(CMD_CONNECT, dest, rest))
  {
    hide DecodeRequest;
    match dest
    case ToIp(SocketAddr(V4(o), port)) => IpRequestReadBack(ATYP_IPV4, o, port, rest);
    case ToIp(SocketAddr(V6(o), port)) => IpRequestReadBack(ATYP_IPV6, o, port, rest);
    case ToDomain(name, port) =>
      if 1 <= |name| <= 255 {
        NameRequestReadBack(name, port, rest);
      }
  }

  lemma IpRequestReadBack(atyp: Byte, o: seq<Byte>, port: nat, rest: seq<Byte>)
    requires (atyp == ATYP_IPV4 && |o| == 4) || (atyp == ATYP_IPV6 && |o| == 16)
    requires IsPort(port)
    ensures DecodeRequest([VERSION, CMD_CONNECT, 0] + [atyp] + o + U16Bytes(port) + rest)
         == Some(Request(CMD_CONNECT, ToIp(SocketAddr(if |o| == 4 then V4(o) else V6(o), port)), rest))
  {
    hide U16;
    var s, n := [VERSION, CMD_CONNECT, 0] + [atyp] + o + U16Bytes(port) + rest, |o|;
    assert s[4..4 + n] == o && s[4 + n..6 + n] == U16Bytes(port) && s[6 + n..] == rest;
    assert s[4 + n] == U16Bytes(port)[0] && s[5 + n] == U16Bytes(port)[1];
  }

  lemma NameRequestReadBack(name: Text, port: nat, rest: seq<Byte>)
    requires |name| <= 255 && IsPort(port)
    ensures DecodeRequest([VERSION, CMD_CONNECT, 0] + [ATYP_DOMAIN, |name|] + name + U16Bytes(port) + rest)
         == Some(Request(CMD_CONNECT, ToDomain(name, port), rest))
  {
    hide U16;
    var s, n := [VERSION, CMD_CONNECT, 0] + [ATYP_DOMAIN, |name|] + name + U16Bytes(port) + rest, |name|;
    assert s[5..5 + n] == name && s[5 + n..7 + n] == U16Bytes(port) && s[7 + n..] == rest;
    assert s[5 + n] == U16Bytes(port)[0] && s[6 + n] == U16Bytes(port)[1];
  }

  // ---- What an accepting proxy sends ----

  datatype Bound = BoundV4(v4: Octets4) | BoundV6(v6: Octets16) | BoundName(name: Text)

  /** The success reply of section 6 of RFC 1928; the reserved byte is not checked. */
  datatype Reply = Reply(reserved: Byte, bound: Bound, port: nat)

  /** The method chosen, with the version byte of the login's answer, which is not checked. */
  datatype Acceptance = NoAuth | LoggedIn(version: Byte)

  datatype Conversation = Conversation(acceptance: Acceptance, reply: Reply)

  predicate WellFormed(r: Reply) { IsPort(r.port) && (r.bound.BoundName? ==> |r.bound.name| <= 255) }

  function AtypOf(b: Bound): Byte {
    match b
    case BoundV4(_) => ATYP_IPV4
    case BoundV6(_) => ATYP_IPV6
    case BoundName(_) => ATYP_DOMAIN
  }

  function BoundBytes(b: Bound): seq<Byte> {
    match b
    case BoundV4(o) => o
    case BoundV6(o) => o
    case BoundName(name) => name
  }

  function LengthByte(b: Bound): seq<Byte>
    requires b.BoundName? ==> |b.name| <= 255
  {
    if b.BoundName? then [|b.name|] else []
  }

  function WireReply(r: Reply): seq<Byte>
    requires WellFormed(r)
  {
    [VERSION, 0, r.reserved, AtypOf(r.bound)] + LengthByte(r.bound) + (BoundBytes(r.bound) + U16Bytes(r.port))
  }

  function WireAcceptance(a: Acceptance): seq<Byte> {
    match a
    case NoAuth => [VERSION, AUTH_NONE]
    case LoggedIn(version) => [VERSION, AUTH_USERPASS, version, 0]
  }

  function Wire(c: Conversation): seq<Byte>
    requires WellFormed(c.reply)
  {
    WireAcceptance(c.acceptance) + WireReply(c.reply)
  }

  function ReadReply(s: seq<Byte>): Option<Reply> {
    if |s| < 4 || s[0] != VERSION || s[1] != 0 then None
    else if s[3] == ATYP_IPV4 then
      if |s| < 10 then None else Some(Reply(s[2], BoundV4(s[4..8]), PortAt(s, 8)))
    else if s[3] == ATYP_IPV6 then
      if |s| < 22 then None else Some(Reply(s[2], BoundV6(s[4..20]), PortAt(s, 20)))
    else if s[3] == ATYP_DOMAIN then
      if |s| < 5 then None
      else
        var n: nat := s[4];
        if |s| < 7 + n then None else Some(Reply(s[2], BoundName(s[5..5 + n]), PortAt(s, 5 + n)))
    else None
  }

  function ReadAcceptance(s: seq<Byte>): Option<Acceptance> {
    if |s| < 2 || s[0] != VERSION then None
    else if s[1] == AUTH_NONE then Some(NoAuth)
    else if s[1] == AUTH_USERPASS && |s| >= 4 && s[3] == 0 then Some(LoggedIn(s[2]))
    else None
  }

  function ReadConversation(s: seq<Byte>): Option<Conversation> {
    match ReadAcceptance(s)
    case None => None
    case Some(a) =>
      match ReadReply(s[|WireAcceptance(a)|..])
      case None => None
      case Some(r) => Some(Conversation(a, r))
  }

  lemma Layout(head: seq<Byte>, length: seq<Byte>, bound: seq<Byte>, port: seq<Byte>, tail: seq<Byte>)
    requires |head| == 4 && |port| == 2
    ensures var s, from := head + length + (bound + port) + tail, 4 + |length|;
            && s[0] == head[0] && s[1] == head[1] && s[2] == head[2] && s[3] == head[3]
            && (length != [] ==> s[4] == length[0])
            && s[from..from + |bound|] == bound
            && s[from + |bound|] == port[0] && s[from + |bound| + 1] == port[1]
  {
  }

  lemma ReplyReadBack(r: Reply, tail: seq<Byte>)
    requires WellFormed(r)
    ensures ReadReply(WireReply(r) + tail) == Some(r)
  {
    hide U16;
    Layout([VERSION, 0, r.reserved, AtypOf(r.bound)], LengthByte(r.bound), BoundBytes(r.bound), U16Bytes(r.port), tail);
  }

  lemma PortOnWire(s: seq<Byte>, at: nat)
    requires at + 2 <= |s|
    ensures U16Bytes(PortAt(s, at)) == s[at..at + 2]
  {
    SamePort(U16Bytes(PortAt(s, at)), s[at..at + 2]);
  }

  lemma SamePort(a: seq<Byte>, b: seq<Byte>)
    requires |a| == |b| == 2 && U16(a[0], a[1]) == U16(b[0], b[1])
    ensures a == b
  {
  }

  lemma Pieces(s: seq<Byte>, from: nat, at: nat)
    requires 4 <= from <= at && at + 2 <= |s|
    ensures [s[0], s[1], s[2], s[3]] + s[4..from] + (s[from..at] + s[at..at + 2]) == s[..at + 2]
  {
  }

  lemma ReplyIsOnWire(s: seq<Byte>)
    requires ReadReply(s).Some?
    ensures WellFormed(ReadReply(s).value) && WireReply(ReadReply(s).value) <= s
  {
    hide U16, U16Bytes;
    if s[3] == ATYP_IPV4 {
      PortOnWire(s, 8);
      Pieces(s, 4, 8);
    } else if s[3] == ATYP_IPV6 {
      PortOnWire(s, 20);
      Pieces(s, 4, 20);
    } else {
      var at := 5 + s[4] as nat;
      PortOnWire(s, at);
      Pieces(s, 5, at);
      assert s[4..5] == [s[4]];
    }
  }

  /** Whatever tunnel data follows, an accepting conversation reads back as itself… */
  lemma ConversationReadBack(c: Conversation, tail: seq<Byte>)
    requires WellFormed(c.reply)
    ensures ReadConversation(Wire(c) + tail) == Some(c)
  {
    hide ReadReply, WireReply;
    var n := |WireAcceptance(c.acceptance)|;
    assert (Wire(c) + tail)[n..] == WireReply(c.reply) + tail;
    ReplyReadBack(c.reply, tail);
  }

  /** …and only streams that begin with one are read as one. */
  lemma ConversationIsOnWire(s: seq<Byte>)
    requires ReadConversation(s).Some?
    ensures WellFormed(ReadConversation(s).value.reply) && Wire(ReadConversation(s).value) <= s
  {
    hide ReadReply, WireReply;
    var c := ReadConversation(s).value;
    var n := |WireAcceptance(c.acceptance)|;
    ReplyIsOnWire(s[n..]);
    assert s == WireAcceptance(c.acceptance) + s[n..];
  }

  // ---- The client ----

  datatype Event = Sent(bytes: seq<Byte>) | Received(bytes: seq<Byte>)

  /** A connected socket: what the proxy will send until it closes, how much was read, and the I/O done. */
  class Stream {
    const inbound: seq<Byte>
    var taken: nat
    var log: seq<Event>

    ghost predicate Valid()
      reads this
    {
      taken <= |inbound|
    }

    ghost function Rest(): seq<Byte>
      requires Valid()
      reads this
    {
      inbound[taken..]
    }

    constructor (inbound: seq<Byte>)
      ensures Valid() && this.inbound == inbound && taken == 0 && log == []
    {
      this.inbound := inbound;
      taken, log := 0, [];
    }

    method WriteAll(bytes: seq<Byte>)
      requires Valid()
      modifies `log
      ensures log == old(log) + [Sent(bytes)]
    {
      log := log + [Sent(bytes)];
    }

    /** Reads exactly `n` bytes, or everything that is left when that is less. */
    method ReadExact(n: nat) returns (r: Option<seq<Byte>>)
      requires Valid()
      modifies this
      ensures Valid()
      ensures r.Some? <==> n <= |old(Rest())|
      ensures r.Some? ==>
                && taken == old(taken) + n && r.value == inbound[old(taken)..taken]
                && log == old(log) + [Received(r.value)]
      ensures r.None? ==> taken == |inbound| && log == old(log) + [Received(old(Rest()))]
    {
      if taken + n <= |inbound| {
        r := Some(inbound[taken..taken + n]);
        taken, log := taken + n, log + [Received(r.value)];
      } else {
        r := None;
        taken, log := |inbound|, log + [Received(inbound[taken..])];
      }
    }
  }

  /** The reads that take in a reply. */
  function ReplyReads(r: Reply): seq<Event>
    requires WellFormed(r)
  {
    [Received([VERSION, 0, r.reserved, AtypOf(r.bound)])]
    + (if r.bound.BoundName? then [Received(LengthByte(r.bound))] else [])
    + [Received(BoundBytes(r.bound) + U16Bytes(r.port))]
  }

  /** The log grew by reads alone. */
  predicate OnlyRead(before: seq<Event>, after: seq<Event>) {
    before <= after && forall i :: |before| <= i < |after| ==> after[i].Received?
  }

  /** Bytes of bound address and port behind the four-byte header, and where they begin. */
  function Drain(s: seq<Byte>): Option<(nat, nat)>
    requires |s| >= 4
  {
    if s[3] == ATYP_IPV4 then Some((4, 4 + 2))
    else if s[3] == ATYP_IPV6 then Some((4, 16 + 2))
    else if s[3] == ATYP_DOMAIN && |s| >= 5 then
      var n: nat := s[4];
      Some((5, n + 2))
    else None
  }

  lemma ReplyParts(s: seq<Byte>)
    ensures ReadReply(s).Some? <==>
            |s| >= 4 && s[0] == VERSION && s[1] == 0 && Drain(s).Some? && Drain(s).value.0 + Drain(s).value.1 <= |s|
    ensures ReadReply(s).Some? ==>
              var r, from, n := ReadReply(s).value, Drain(s).value.0, Drain(s).value.1;
              && WellFormed(r)
              && |WireReply(r)| == from + n
              && ReplyReads(r) == [Received(s[..4])] + (if from == 5 then [Received(s[4..5])] else [])
                                  + [Received(s[from..from + n])]
  {
    if ReadReply(s).Some? {
      var r, from, n := ReadReply(s).value, Drain(s).value.0, Drain(s).value.1;
      ReplyIsOnWire(s);
      var w := WireReply(r);
      assert w[from..from + n] == BoundBytes(r.bound) + U16Bytes(r.port);
      assert s[from..from + n] == w[from..from + n];
      assert s[..4] == [VERSION, 0, r.reserved, AtypOf(r.bound)];
      assert r.bound.BoundName? ==> s[4..5] == LengthByte(r.bound);
    }
  }

  lemma SliceOfRest(all: seq<Byte>, from: nat, i: nat, j: nat)
    requires from + j <= |all| && i <= j
    ensures all[from..][i..j] == all[from + i..from + j]
  {
  }

  method ReadSocksReply(stream: Stream) returns (ok: bool)
    requires stream.Valid()
    modifies stream
    ensures stream.Valid() && OnlyRead(old(stream.log), stream.log)
    ensures ok <==> ReadReply(old(stream.Rest())).Some?
    ensures ok ==>
              var r := ReadReply(old(stream.Rest())).value;
              && WellFormed(r)
              && stream.taken == old(stream.taken) + |WireReply(r)|
              && stream.log == old(stream.log) + ReplyReads(r)
  {
    hide ReadReply, WireReply, ReplyReads;
    ghost var s := stream.Rest();
    ReplyParts(s);
    var hdr := stream.ReadExact(4);
    if hdr.Some? {
      SliceOfRest(stream.inbound, old(stream.taken), 0, 4);
    }
    if hdr.None? || hdr.value[0] != VERSION || hdr.value[1] != 0 {
      return false;
    }
    var drain: nat;
    if hdr.value[3] == ATYP_IPV4 {
      drain := 4 + 2;
    } else if hdr.value[3] == ATYP_IPV6 {
      drain := 16 + 2;
    } else if hdr.value[3] == ATYP_DOMAIN {
      var dlen := stream.ReadExact(1);
      if dlen.None? {
        return false;
      }
      SliceOfRest(stream.inbound, old(stream.taken), 4, 5);
      var n: nat := dlen.value[0];
      drain := n + 2;
    } else {
      return false;
    }
    assert drain <= SCRATCH;
    var rest := stream.ReadExact(drain);
    if rest.None? {
      return false;
    }
    ghost var from := Drain(s).value.0;
    SliceOfRest(stream.inbound, old(stream.taken), from, from + drain);
    assert stream.log == old(stream.log)
                         + ([Received(s[..4])] + (if from == 5 then [Received(s[4..5])] else [])
                            + [Received(s[from..from + drain])]);
    return true;
  }

  predicate Usable(cfg: Credentials, a: Acceptance) {
    a.LoggedIn? ==>
      cfg.username.Some? && cfg.password.Some? && UserPass(cfg.username.value, cfg.password.value).Some?
  }

  /** A login is only ever given when it was offered. What is offered can be honoured exactly when there is
      no user name, or a password too and neither is over 255 bytes: longer ones are configured without complaint
      and fail here. */
  lemma OffersHonoured(cfg: Credentials, version: Byte)
    ensures Usable(cfg, LoggedIn(version)) ==> AUTH_USERPASS in Greeting(cfg.username.Some?)[2..]
    ensures (AUTH_USERPASS in Greeting(cfg.username.Some?)[2..] ==> Usable(cfg, LoggedIn(version)))
       <==> cfg.username.None? || (cfg.password.Some? && |cfg.username.value| <= 255 && |cfg.password.value| <= 255)
  {
    if cfg.username.Some? {
      assert Greeting(true)[3] == AUTH_USERPASS;
    }
  }

  /** For one, this password of 256 bytes: the login is offered and can never be given. */
  lemma LongPasswordOfferedNotGiven(version: Byte)
    ensures var cfg := Credentials(Some([]), Some(seq(256, i => 0)));
            AUTH_USERPASS in Greeting(cfg.username.Some?)[2..] && !Usable(cfg, LoggedIn(version))
  {
    OffersHonoured(Credentials(Some([]), Some(seq(256, i => 0))), version);
    assert Greeting(true)[2..][1] == AUTH_USERPASS;
  }

  /** The whole exchange that leads to an accepted conversation. */
  function Dialogue(cfg: Credentials, dest: Target<Text>, c: Conversation): seq<Event>
    requires ValidPort(dest) && Usable(cfg, c.acceptance) && ConnectRequest(dest).Some? && WellFormed(c.reply)
  {
    Opening(cfg, c.acceptance) + [Sent(ConnectRequest(dest).value)] + ReplyReads(c.reply)
  }

  function Opening(cfg: Credentials, a: Acceptance): seq<Event>
    requires Usable(cfg, a)
  {
    [Sent(Greeting(cfg.username.Some?))]
    + match a
      case NoAuth => [Received([VERSION, AUTH_NONE])]
      case LoggedIn(version) =>
        [Received([VERSION, AUTH_USERPASS]), Sent(UserPass(cfg.username.value, cfg.password.value).value),
         Received([version, 0])]
  }

  /** Event `i` sends the login the proxy asked for. */
  predicate LoginSent(cfg: Credentials, log: seq<Event>, i: nat)
    requires i < |log| && log[i].Sent?
  {
    && i == 2 && log[1] == Received([VERSION, AUTH_USERPASS]) && cfg.username.Some? && cfg.password.Some?
    && Some(log[i].bytes) == UserPass(cfg.username.value, cfg.password.value)
  }

  /** Event `i` sends the request, right after an opening the proxy accepted. */
  ghost predicate RequestSent(cfg: Credentials, dest: Target<Text>, log: seq<Event>, i: nat)
    requires i < |log| && log[i].Sent? && ValidPort(dest)
  {
    && Some(log[i].bytes) == ConnectRequest(dest)
    && exists a :: Usable(cfg, a) && log[..i] == Opening(cfg, a)
  }

  /** Nothing beyond the greeting is sent before the proxy has accepted what came before it. */
  ghost predicate Orderly(cfg: Credentials, dest: Target<Text>, log: seq<Event>)
    requires ValidPort(dest)
  {
    forall i :: 0 < i < |log| && log[i].Sent? ==> LoginSent(cfg, log, i) || RequestSent(cfg, dest, log, i)
  }

  /** Greets and logs in; done once the proxy has accepted. */
  method Negotiate(stream: Stream, cfg: Credentials) returns (ok: bool)
    requires stream.Valid() && stream.taken == 0 && stream.log == []
    modifies stream
    ensures stream.Valid()
    ensures ok <==> ReadAcceptance(stream.inbound).Some? && Usable(cfg, ReadAcceptance(stream.inbound).value)
    ensures ok ==>
              var a := ReadAcceptance(stream.inbound).value;
              && stream.taken == |WireAcceptance(a)|
              && stream.log == Opening(cfg, a)
    ensures !ok ==> forall i :: 0 < i < |stream.log| && stream.log[i].Sent? ==> LoginSent(cfg, stream.log, i)
  {
    hide UserPass;
    stream.WriteAll(Greeting(cfg.username.Some?));
    var chosen := stream.ReadExact(2);
    if chosen.None? || chosen.value[0] != VERSION {
      return false;
    }
    if chosen.value[1] == AUTH_NONE {
      assert chosen.value == [VERSION, AUTH_NONE];
      return true;
    } else if chosen.value[1] == AUTH_USERPASS {
      if cfg.username.None? || cfg.password.None? {
        return false;
      }
      var login := UserPass(cfg.username.value, cfg.password.value);
      if login.None? {
        return false;
      }
      stream.WriteAll(login.value);
      var answer := stream.ReadExact(2);
      if answer.None? || answer.value[1] != 0 {
        return false;
      }
      assert chosen.value == [VERSION, AUTH_USERPASS] && answer.value == [stream.inbound[2], 0];
      return true;
    } else {
      return false;
    }
  }

  /** The handshake succeeds exactly on streams that open with a conversation the client can take part in,
      and then has consumed that conversation and not a byte of the tunnel data behind it. */
  method Connect(stream: Stream, cfg: Credentials, dest: Target<Text>) returns (ok: bool)
    requires stream.Valid() && stream.taken == 0 && stream.log == [] && ValidPort(dest)
    modifies stream
    ensures stream.Valid() && Orderly(cfg, dest, stream.log)
    ensures ok <==>
            && ReadConversation(stream.inbound).Some?
            && Usable(cfg, ReadConversation(stream.inbound).value.acceptance)
            && ConnectRequest(dest).Some?
    ensures ok ==>
              var c := ReadConversation(stream.inbound).value;
              && WellFormed(c.reply)
              && stream.taken == |Wire(c)|
              && stream.log == Dialogue(cfg, dest, c)
  {
    hide ReadReply, WireReply, ReplyReads, ConnectRequest, UserPass, ReadAcceptance;
    ok := Negotiate(stream, cfg);
    if !ok {
      return;
    }
    ghost var a := ReadAcceptance(stream.inbound).value;
    var request := ConnectRequest(dest);
    if request.None? {
      return false;
    }
    stream.WriteAll(request.value);
    ghost var before := stream.log;
    ok := ReadSocksReply(stream);
    forall i | 0 < i < |stream.log| && stream.log[i].Sent?
      ensures LoginSent(cfg, stream.log, i) || RequestSent(cfg, dest, stream.log, i)
    {
      assert stream.log[i] == before[i];
      if i == |before| - 1 {
        assert stream.log[..i] == Opening(cfg, a);
      }
    }
  }
}
