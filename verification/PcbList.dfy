/** Finding the owner of a socket in a `pcblist_n` dump: a header, then pairs of self-sized records. */
module PcbList {
  import opened Bytes

  const OFFSET_FPORT: nat := 16
  const OFFSET_LPORT: nat := 18
  const OFFSET_VFLAG: nat := 44
  const OFFSET_FADDR: nat := 48
  const OFFSET_LADDR: nat := 64
  const OFFSET_LAST_PID: nat := 68
  const INPCB_MIN: nat := 80
  const SOCKET_MIN: nat := 72
  const HEADER_MIN: nat := 24

  // ---- Byte readers ----

  function LittleEndian4(s: seq<Byte>): (n: nat)
    requires |s| == 4
    ensures n < 0x1_0000_0000
  {
    U16(s[1], s[0]) + 0x1_0000 * U16(s[3], s[2])
  }

  function LittleEndianBytes(n: nat): (s: seq<Byte>)
    requires n < 0x1_0000_0000
    ensures |s| == 4 && LittleEndian4(s) == n
  {
    var low, high := n % 0x1_0000, n / 0x1_0000;
    [low % 0x100, low / 0x100, high % 0x100, high / 0x100]
  }

  function ReadU32(record: seq<Byte>, offset: nat): Option<nat> {
    if offset + 4 <= |record| then Some(LittleEndian4(record[offset..offset + 4])) else None
  }

  function ReadU16(record: seq<Byte>, offset: nat): Option<nat> {
    if offset + 2 <= |record| then Some(U16(record[offset], record[offset + 1])) else None
  }

  /** Two's complement reading of the same four bytes. */
  function ReadI32(record: seq<Byte>, offset: nat): Option<int> {
    match ReadU32(record, offset)
    case None => None
    case Some(n) => Some(if n < 0x8000_0000 then n else n - 0x1_0000_0000)
  }

  /** A 16-byte address slot; an IPv4 address sits in its last four bytes. */
  function ReadAddress(record: seq<Byte>, offset: nat, v6: bool): Option<IpAddr> {
    if offset + 16 > |record| then None
    else if v6 then Some(V6(record[offset..offset + 16]))
    else Some(V4(record[offset + 12..offset + 16]))
  }

  // ---- Scoring ----

  datatype Candidate = Candidate(pid: nat, specificity: nat)

  predicate Unspecified(ip: IpAddr) {
    match ip
    case V4(o) => forall i :: 0 <= i < 4 ==> o[i] == 0
    case V6(o) => forall i :: 0 <= i < 16 ==> o[i] == 0
  }

  /** `vflag & INP_IPV6 != 0`. */
  predicate IsV6Flag(vflag: Byte) { vflag / 2 % 2 == 1 }

  function ScoreRecord(inpcb: seq<Byte>, socket: seq<Byte>, local: SocketAddr, remote: SocketAddr): (c: Option<Candidate>)
    ensures c.Some? ==> 0 < c.value.pid && 1 <= c.value.specificity <= 3
  {
    if OFFSET_VFLAG >= |inpcb| then None
    else
      var v6 := IsV6Flag(inpcb[OFFSET_VFLAG]);
      if v6 != local.ip.V6? then None
      else
        var lport, fport := ReadU16(inpcb, OFFSET_LPORT), ReadU16(inpcb, OFFSET_FPORT);
        if lport.None? || fport.None? || lport.value != local.port then None
        else
          var laddr, faddr := ReadAddress(inpcb, OFFSET_LADDR, v6), ReadAddress(inpcb, OFFSET_FADDR, v6);
          if laddr.None? || faddr.None? then None
          else
            var connected := fport.value != 0 && !Unspecified(faddr.value);
            var specificity :=
              if connected && laddr.value == local.ip && faddr.value == remote.ip && fport.value == remote.port then 3
              else if !Unspecified(laddr.value) && laddr.value == local.ip then 2
              else if Unspecified(laddr.value) then 1
              else 0;
            if specificity == 0 then None
            else
              match ReadI32(socket, OFFSET_LAST_PID)
              case None => None
              case Some(pid) => if pid <= 0 then None else Some(Candidate(pid, specificity))
  }

  // ---- The walk ----

  /** Where the next pair's first record ends and its second begins, and where the second ends. */
  datatype Bounds = Bounds(middle: nat, end: nat)

  function NextRecordPair(table: seq<Byte>, offset: nat): (b: Option<Bounds>)
    ensures b.Some? ==> offset + INPCB_MIN <= b.value.middle && b.value.middle + SOCKET_MIN <= b.value.end <= |table|
  {
    match ReadU32(table, offset)
    case None => None
    case Some(inpcbLen) =>
      var inpcbEnd := offset + inpcbLen;
      if inpcbLen < OFFSET_LADDR + 16 || inpcbEnd > |table| then None
      else
        match ReadU32(table, inpcbEnd)
        case None => None
        case Some(socketLen) =>
          if socketLen < OFFSET_LAST_PID + 4 || inpcbEnd + socketLen > |table| then None
          else Some(Bounds(inpcbEnd, inpcbEnd + socketLen))
  }

  /** One socket: its protocol control block and its socket record. */
  datatype Pair = Pair(inpcb: seq<Byte>, socket: seq<Byte>)

  function Score(p: Pair, local: SocketAddr, remote: SocketAddr): Option<Candidate> {
    ScoreRecord(p.inpcb, p.socket, local, remote)
  }

  /** The complete pairs from `offset` on. */
  function PairsFrom(table: seq<Byte>, offset: nat): seq<Pair>
    decreases |table| - offset
  {
    match NextRecordPair(table, offset)
    case None => []
    case Some(b) => [Pair(table[offset..b.middle], table[b.middle..b.end])] + PairsFrom(table, b.end)
  }

  /** The complete pairs of a table; none when the header is missing or too short. */
  function Pairs(table: seq<Byte>): seq<Pair> {
    match ReadU32(table, 0)
    case None => []
    case Some(header) => if header < HEADER_MIN then [] else PairsFrom(table, header)
  }

  /** Pair `i` is the earliest of those that match most specifically. */
  ghost predicate IsBest(pairs: seq<Pair>, local: SocketAddr, remote: SocketAddr, i: nat)
    requires i < |pairs|
  {
    && Score(pairs[i], local, remote).Some?
    && forall j :: 0 <= j < |pairs| && Score(pairs[j], local, remote).Some? ==>
         var mine, other := Score(pairs[i], local, remote).value.specificity, Score(pairs[j], local, remote).value.specificity;
         other <= mine && (j < i ==> other < mine)
  }

  /** `pid` is the owner the pairs determine: that of the best pair, or none when no pair matches. */
  ghost predicate Owner(pairs: seq<Pair>, local: SocketAddr, remote: SocketAddr, pid: Option<nat>) {
    match pid
    case None => forall i :: 0 <= i < |pairs| ==> Score(pairs[i], local, remote).None?
    case Some(p) =>
      exists i :: 0 <= i < |pairs| && IsBest(pairs, local, remote, i) && Score(pairs[i], local, remote).value.pid == p
  }

  /** `best` is what the loop holds after the pairs `seen`. */
  ghost predicate BestSoFar(seen: seq<Pair>, local: SocketAddr, remote: SocketAddr, best: Option<Candidate>) {
    match best
    case None => forall i :: 0 <= i < |seen| ==> Score(seen[i], local, remote).None?
    case Some(c) => exists i :: 0 <= i < |seen| && IsBest(seen, local, remote, i) && Score(seen[i], local, remote) == best
  }

  lemma BestAfter(seen: seq<Pair>, p: Pair, local: SocketAddr, remote: SocketAddr, best: Option<Candidate>)
    requires BestSoFar(seen, local, remote, best)
    ensures var score := Score(p, local, remote);
            BestSoFar(seen + [p], local, remote,
                      if score.Some? && (best.None? || score.value.specificity > best.value.specificity) then score else best)
  {
    hide ScoreRecord;
    var all, score := seen + [p], Score(p, local, remote);
    if score.Some? && (best.None? || score.value.specificity > best.value.specificity) {
      assert IsBest(all, local, remote, |seen|);
    } else if best.Some? {
      var i :| 0 <= i < |seen| && IsBest(seen, local, remote, i) && Score(seen[i], local, remote) == best;
      assert IsBest(all, local, remote, i);
    }
  }

  /** The table walk finds the owner that the complete pairs determine. */
  method ScanPcbList(table: seq<Byte>, local: SocketAddr, remote: SocketAddr) returns (pid: Option<nat>)
    ensures Owner(Pairs(table), local, remote, pid)
  {
    hide ScoreRecord, NextRecordPair, PairsFrom, BestSoFar;
    var header := ReadU32(table, 0);
    if header.None? || header.value < HEADER_MIN {
      return None;
    }
    var offset: nat, best: Option<Candidate> := header.value, None;
    ghost var seen: seq<Pair> := [];
    var ends := NextRecordPair(table, offset);
    BestOfNone(local, remote);
    while ends.Some?
      invariant ends == NextRecordPair(table, offset)
      invariant Pairs(table) == seen + PairsFrom(table, offset)
      invariant BestSoFar(seen, local, remote, best)
      decreases |table| - offset
    {
      var middle, end := ends.value.middle, ends.value.end;
      var candidate := ScoreRecord(table[offset..middle], table[middle..end], local, remote);
      ghost var p := Pair(table[offset..middle], table[middle..end]);
      BestAfter(seen, p, local, remote, best);
      PairsStep(table, offset, seen);
      if candidate.Some? && (best.None? || candidate.value.specificity > best.value.specificity) {
        best := candidate;
      }
      seen := seen + [p];
      offset := end;
      ends := NextRecordPair(table, offset);
    }
    PairsStep(table, offset, seen);
    BestIsOwner(seen, local, remote, best);
    return if best.None? then None else Some(best.value.pid);
  }

  lemma BestOfNone(local: SocketAddr, remote: SocketAddr)
    ensures BestSoFar([], local, remote, None)
  {
  }

  lemma BestIsOwner(seen: seq<Pair>, local: SocketAddr, remote: SocketAddr, best: Option<Candidate>)
    requires BestSoFar(seen, local, remote, best)
    ensures Owner(seen, local, remote, if best.None? then None else Some(best.value.pid))
  {
    hide ScoreRecord;
  }

  lemma PairsStep(table: seq<Byte>, offset: nat, seen: seq<Pair>)
    ensures match NextRecordPair(table, offset)
            case None => seen + PairsFrom(table, offset) == seen
            case Some(b) =>
              seen + PairsFrom(table, offset)
              == (seen + [Pair(table[offset..b.middle], table[b.middle..b.end])]) + PairsFrom(table, b.end)
  {
    hide NextRecordPair;
  }

  // ---- The owner is well defined ----

  lemma OwnerIsUnique(pairs: seq<Pair>, local: SocketAddr, remote: SocketAddr, p: Option<nat>, q: Option<nat>)
    requires Owner(pairs, local, remote, p) && Owner(pairs, local, remote, q)
    ensures p == q
  {
    hide ScoreRecord;
    if p.Some? && q.Some? {
      var i :| 0 <= i < |pairs| && IsBest(pairs, local, remote, i) && Score(pairs[i], local, remote).value.pid == p.value;
      var j :| 0 <= j < |pairs| && IsBest(pairs, local, remote, j) && Score(pairs[j], local, remote).value.pid == q.value;
      assert i == j;
    }
  }

  ghost predicate Maximal(pairs: seq<Pair>, local: SocketAddr, remote: SocketAddr, p: Pair) {
    && p in pairs && Score(p, local, remote).Some?
    && forall q :: q in pairs && Score(q, local, remote).Some?
         ==> Score(q, local, remote).value.specificity <= Score(p, local, remote).value.specificity
  }

  lemma BestIsMaximal(pairs: seq<Pair>, local: SocketAddr, remote: SocketAddr, pid: nat) returns (p: Pair)
    requires Owner(pairs, local, remote, Some(pid))
    ensures Maximal(pairs, local, remote, p) && Score(p, local, remote).value.pid == pid
  {
    hide ScoreRecord;
    var i :| 0 <= i < |pairs| && IsBest(pairs, local, remote, i) && Score(pairs[i], local, remote).value.pid == pid;
    p := pairs[i];
  }

  /** When the most specific matches agree on the owner, in particular when there is only one, the
      answer does not depend on the order of the table. */
  lemma OwnerIgnoresOrder(
    pairs: seq<Pair>, pairs': seq<Pair>, local: SocketAddr, remote: SocketAddr, pid: Option<nat>, pid': Option<nat>)
    requires forall p :: p in pairs <==> p in pairs'
    requires forall p, q :: Maximal(pairs, local, remote, p) && Maximal(pairs, local, remote, q)
               ==> Score(p, local, remote).value.pid == Score(q, local, remote).value.pid
    requires Owner(pairs, local, remote, pid) && Owner(pairs', local, remote, pid')
    ensures pid == pid'
  {
    hide ScoreRecord;
    if pid.Some? {
      var p := BestIsMaximal(pairs, local, remote, pid.value);
      assert p in pairs';
      if pid'.Some? {
        var q := BestIsMaximal(pairs', local, remote, pid'.value);
        assert Maximal(pairs, local, remote, q);
      }
    } else {
      assert forall p :: p in pairs' ==> Score(p, local, remote).None?;
    }
  }

  // ---- Serialised tables ----

  predicate SelfSized(record: seq<Byte>, min: nat) {
    min <= |record| < 0x1_0000_0000 && ReadU32(record, 0) == Some(|record|)
  }

  predicate PairOk(p: Pair) { SelfSized(p.inpcb, INPCB_MIN) && SelfSized(p.socket, SOCKET_MIN) }

  predicate PairsOk(pairs: seq<Pair>) { forall i :: 0 <= i < |pairs| ==> PairOk(pairs[i]) }

  function PairBytes(p: Pair): seq<Byte> { p.inpcb + p.socket }

  function Flatten(pairs: seq<Pair>): seq<Byte> {
    if pairs == [] then [] else PairBytes(pairs[0]) + Flatten(pairs[1..])
  }

  function Serialise(header: seq<Byte>, pairs: seq<Pair>): seq<Byte> { header + Flatten(pairs) }

  /** How many of the leading pairs fit completely in `room` bytes. */
  function Complete(pairs: seq<Pair>, room: int): (n: nat)
    ensures n <= |pairs|
  {
    if pairs == [] || |PairBytes(pairs[0])| > room then 0
    else 1 + Complete(pairs[1..], room - |PairBytes(pairs[0])|)
  }

  /** As far as `t` reaches, it holds `s` from `at` on. */
  predicate Holds(t: seq<Byte>, at: nat, s: seq<Byte>) {
    forall k {:trigger s[k]} :: 0 <= k < |s| && at + k < |t| ==> t[at + k] == s[k]
  }

  lemma HoldsBoth(t: seq<Byte>, at: nat, a: seq<Byte>, b: seq<Byte>)
    requires Holds(t, at, a + b)
    ensures Holds(t, at, a) && Holds(t, at + |a|, b)
  {
    forall k | 0 <= k < |a| && at + k < |t| ensures t[at + k] == a[k] {
      assert (a + b)[k] == a[k];
    }
    forall k | 0 <= k < |b| && at + |a| + k < |t| ensures t[at + |a| + k] == b[k] {
      assert (a + b)[|a| + k] == b[k];
    }
  }

  lemma HeldSlice(t: seq<Byte>, at: nat, s: seq<Byte>)
    requires Holds(t, at, s) && at + |s| <= |t|
    ensures t[at..at + |s|] == s
  {
  }

  lemma LengthHeld(t: seq<Byte>, at: nat, s: seq<Byte>)
    requires Holds(t, at, s) && |s| >= 4 && ReadU32(s, 0) == Some(|s|)
    ensures ReadU32(t, at) == if at + 4 <= |t| then Some(|s|) else None
  {
    if at + 4 <= |t| {
      forall k | 0 <= k < 4 ensures t[at + k] == s[k] {
      }
      assert t[at..at + 4] == s[0..4];
    }
  }

  /** At a pair that was written at `at`: it is found when it is complete, else the walk ends. */
  lemma NextPairWritten(t: seq<Byte>, at: nat, p: Pair)
    requires PairOk(p) && Holds(t, at, PairBytes(p))
    ensures NextRecordPair(t, at)
         == if at + |PairBytes(p)| <= |t| then Some(Bounds(at + |p.inpcb|, at + |PairBytes(p)|)) else None
  {
    hide ReadU32, Holds;
    HoldsBoth(t, at, p.inpcb, p.socket);
    LengthHeld(t, at, p.inpcb);
    LengthHeld(t, at + |p.inpcb|, p.socket);
  }

  lemma WrittenAt(before: seq<Byte>, p: Pair, after: seq<Byte>, n: nat)
    requires PairOk(p) && n <= |before| + |PairBytes(p)| + |after|
    ensures var t, middle, end := (before + (PairBytes(p) + after))[..n], |before| + |p.inpcb|, |before| + |PairBytes(p)|;
            if end <= n
            then NextRecordPair(t, |before|) == Some(Bounds(middle, end)) && t[|before|..middle] == p.inpcb && t[middle..end] == p.socket
            else NextRecordPair(t, |before|) == None
  {
    hide NextRecordPair, PairOk;
    var t, middle, end := (before + (PairBytes(p) + after))[..n], |before| + |p.inpcb|, |before| + |PairBytes(p)|;
    assert Holds(t, |before|, PairBytes(p));
    NextPairWritten(t, |before|, p);
    if end <= n {
      HoldsBoth(t, |before|, p.inpcb, p.socket);
      HeldSlice(t, |before|, p.inpcb);
      HeldSlice(t, middle, p.socket);
    }
  }

  lemma {:induction false} CutHoldsCompletePairs(before: seq<Byte>, pairs: seq<Pair>, n: nat)
    requires PairsOk(pairs) && n <= |before| + |Flatten(pairs)|
    ensures PairsFrom((before + Flatten(pairs))[..n], |before|) == pairs[..Complete(pairs, n - |before|)]
    decreases |pairs|
  {
    hide NextRecordPair, PairOk;
    var whole := before + Flatten(pairs);
    var t := whole[..n];
    if pairs == [] {
      EndOfTable(t, |before|);
    } else {
      var p := pairs[0];
      WrittenAt(before, p, Flatten(pairs[1..]), n);
      if |before| + |PairBytes(p)| <= n {
        assert whole == (before + PairBytes(p)) + Flatten(pairs[1..]);
        CutHoldsCompletePairs(before + PairBytes(p), pairs[1..], n);
        var k := Complete(pairs[1..], n - |before| - |PairBytes(p)|);
        assert [p] + pairs[1..][..k] == pairs[..k + 1];
      }
    }
  }

  lemma EndOfTable(t: seq<Byte>, offset: nat)
    requires |t| <= offset
    ensures NextRecordPair(t, offset) == None
  {
  }

  /** A table cut anywhere, in the header too, holds exactly the pairs that are complete. */
  lemma TruncatedTable(header: seq<Byte>, pairs: seq<Pair>, n: nat)
    requires SelfSized(header, HEADER_MIN) && PairsOk(pairs) && n <= |Serialise(header, pairs)|
    ensures Pairs(Serialise(header, pairs)[..n]) == pairs[..Complete(pairs, n - |header|)]
  {
    hide PairsFrom, NextRecordPair, Complete;
    var t := Serialise(header, pairs)[..n];
    CutHoldsCompletePairs(header, pairs, n);
    if n >= 4 {
      assert t[0..4] == header[0..4];
    } else {
      NothingFits(pairs, n - |header|);
    }
  }

  lemma NothingFits(pairs: seq<Pair>, room: int)
    requires room < 0
    ensures Complete(pairs, room) == 0
  {
  }

  lemma {:induction false} EverythingFits(pairs: seq<Pair>)
    ensures Complete(pairs, |Flatten(pairs)|) == |pairs|
  {
    if pairs != [] {
      EverythingFits(pairs[1..]);
    }
  }

  /** Scanning a serialised table visits exactly the pairs written, in order. */
  lemma ScanVisitsPairs(header: seq<Byte>, pairs: seq<Pair>)
    requires SelfSized(header, HEADER_MIN) && PairsOk(pairs)
    ensures Pairs(Serialise(header, pairs)) == pairs
  {
    hide Pairs, Complete, Flatten, PairOk;
    var table := Serialise(header, pairs);
    TruncatedTable(header, pairs, |table|);
    assert table[..|table|] == table;
    EverythingFits(pairs);
  }

  // ---- Records a later system made longer ----

  /** `record` with `extra` appended and its length field updated. */
  function Grown(record: seq<Byte>, extra: seq<Byte>): (g: seq<Byte>)
    requires 4 <= |record| && |record| + |extra| < 0x1_0000_0000
    ensures |g| == |record| + |extra| && ReadU32(g, 0) == Some(|g|)
    ensures forall k :: 4 <= k < |record| ==> g[k] == record[k]
  {
    var size := LittleEndianBytes(|record| + |extra|);
    assert (size + record[4..] + extra)[0..4] == size;
    size + record[4..] + extra
  }

  predicate GrowthOf(p: Pair, grown: Pair, extra: Pair) {
    && PairOk(p) && |p.inpcb| + |extra.inpcb| < 0x1_0000_0000 && |p.socket| + |extra.socket| < 0x1_0000_0000
    && grown == Pair(Grown(p.inpcb, extra.inpcb), Grown(p.socket, extra.socket))
  }

  lemma GrowthKeepsScore(p: Pair, grown: Pair, extra: Pair, local: SocketAddr, remote: SocketAddr)
    requires GrowthOf(p, grown, extra)
    ensures PairOk(grown) && Score(grown, local, remote) == Score(p, local, remote)
  {
    hide LittleEndian4, Unspecified;
    var a, b, c, d := p.inpcb, grown.inpcb, p.socket, grown.socket;
    assert b[64..80] == a[64..80] && b[48..64] == a[48..64];
    assert b[76..80] == a[76..80] && b[60..64] == a[60..64];
    assert d[68..72] == c[68..72];
  }

  /** Lengthening the header and any records never changes the owner found. */
  lemma GrowthKeepsOwner(
    header: seq<Byte>, more: seq<Byte>, pairs: seq<Pair>, grown: seq<Pair>, extras: seq<Pair>,
    local: SocketAddr, remote: SocketAddr, pid: Option<nat>)
    requires SelfSized(header, HEADER_MIN) && |header| + |more| < 0x1_0000_0000
    requires |grown| == |pairs| == |extras|
    requires forall i :: 0 <= i < |pairs| ==> GrowthOf(pairs[i], grown[i], extras[i])
    ensures Owner(Pairs(Serialise(Grown(header, more), grown)), local, remote, pid)
       <==> Owner(Pairs(Serialise(header, pairs)), local, remote, pid)
  {
    hide Pairs, Serialise, GrowthOf, PairOk, Score, Grown;
    forall i | 0 <= i < |pairs|
      ensures PairOk(pairs[i]) && PairOk(grown[i]) && Score(grown[i], local, remote) == Score(pairs[i], local, remote)
    {
      GrowthIsOfPair(pairs[i], grown[i], extras[i]);
      GrowthKeepsScore(pairs[i], grown[i], extras[i], local, remote);
    }
    ScanVisitsPairs(header, pairs);
    ScanVisitsPairs(Grown(header, more), grown);
    SameScoresSameOwner(pairs, grown, local, remote, pid);
    SameScoresSameOwner(grown, pairs, local, remote, pid);
  }

  lemma GrowthIsOfPair(p: Pair, grown: Pair, extra: Pair)
    requires GrowthOf(p, grown, extra)
    ensures PairOk(p)
  {
  }

  lemma SameScoresSameOwner(pairs: seq<Pair>, pairs': seq<Pair>, local: SocketAddr, remote: SocketAddr, pid: Option<nat>)
    requires |pairs| == |pairs'|
    requires forall i :: 0 <= i < |pairs| ==> Score(pairs[i], local, remote) == Score(pairs'[i], local, remote)
    ensures Owner(pairs, local, remote, pid) ==> Owner(pairs', local, remote, pid)
  {
    hide Score;
    if pid.Some? && Owner(pairs, local, remote, pid) {
      var i :| 0 <= i < |pairs| && IsBest(pairs, local, remote, i) && Score(pairs[i], local, remote).value.pid == pid.value;
      assert IsBest(pairs', local, remote, i);
    }
  }

  // ---- What a score means ----

  /** A socket as the kernel describes it. */
  datatype Socket = Socket(local: SocketAddr, foreign: SocketAddr, pid: nat)

  predicate SocketOk(k: Socket) {
    && IsPort(k.local.port) && IsPort(k.foreign.port) && k.pid < 0x8000_0000
    && k.local.ip.V6? == k.foreign.ip.V6?
  }

  function Zeros(n: nat): seq<Byte> { seq(n, i => 0) }

  function AddressSlot(ip: IpAddr): (s: seq<Byte>)
    ensures |s| == 16
  {
    match ip
    case V4(o) => Zeros(12) + o
    case V6(o) => o
  }

  function EncodeInpcb(k: Socket): (s: seq<Byte>)
    requires SocketOk(k)
    ensures |s| == 100
  {
    LittleEndianBytes(100) + Zeros(12) + U16Bytes(k.foreign.port) + U16Bytes(k.local.port) + Zeros(24)
    + [if k.local.ip.V6? then 2 else 1] + Zeros(3) + AddressSlot(k.foreign.ip) + AddressSlot(k.local.ip) + Zeros(20)
  }

  function EncodeSocket(k: Socket): (s: seq<Byte>)
    requires SocketOk(k)
    ensures |s| == 104
  {
    LittleEndianBytes(104) + Zeros(64) + LittleEndianBytes(k.pid) + Zeros(32)
  }

  predicate Connected(k: Socket) { k.foreign.port != 0 && !Unspecified(k.foreign.ip) }

  /** What the scan makes of a socket for the flow from `local` to `remote`: an owned socket of the
      flow's family and local port matches by its full four-tuple, else by its local address, else
      as a wildcard bind. */
  function Meaning(k: Socket, local: SocketAddr, remote: SocketAddr): Option<Candidate> {
    if k.local.ip.V6? != local.ip.V6? || k.local.port != local.port || k.pid == 0 then None
    else if Connected(k) && k.local == local && k.foreign == remote then Some(Candidate(k.pid, 3))
    else if Unspecified(k.local.ip) then Some(Candidate(k.pid, 1))
    else if k.local.ip == local.ip then Some(Candidate(k.pid, 2))
    else None
  }

  lemma InpcbFields(k: Socket)
    requires SocketOk(k)
    ensures var s := EncodeInpcb(k);
            && s[OFFSET_VFLAG] == (if k.local.ip.V6? then 2 else 1)
            && ReadU16(s, OFFSET_LPORT) == Some(k.local.port) && ReadU16(s, OFFSET_FPORT) == Some(k.foreign.port)
            && s[OFFSET_LADDR..OFFSET_LADDR + 16] == AddressSlot(k.local.ip)
            && s[OFFSET_FADDR..OFFSET_FADDR + 16] == AddressSlot(k.foreign.ip)
  {
  }

  lemma SlotReadBack(s: seq<Byte>, offset: nat, ip: IpAddr)
    requires offset + 16 <= |s| && s[offset..offset + 16] == AddressSlot(ip)
    ensures ReadAddress(s, offset, ip.V6?) == Some(ip)
  {
    if ip.V4? {
      assert s[offset + 12..offset + 16] == s[offset..offset + 16][12..] == ip.octets;
    }
  }

  lemma PidReadBack(k: Socket)
    requires SocketOk(k)
    ensures ReadI32(EncodeSocket(k), OFFSET_LAST_PID) == Some(k.pid)
  {
    assert EncodeSocket(k)[68..72] == LittleEndianBytes(k.pid);
  }

  /** The score of a pair the kernel wrote is the meaning of the socket it describes. */
  lemma ScoreMeansMatch(k: Socket, local: SocketAddr, remote: SocketAddr)
    requires SocketOk(k)
    ensures PairOk(Pair(EncodeInpcb(k), EncodeSocket(k)))
    ensures ScoreRecord(EncodeInpcb(k), EncodeSocket(k), local, remote) == Meaning(k, local, remote)
  {
    hide Unspecified, LittleEndian4, LittleEndianBytes, ReadU16, ReadAddress, ReadI32, AddressSlot;
    var s, t := EncodeInpcb(k), EncodeSocket(k);
    assert s[0..4] == LittleEndianBytes(100) && t[0..4] == LittleEndianBytes(104);
    InpcbFields(k);
    SlotReadBack(s, OFFSET_LADDR, k.local.ip);
    SlotReadBack(s, OFFSET_FADDR, k.foreign.ip);
    PidReadBack(k);
  }

  /** "A connected socket with another peer does not match" is false of the scan: such a socket, on
      the flow's local endpoint, is attributed as if it were merely bound there. */
  lemma WrongPeerIsAttributed()
    ensures var k := Socket(SocketAddr(V4([10, 63, 7, 1]), 12345), SocketAddr(V4([8, 8, 8, 8]), 443), 4242);
            && Connected(k)
            && ScoreRecord(EncodeInpcb(k), EncodeSocket(k), k.local, SocketAddr(V4([1, 1, 1, 1]), 443)) == Some(Candidate(4242, 2))
  {
    hide ScoreRecord, EncodeInpcb, EncodeSocket;
    var k := Socket(SocketAddr(V4([10, 63, 7, 1]), 12345), SocketAddr(V4([8, 8, 8, 8]), 443), 4242);
    var other := SocketAddr(V4([1, 1, 1, 1]), 443);
    assert k.foreign.ip.octets[0] == 8 && k.local.ip.octets[0] == 10 && other.ip.octets[0] == 1;
    ScoreMeansMatch(k, k.local, other);
  }

  /** A connected socket with another peer is passed over exactly when it would be even if it had no
      peer: its family, port or owner rules it out, or its local address is another, specific one. */
  lemma WrongPeerPassedOver(k: Socket, local: SocketAddr, remote: SocketAddr)
    requires SocketOk(k) && Connected(k) && k.foreign != remote
    ensures ScoreRecord(EncodeInpcb(k), EncodeSocket(k), local, remote) == None
       <==> k.local.ip.V6? != local.ip.V6? || k.local.port != local.port || k.pid == 0
            || (k.local.ip != local.ip && !Unspecified(k.local.ip))
  {
    hide ScoreRecord, EncodeInpcb, EncodeSocket, Unspecified;
    ScoreMeansMatch(k, local, remote);
  }
}
