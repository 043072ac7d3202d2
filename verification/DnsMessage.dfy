/** Address records of a DNS response (sections 4.1.1 to 4.1.3 of RFC 1035, section 2.2 of RFC 3596). */
module DnsMessage {
  import opened Bytes
  import opened DnsName

  datatype Answer = Answer(ip: IpAddr, name: Text)

  /** One resource record as it lies in the message; `end` is the offset just past it. */
  datatype WireRecord = WireRecord(rtype: nat, rclass: nat, rdata: seq<Byte>, end: nat)

  const HEADER: nat := 12

  function U16At(msg: seq<Byte>, i: nat): (n: nat)
    requires i + 1 < |msg|
    ensures n < 0x1_0000
  {
    U16(msg[i], msg[i + 1])
  }

  function ReadRecord(msg: seq<Byte>, offset: nat): (r: Option<WireRecord>)
    ensures r.Some? ==> offset < r.value.end <= |msg|
  {
    match Visit(msg, offset, MAX_JUMPS)
    case None => None
    case Some(w) =>
      var start := w.end + 10;
      if start > |msg| then None
      else
        var end := start + U16At(msg, w.end + 8);
        if end > |msg| then None
        else Some(WireRecord(U16At(msg, w.end), U16At(msg, w.end + 2), msg[start..end], end))
  }

  /** The address carried by a record of class IN and type A or AAAA with the matching length. */
  function AddressOf(rtype: nat, rclass: nat, rdata: seq<Byte>): Option<IpAddr> {
    if rclass == 1 && rtype == 1 && |rdata| == 4 then Some(V4(rdata))
    else if rclass == 1 && rtype == 28 && |rdata| == 16 then Some(V6(rdata))
    else None
  }

  function Listed(ip: Option<IpAddr>, qname: Text): seq<Answer> {
    if ip.Some? then [Answer(ip.value, qname)] else []
  }

  /** Offset past `count` questions. */
  function SkipQuestions(msg: seq<Byte>, offset: nat, count: nat): (end: Option<nat>)
    ensures end.Some? && offset <= |msg| ==> offset <= end.value <= |msg|
    decreases count
  {
    if count == 0 then Some(offset)
    else
      match Visit(msg, offset, MAX_JUMPS)
      case None => None
      case Some(w) => if w.end + 4 > |msg| then None else SkipQuestions(msg, w.end + 4, count - 1)
  }

  function AnswersFrom(msg: seq<Byte>, offset: nat, count: nat, qname: Text): seq<Answer>
    decreases count
  {
    if count == 0 then []
    else
      match ReadRecord(msg, offset)
      case None => []
      case Some(r) => Listed(AddressOf(r.rtype, r.rclass, r.rdata), qname) + AnswersFrom(msg, r.end, count - 1, qname)
  }

  /** The fixed header accepts the message: QR set, RCODE 0, some answer announced. */
  predicate Answering(payload: seq<Byte>) {
    && HEADER <= |payload|
    && U16At(payload, 2) >= 0x8000
    && U16At(payload, 2) % 16 == 0
    && U16At(payload, 6) != 0
  }

  function FurtherQuestions(payload: seq<Byte>): nat
    requires HEADER <= |payload|
  {
    if U16At(payload, 4) == 0 then 0 else U16At(payload, 4) - 1
  }

  function DnsAnswers(payload: seq<Byte>): seq<Answer> {
    if !Answering(payload) then []
    else
      match Visit(payload, HEADER, MAX_JUMPS)
      case None => []
      case Some(q) =>
        if q.end + 4 > |payload| then []
        else
          match SkipQuestions(payload, q.end + 4, FurtherQuestions(payload))
          case None => []
          case Some(start) => AnswersFrom(payload, start, U16At(payload, 6), DotJoin(q.labels))
  }

  // ---- The parser ----

  lemma AnswersFromStep(msg: seq<Byte>, offset: nat, count: nat, qname: Text, out: seq<Answer>)
    ensures count == 0 || ReadRecord(msg, offset).None? ==> out + AnswersFrom(msg, offset, count, qname) == out
    ensures count > 0 && ReadRecord(msg, offset).Some?
            ==> var r := ReadRecord(msg, offset).value;
                out + AnswersFrom(msg, offset, count, qname)
                == (out + Listed(AddressOf(r.rtype, r.rclass, r.rdata), qname)) + AnswersFrom(msg, r.end, count - 1, qname)
  {
    hide Visit, ReadRecord, AddressOf;
  }

  method ParseRecord(msg: seq<Byte>, offset: nat) returns (r: Option<WireRecord>)
    ensures r == ReadRecord(msg, offset)
  {
    if offset >= |msg| {
      return None;
    }
    var name, pos := ParseName(msg, offset);
    if name.None? {
      return None;
    }
    if pos + 10 > |msg| {
      return None;
    }
    var rtype, rclass, rdlen := U16At(msg, pos), U16At(msg, pos + 2), U16At(msg, pos + 8);
    pos := pos + 10;
    if pos + rdlen > |msg| {
      return None;
    }
    return Some(WireRecord(rtype, rclass, msg[pos..pos + rdlen], pos + rdlen));
  }

  /** The answer loop, from `start` on. */
  method ParseAnswers(msg: seq<Byte>, start: nat, count: nat, qname: Text) returns (out: seq<Answer>)
    ensures out == AnswersFrom(msg, start, count, qname)
  {
    hide ReadRecord, AddressOf, AnswersFrom;
    var offset := start;
    out := [];
    assert out + AnswersFrom(msg, start, count, qname) == AnswersFrom(msg, start, count, qname);
    for i := 0 to count
      invariant out + AnswersFrom(msg, offset, count - i, qname) == AnswersFrom(msg, start, count, qname)
    {
      AnswersFromStep(msg, offset, count - i, qname, out);
      var record := ParseRecord(msg, offset);
      if record.None? {
        return;
      }
      var r := record.value;
      var ip := AddressOf(r.rtype, r.rclass, r.rdata);
      out := out + Listed(ip, qname);
      offset := r.end;
    }
    AnswersFromStep(msg, offset, 0, qname, out);
  }

  method ParseDnsAnswers(payload: seq<Byte>) returns (out: seq<Answer>)
    ensures out == DnsAnswers(payload)
  {
    hide Visit, AnswersFrom;
    if |payload| < HEADER {
      return [];
    }
    var flags := U16At(payload, 2);
    if flags < 0x8000 || flags % 16 != 0 {
      return [];
    }
    var qdcount, ancount := U16At(payload, 4), U16At(payload, 6);
    if ancount == 0 {
      return [];
    }
    var qname, qend := ParseName(payload, HEADER);
    if qname.None? {
      return [];
    }
    var offset: nat := qend + 4;
    if offset > |payload| {
      return [];
    }
    ghost var first := offset;
    var k := 1;
    while k < qdcount
      invariant 1 <= k && (k <= qdcount || k == 1)
      invariant SkipQuestions(payload, first, FurtherQuestions(payload))
             == SkipQuestions(payload, offset, if k < qdcount then qdcount - k else 0)
    {
      if offset >= |payload| {
        VisitPastEnd(payload, offset);
        return [];
      }
      var name, next := ParseName(payload, offset);
      if name.None? {
        return [];
      }
      offset := next + 4;
      if offset > |payload| {
        return [];
      }
      k := k + 1;
    }
    out := ParseAnswers(payload, offset, ancount, qname.value);
  }

  lemma VisitPastEnd(msg: seq<Byte>, offset: nat)
    requires offset >= |msg|
    ensures Visit(msg, offset, MAX_JUMPS) == None
  {
  }

  // ---- Truncation ----

  lemma ReadRecordExtends(msg: seq<Byte>, more: seq<Byte>, offset: nat)
    requires ReadRecord(msg, offset).Some?
    ensures ReadRecord(msg + more, offset) == ReadRecord(msg, offset)
  {
    VisitExtends(msg, more, offset, MAX_JUMPS);
    var start := Visit(msg, offset, MAX_JUMPS).value.end + 10;
    var end := ReadRecord(msg, offset).value.end;
    assert (msg + more)[start..end] == msg[start..end];
  }

  lemma {:induction false} SkipQuestionsExtends(msg: seq<Byte>, more: seq<Byte>, offset: nat, count: nat)
    requires SkipQuestions(msg, offset, count).Some?
    ensures SkipQuestions(msg + more, offset, count) == SkipQuestions(msg, offset, count)
    decreases count
  {
    hide Visit;
    if count > 0 {
      VisitExtends(msg, more, offset, MAX_JUMPS);
      SkipQuestionsExtends(msg, more, Visit(msg, offset, MAX_JUMPS).value.end + 4, count - 1);
    }
  }

  lemma {:induction false} AnswersFromExtends(msg: seq<Byte>, more: seq<Byte>, offset: nat, count: nat, qname: Text)
    ensures AnswersFrom(msg, offset, count, qname) <= AnswersFrom(msg + more, offset, count, qname)
    decreases count
  {
    hide Visit, ReadRecord, AddressOf;
    if count > 0 && ReadRecord(msg, offset).Some? {
      ReadRecordExtends(msg, more, offset);
      AnswersFromExtends(msg, more, ReadRecord(msg, offset).value.end, count - 1, qname);
    }
  }

  /** Cutting a message anywhere only loses answers from the end of the list: none is invented,
      altered or reordered. */
  lemma TruncationKeepsPrefix(payload: seq<Byte>, cut: nat)
    requires cut <= |payload|
    ensures DnsAnswers(payload[..cut]) <= DnsAnswers(payload)
  {
    hide Visit, SkipQuestions, AnswersFrom;
    var msg, more := payload[..cut], payload[cut..];
    assert msg + more == payload;
    if Answering(msg) && Visit(msg, HEADER, MAX_JUMPS).Some? {
      VisitExtends(msg, more, HEADER, MAX_JUMPS);
      var q := Visit(msg, HEADER, MAX_JUMPS).value;
      if q.end + 4 <= |msg| && SkipQuestions(msg, q.end + 4, FurtherQuestions(msg)).Some? {
        SkipQuestionsExtends(msg, more, q.end + 4, FurtherQuestions(msg));
        var start := SkipQuestions(msg, q.end + 4, FurtherQuestions(msg)).value;
        AnswersFromExtends(msg, more, start, U16At(msg, 6), DotJoin(q.labels));
      }
    }
  }

  /** What a message with exactly one question would hold. */
  function AfterOneQuestion(payload: seq<Byte>): seq<Answer>
    requires Answering(payload)
  {
    match Visit(payload, HEADER, MAX_JUMPS)
    case None => []
    case Some(q) =>
      if q.end + 4 > |payload| then [] else AnswersFrom(payload, q.end + 4, U16At(payload, 6), DotJoin(q.labels))
  }

  /** Every message that announces no question is read as if it announced one: the answers are looked for
      four bytes past the first record's name, in the middle of that record. */
  lemma NoQuestionReadsOne(payload: seq<Byte>)
    requires Answering(payload) && U16At(payload, 4) <= 1
    ensures DnsAnswers(payload) == AfterOneQuestion(payload)
  {
    hide Visit, AnswersFrom, DotJoin;
  }

  /** So the answer of a message with no question and one record is lost, whatever its name and data, if its
      time to live is below 2^24 and its data shorter than 256 bytes. */
  lemma LoneRecordIsLost(payload: seq<Byte>)
    requires Answering(payload) && U16At(payload, 4) == 0 && U16At(payload, 6) == 1
    requires var record := ReadRecord(payload, HEADER);
             record.Some? && |record.value.rdata| < 256
             && payload[Visit(payload, HEADER, MAX_JUMPS).value.end + 4] == 0
    ensures DnsAnswers(payload) == []
  {
    hide DotJoin;
    NoQuestionReadsOne(payload);
    var start := Visit(payload, HEADER, MAX_JUMPS).value.end + 4;
    RootName(payload, start);
    assert U16At(payload, start + 4) == |ReadRecord(payload, HEADER).value.rdata|;
    OneRecordAt(payload, start, DotJoin(Visit(payload, HEADER, MAX_JUMPS).value.labels));
  }

  lemma RootName(msg: seq<Byte>, pos: nat)
    requires pos < |msg| && msg[pos] == 0
    ensures Visit(msg, pos, MAX_JUMPS) == Some(Walk([], pos + 1))
  {
  }

  /** The class of the record misread at a time to live is never IN. */
  lemma OneRecordAt(msg: seq<Byte>, start: nat, qname: Text)
    requires start + 6 <= |msg| && Visit(msg, start, MAX_JUMPS) == Some(Walk([], start + 1)) && msg[start + 4] == 0
    ensures AnswersFrom(msg, start, 1, qname) == []
  {
    hide Visit;
    var r := ReadRecord(msg, start);
    if r.Some? {
      assert r.value.rclass == U16(msg[start + 3], msg[start + 4]);
      assert AnswersFrom(msg, r.value.end, 0, qname) == [];
    }
  }

  /** A response with no question that carries one address for the root name, with a time to live of 0. */
  predicate LoneAddress(msg: seq<Byte>) {
    && |msg| == 27 && msg[2] == 0x80 && msg[3] == msg[4] == msg[5] == msg[6] == 0 && msg[7] == 1
    && msg[12..23] == [0, 0, 1, 0, 1, 0, 0, 0, 0, 0, 4]
  }

  lemma LoneAddressIsLost(msg: seq<Byte>)
    requires LoneAddress(msg)
    ensures Answering(msg) && U16At(msg, 4) == 0
    ensures ReadRecord(msg, HEADER) == Some(WireRecord(1, 1, msg[23..], 27)) && DnsAnswers(msg) == []
  {
    hide Visit, AnswersFrom, DnsAnswers;
    var record := msg[12..23];
    assert msg[12] == record[0] && msg[13] == record[1] && msg[14] == record[2] && msg[15] == record[3];
    assert msg[16] == record[4] && msg[17] == record[5] && msg[21] == record[9] && msg[22] == record[10];
    RootName(msg, HEADER);
    assert msg[23..27] == msg[23..];
    LoneRecordIsLost(msg);
  }

  /** For one, the address 1.2.3.4 of this message. */
  lemma NoQuestionIsMisread()
    ensures var msg: seq<Byte> := [0, 0, 0x80, 0, 0, 0, 0, 1, 0, 0, 0, 0, 0, 0, 1, 0, 1, 0, 0, 0, 0, 0, 4, 1, 2, 3, 4];
            && Answering(msg) && U16At(msg, 4) == 0
            && ReadRecord(msg, HEADER) == Some(WireRecord(1, 1, [1, 2, 3, 4], 27))
            && DnsAnswers(msg) == []
  {
    hide Visit, AnswersFrom, DnsAnswers, ReadRecord, Answering, U16At;
    var msg: seq<Byte> := [0, 0, 0x80, 0, 0, 0, 0, 1, 0, 0, 0, 0, 0, 0, 1, 0, 1, 0, 0, 0, 0, 0, 4, 1, 2, 3, 4];
    assert msg[12..23] == [0, 0, 1, 0, 1, 0, 0, 0, 0, 0, 4] && msg[23..] == [1, 2, 3, 4];
    LoneAddressIsLost(msg);
  }
}
