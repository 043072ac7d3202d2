/** An encoder for DNS responses with compression, and the round trip through the parser. */
module DnsWire {
  import opened Bytes
  import opened DnsName
  import opened DnsMessage

  datatype Tail = Root | Pointer(to: nat)

  /** A name as written: labels in place, then the root or a pointer to an offset. */
  datatype NameForm = NameForm(labels: seq<Text>, tail: Tail)

  type WireName = n: NameForm | AreLabels(n.labels) && (n.tail.Pointer? ==> n.tail.to < 0x4000)
    witness NameForm([], Root)

  function Rest(n: WireName): WireName
    requires n.labels != []
  {
    NameForm(n.labels[1..], n.tail)
  }

  function EncodeName(n: WireName): seq<Byte>
    decreases |n.labels|
  {
    if n.labels != [] then [|n.labels[0]|] + n.labels[0] + EncodeName(Rest(n))
    else if n.tail.Root? then [0]
    else [0xC0 + n.tail.to / 256, n.tail.to % 256]
  }

  // ---- What a written name stands for ----

  /** The full list of labels at a position, and the jumps needed to collect them. */
  datatype Known = Known(labels: seq<Text>, depth: nat)

  /** Every position at which a name, or a suffix of one, was written. */
  type Names = map<nat, Known>

  /** A pointer leads to a name already written, at most ten jumps in all. */
  predicate Resolvable(names: Names, n: WireName) {
    n.tail.Pointer? ==> n.tail.to in names && names[n.tail.to].depth < MAX_JUMPS
  }

  function Expand(names: Names, n: WireName): (k: Known)
    requires Resolvable(names, n)
    ensures k.depth <= MAX_JUMPS
  {
    match n.tail
    case Root => Known(n.labels, 0)
    case Pointer(to) => Known(n.labels + names[to].labels, names[to].depth + 1)
  }

  /** The positions known once `n` is written at `at`: the name itself and each of its suffixes. */
  function Learn(names: Names, at: nat, n: WireName): Names
    requires Resolvable(names, n)
    decreases |n.labels|
  {
    var here := map[at := Expand(names, n)];
    if n.labels == [] then names + here
    else Learn(names, at + 1 + |n.labels[0]|, Rest(n)) + here
  }

  ghost predicate MeansAt(msg: seq<Byte>, at: nat, k: Known) {
    var w := Visit(msg, at, k.depth);
    w.Some? && w.value.labels == k.labels
  }

  /** The parser reads every known position as what was written there. */
  ghost predicate Agrees(msg: seq<Byte>, names: Names) {
    forall at :: at in names ==> MeansAt(msg, at, names[at])
  }

  lemma AgreesExtends(msg: seq<Byte>, names: Names, more: seq<Byte>)
    requires Agrees(msg, names)
    ensures Agrees(msg + more, names)
  {
    hide Visit;
    forall at | at in names ensures MeansAt(msg + more, at, names[at]) {
      assert MeansAt(msg, at, names[at]);
      VisitExtends(msg, more, at, names[at].depth);
    }
  }

  lemma AgreesLearns(msg: seq<Byte>, names: Names, at: nat, k: Known)
    requires Agrees(msg, names) && MeansAt(msg, at, k)
    ensures Agrees(msg, names + map[at := k])
  {
    hide Visit, MeansAt;
  }

  /** `n`, written at the end of `msg`, is found by the parser, which ends just past it. */
  ghost predicate Written(msg: seq<Byte>, names: Names, n: WireName)
    requires Resolvable(names, n)
  {
    var msg', k := msg + EncodeName(n), Expand(names, n);
    Visit(msg', |msg|, k.depth) == Some(Walk(k.labels, |msg'|))
  }

  lemma WrittenPointer(msg: seq<Byte>, names: Names, n: WireName)
    requires Agrees(msg, names) && Resolvable(names, n) && n.labels == [] && n.tail.Pointer?
    ensures Written(msg, names, n)
  {
    hide Utf8;
    var to := n.tail.to;
    var bytes := EncodeName(n);
    var msg' := msg + bytes;
    assert PointerTarget(bytes[0], bytes[1]) == to;
    assert MeansAt(msg, to, names[to]);
    VisitExtends(msg, bytes, to, names[to].depth);
    assert msg'[|msg|] == bytes[0] && msg'[|msg| + 1] == bytes[1];
    assert [] + names[to].labels == names[to].labels;
  }

  lemma WrittenLabel(msg: seq<Byte>, names: Names, n: WireName)
    requires Resolvable(names, n) && n.labels != []
    requires Written(msg + [|n.labels[0]|] + n.labels[0], names, Rest(n))
    ensures Written(msg, names, n)
  {
    hide Utf8, EncodeName;
    var part, rest := n.labels[0], Expand(names, Rest(n));
    var before := msg + [|part|] + part;
    var msg' := before + EncodeName(Rest(n));
    EncodeNameStep(n);
    assert msg' == msg + EncodeName(n);
    assert msg'[|msg|] == |part| && msg'[|msg| + 1..|before|] == part;
    assert IsLabel(part);
    assert Expand(names, n).labels == [part] + rest.labels;
  }

  lemma EncodeNameStep(n: WireName)
    requires n.labels != []
    ensures EncodeName(n) == [|n.labels[0]|] + n.labels[0] + EncodeName(Rest(n))
  {
  }

  /** Writing a name: the parser finds it and every suffix of it. */
  lemma {:induction false} NameWritten(msg: seq<Byte>, names: Names, n: WireName)
    requires Agrees(msg, names) && Resolvable(names, n)
    ensures Written(msg, names, n)
    ensures Agrees(msg + EncodeName(n), Learn(names, |msg|, n))
    decreases |n.labels|
  {
    hide Agrees, Utf8, Visit;
    var msg', here := msg + EncodeName(n), Expand(names, n);
    if n.labels != [] {
      var before := msg + [|n.labels[0]|] + n.labels[0];
      AgreesExtends(msg, names, [|n.labels[0]|]);
      AgreesExtends(msg + [|n.labels[0]|], names, n.labels[0]);
      NameWritten(before, names, Rest(n));
      WrittenLabel(msg, names, n);
      assert msg' == before + EncodeName(Rest(n));
      AgreesLearns(msg', Learn(names, |before|, Rest(n)), |msg|, here);
    } else {
      if n.tail.Pointer? {
        WrittenPointer(msg, names, n);
      } else {
        WrittenRoot(msg, names, n);
      }
      AgreesExtends(msg, names, EncodeName(n));
      AgreesLearns(msg', names, |msg|, here);
    }
  }

  lemma WrittenRoot(msg: seq<Byte>, names: Names, n: WireName)
    requires n.labels == [] && n.tail.Root?
    ensures Written(msg, names, n)
  {
    assert (msg + [0])[|msg|] == 0;
  }

  // ---- Messages ----

  type Word = n: nat | n < 0x1_0000

  /** A message under construction. */
  datatype Draft = Draft(msg: seq<Byte>, names: Names)

  datatype Question = Question(name: WireName, typeAndClass: Octets4)

  /** Record data is plain bytes or, as in a CNAME, a name later pointers may refer to. */
  datatype RDataForm = Raw(bytes: seq<Byte>) | Host(name: WireName)

  function RDataBytes(data: RDataForm): seq<Byte> {
    match data
    case Raw(bytes) => bytes
    case Host(n) => EncodeName(n)
  }

  type RData = d: RDataForm | |RDataBytes(d)| < 0x1_0000 witness Raw([])

  /** The record kinds: an IPv4 address, an IPv6 address, or anything that is neither. */
  datatype BodyForm = A(address: Octets4) | Aaaa(wide: Octets16) | Other(rtype: Word, rclass: Word, data: RData)

  const CLASS_IN: Word := 1
  const TYPE_A: Word := 1
  const TYPE_AAAA: Word := 28

  function TypeOf(b: BodyForm): Word {
    match b case A(_) => TYPE_A case Aaaa(_) => TYPE_AAAA case Other(t, _, _) => t
  }

  function ClassOf(b: BodyForm): Word {
    match b case A(_) => CLASS_IN case Aaaa(_) => CLASS_IN case Other(_, c, _) => c
  }

  function DataOf(b: BodyForm): RData {
    match b case A(octets) => Raw(octets) case Aaaa(octets) => Raw(octets) case Other(_, _, d) => d
  }

  /** `Other` is not an address record in disguise: a different class, type or length. */
  type Body = b: BodyForm | b.Other? ==>
      var size := |RDataBytes(b.data)|;
      b.rclass == CLASS_IN ==> !(b.rtype == TYPE_A && size == 4) && !(b.rtype == TYPE_AAAA && size == 16)
    witness A([0, 0, 0, 0])

  datatype Record = Record(name: WireName, ttl: Octets4, body: Body)

  datatype Response = Response(id: Word, flags: Word, nsAndAr: Octets4, questions: seq<Question>, answers: seq<Record>)

  function AddName(d: Draft, n: WireName): Draft
    requires Resolvable(d.names, n)
  {
    Draft(d.msg + EncodeName(n), Learn(d.names, |d.msg|, n))
  }

  function AddBytes(d: Draft, s: seq<Byte>): Draft { Draft(d.msg + s, d.names) }

  function AddQuestion(d: Draft, q: Question): Draft
    requires Resolvable(d.names, q.name)
  {
    AddBytes(AddName(d, q.name), q.typeAndClass)
  }

  predicate QuestionsOk(d: Draft, qs: seq<Question>)
    decreases |qs|
  {
    qs == [] || (Resolvable(d.names, qs[0].name) && QuestionsOk(AddQuestion(d, qs[0]), qs[1..]))
  }

  function AddQuestions(d: Draft, qs: seq<Question>): Draft
    requires QuestionsOk(d, qs)
    decreases |qs|
  {
    if qs == [] then d else AddQuestions(AddQuestion(d, qs[0]), qs[1..])
  }

  function FixedPart(r: Record): (s: seq<Byte>)
    ensures |s| == 10
    ensures U16At(s, 0) == TypeOf(r.body) && U16At(s, 2) == ClassOf(r.body) && U16At(s, 8) == |RDataBytes(DataOf(r.body))|
  {
    U16Bytes(TypeOf(r.body)) + U16Bytes(ClassOf(r.body)) + r.ttl + U16Bytes(|RDataBytes(DataOf(r.body))|)
  }

  function RecordHead(d: Draft, r: Record): Draft
    requires Resolvable(d.names, r.name)
  {
    AddBytes(AddName(d, r.name), FixedPart(r))
  }

  predicate RecordOk(d: Draft, r: Record) {
    && Resolvable(d.names, r.name)
    && (DataOf(r.body).Host? ==> Resolvable(RecordHead(d, r).names, DataOf(r.body).name))
  }

  function AddRecord(d: Draft, r: Record): Draft
    requires RecordOk(d, r)
  {
    match DataOf(r.body)
    case Raw(bytes) => AddBytes(RecordHead(d, r), bytes)
    case Host(n) => AddName(RecordHead(d, r), n)
  }

  predicate RecordsOk(d: Draft, rs: seq<Record>)
    decreases |rs|
  {
    rs == [] || (RecordOk(d, rs[0]) && RecordsOk(AddRecord(d, rs[0]), rs[1..]))
  }

  function AddRecords(d: Draft, rs: seq<Record>): Draft
    requires RecordsOk(d, rs)
    decreases |rs|
  {
    if rs == [] then d else AddRecords(AddRecord(d, rs[0]), rs[1..])
  }

  /** The header, with the section counts of the response. */
  function Header(r: Response): (s: seq<Byte>)
    requires |r.questions| < 0x1_0000 && |r.answers| < 0x1_0000
    ensures |s| == HEADER
    ensures U16At(s, 2) == r.flags && U16At(s, 4) == |r.questions| && U16At(s, 6) == |r.answers|
  {
    U16Bytes(r.id) + U16Bytes(r.flags) + U16Bytes(|r.questions|) + U16Bytes(|r.answers|) + r.nsAndAr
  }

  /** A successful response: QR set, RCODE 0, at least one question, every pointer to an earlier name. */
  predicate WellFormed(r: Response) {
    && r.flags >= 0x8000 && r.flags % 16 == 0
    && 1 <= |r.questions| < 0x1_0000
    && |r.answers| < 0x1_0000
    && QuestionsOk(Draft(Header(r), map[]), r.questions)
    && RecordsOk(AddQuestions(Draft(Header(r), map[]), r.questions), r.answers)
  }

  function Encode(r: Response): seq<Byte>
    requires WellFormed(r)
  {
    AddRecords(AddQuestions(Draft(Header(r), map[]), r.questions), r.answers).msg
  }

  /** The address records among `rs`, in order, each with the name `qname`. */
  function Expected(rs: seq<Record>, qname: Text): seq<Answer> {
    if rs == [] then []
    else
      match rs[0].body
      case A(octets) => [Answer(V4(octets), qname)] + Expected(rs[1..], qname)
      case Aaaa(octets) => [Answer(V6(octets), qname)] + Expected(rs[1..], qname)
      case Other(_, _, _) => Expected(rs[1..], qname)
  }

  // ---- Each section is read back ----

  ghost predicate Sound(d: Draft) { Agrees(d.msg, d.names) }

  lemma NameReadBack(d: Draft, n: WireName, more: seq<Byte>)
    requires Sound(d) && Resolvable(d.names, n)
    ensures Sound(AddName(d, n))
    ensures Visit(AddName(d, n).msg + more, |d.msg|, MAX_JUMPS)
         == Some(Walk(Expand(d.names, n).labels, |AddName(d, n).msg|))
  {
    hide Visit, Agrees;
    NameWritten(d.msg, d.names, n);
    VisitMoreJumps(AddName(d, n).msg, |d.msg|, Expand(d.names, n).depth, MAX_JUMPS);
    VisitExtends(AddName(d, n).msg, more, |d.msg|, MAX_JUMPS);
  }

  lemma BytesSound(d: Draft, s: seq<Byte>)
    requires Sound(d)
    ensures Sound(AddBytes(d, s))
  {
    hide Agrees;
    AgreesExtends(d.msg, d.names, s);
  }

  lemma {:induction false} QuestionsReadBack(d: Draft, qs: seq<Question>, more: seq<Byte>)
    requires Sound(d) && QuestionsOk(d, qs)
    ensures Sound(AddQuestions(d, qs)) && d.msg <= AddQuestions(d, qs).msg
    ensures SkipQuestions(AddQuestions(d, qs).msg + more, |d.msg|, |qs|) == Some(|AddQuestions(d, qs).msg|)
    decreases |qs|
  {
    hide Visit, Resolvable, EncodeName, Learn, Sound;
    if qs != [] {
      var named, next := AddName(d, qs[0].name), AddQuestion(d, qs[0]);
      NameReadBack(d, qs[0].name, []);
      BytesSound(named, qs[0].typeAndClass);
      QuestionsReadBack(next, qs[1..], more);
      var whole := AddQuestions(d, qs).msg + more;
      assert whole == named.msg + whole[|named.msg|..];
      NameReadBack(d, qs[0].name, whole[|named.msg|..]);
    }
  }

  lemma RecordSound(d: Draft, r: Record)
    requires Sound(d) && RecordOk(d, r)
    ensures Sound(AddRecord(d, r))
  {
    hide Visit, Resolvable, EncodeName, Learn, Sound;
    NameReadBack(d, r.name, []);
    BytesSound(AddName(d, r.name), FixedPart(r));
    match DataOf(r.body) {
      case Raw(bytes) => BytesSound(RecordHead(d, r), bytes);
      case Host(n) => NameReadBack(RecordHead(d, r), n, []);
    }
  }

  lemma RecordWritten(d: Draft, r: Record)
    requires RecordOk(d, r)
    ensures AddRecord(d, r).msg == AddName(d, r.name).msg + (FixedPart(r) + RDataBytes(DataOf(r.body)))
  {
    hide Resolvable, EncodeName, Learn, FixedPart;
  }

  lemma FixedPartAt(named: seq<Byte>, fixed: seq<Byte>, rdata: seq<Byte>, i: nat)
    requires i + 1 < |fixed|
    ensures U16At(named + (fixed + rdata), |named| + i) == U16At(fixed, i)
  {
    var msg := named + (fixed + rdata);
    assert msg[|named| + i] == fixed[i] && msg[|named| + i + 1] == fixed[i + 1];
  }

  /** A record is read from the end of its name, wherever the name leads. */
  lemma RecordAfterName(named: seq<Byte>, fixed: seq<Byte>, rdata: seq<Byte>, pos: nat, labels: seq<Text>)
    requires |fixed| == 10 && U16At(fixed, 8) == |rdata|
    requires Visit(named + (fixed + rdata), pos, MAX_JUMPS) == Some(Walk(labels, |named|))
    ensures ReadRecord(named + (fixed + rdata), pos)
         == Some(WireRecord(U16At(fixed, 0), U16At(fixed, 2), rdata, |named| + 10 + |rdata|))
  {
    hide Visit, U16At;
    FixedPartAt(named, fixed, rdata, 0);
    FixedPartAt(named, fixed, rdata, 2);
    FixedPartAt(named, fixed, rdata, 8);
    var msg, at := named + (fixed + rdata), |named| + 10;
    assert msg[at..at + |rdata|] == rdata;
  }

  lemma RecordReadBack(d: Draft, r: Record)
    requires Sound(d) && RecordOk(d, r)
    ensures d.msg <= AddRecord(d, r).msg
    ensures ReadRecord(AddRecord(d, r).msg, |d.msg|)
         == Some(WireRecord(TypeOf(r.body), ClassOf(r.body), RDataBytes(DataOf(r.body)), |AddRecord(d, r).msg|))
  {
    hide Visit, Resolvable, EncodeName, Learn, Sound, FixedPart, ReadRecord, AddRecord, RDataBytes, U16At, Expand;
    var named, fixed, rdata := AddName(d, r.name).msg, FixedPart(r), RDataBytes(DataOf(r.body));
    RecordWritten(d, r);
    NameReadBack(d, r.name, fixed + rdata);
    RecordAfterName(named, fixed, rdata, |d.msg|, Expand(d.names, r.name).labels);
  }

  lemma ExpectedStep(rs: seq<Record>, qname: Text)
    requires rs != []
    ensures var b := rs[0].body;
            Expected(rs, qname) == Listed(AddressOf(TypeOf(b), ClassOf(b), RDataBytes(DataOf(b))), qname) + Expected(rs[1..], qname)
  {
    var b := rs[0].body;
    if b.Other? {
      assert AddressOf(b.rtype, b.rclass, RDataBytes(b.data)) == None;
      assert [] + Expected(rs[1..], qname) == Expected(rs[1..], qname);
    }
  }

  lemma {:induction false} RecordsReadBack(d: Draft, rs: seq<Record>, more: seq<Byte>, qname: Text)
    requires Sound(d) && RecordsOk(d, rs)
    ensures d.msg <= AddRecords(d, rs).msg
    ensures AnswersFrom(AddRecords(d, rs).msg + more, |d.msg|, |rs|, qname) == Expected(rs, qname)
    decreases |rs|
  {
    hide Visit, Sound, RecordOk, AddressOf, AddRecord, ReadRecord, RDataBytes, Expected, TypeOf, ClassOf, DataOf;
    if rs == [] {
      NoAnswers(rs, qname);
    } else {
      ExpectedStep(rs, qname);
      var next := AddRecord(d, rs[0]);
      RecordSound(d, rs[0]);
      RecordReadBack(d, rs[0]);
      RecordsReadBack(next, rs[1..], more, qname);
      var whole := AddRecords(d, rs).msg + more;
      assert whole == next.msg + whole[|next.msg|..];
      ReadRecordExtends(next.msg, whole[|next.msg|..], |d.msg|);
    }
  }

  lemma FirstName(names: Names, n: WireName)
    requires Resolvable(names, n) && names == map[]
    ensures Expand(names, n).labels == n.labels
  {
  }

  /** Parsing an encoded response, whatever follows it, gives exactly its class-IN A and AAAA
      records in order, each paired with the name of the first question. */
  lemma RoundTrip(r: Response, more: seq<Byte>)
    requires WellFormed(r)
    ensures DnsAnswers(Encode(r) + more) == Expected(r.answers, DotJoin(r.questions[0].name.labels))
  {
    hide Visit, Sound, Resolvable, EncodeName, Learn, SkipQuestions, AnswersFrom, Expected, DotJoin, RecordsOk, AddRecords, Header;
    var start, qs := Draft(Header(r), map[]), r.questions;
    var asked := AddQuestions(start, qs);
    var whole := Encode(r) + more;
    assert Sound(start) by { SoundStart(start.msg); }
    var named, first := AddName(start, qs[0].name), AddQuestion(start, qs[0]);
    NameReadBack(start, qs[0].name, []);
    BytesSound(named, qs[0].typeAndClass);
    QuestionsReadBack(first, qs[1..], []);
    var qname := DotJoin(qs[0].name.labels);
    RecordsReadBack(asked, r.answers, more, qname);
    assert asked == AddQuestions(first, qs[1..]);
    assert whole == named.msg + whole[|named.msg|..];
    NameReadBack(start, qs[0].name, whole[|named.msg|..]);
    FirstName(start.names, qs[0].name);
    assert whole == asked.msg + whole[|asked.msg|..];
    QuestionsReadBack(first, qs[1..], whole[|asked.msg|..]);
    assert whole[..HEADER] == start.msg;
    HeaderFields(r, whole);
    if |r.answers| == 0 {
      NoAnswers(r.answers, qname);
    }
  }

  lemma SoundStart(msg: seq<Byte>)
    ensures Sound(Draft(msg, map[]))
  {
  }

  lemma NoAnswers(rs: seq<Record>, qname: Text)
    requires rs == []
    ensures Expected(rs, qname) == []
  {
  }

  lemma HeaderFields(r: Response, whole: seq<Byte>)
    requires WellFormed(r) && HEADER <= |whole| && whole[..HEADER] == Header(r)
    ensures U16At(whole, 2) == r.flags && U16At(whole, 4) == |r.questions| && U16At(whole, 6) == |r.answers|
  {
    var h := whole[..HEADER];
    assert whole[2] == h[2] && whole[3] == h[3] && whole[4] == h[4];
    assert whole[5] == h[5] && whole[6] == h[6] && whole[7] == h[7];
  }
}
