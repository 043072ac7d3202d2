/** The HTTP CONNECT response: a head accumulated from arbitrary reads, then its status. */
module HttpConnect {
  import opened Bytes

  const CR: Byte := 13
  const LF: Byte := 10
  const SPACE: Byte := 32
  const PLUS: Byte := 43
  const ZERO: Byte := 48

  /** "HTTP/1." */
  const PROTOCOL: seq<Byte> := [72, 84, 84, 80, 47, 49, 46]

  /** A response head may not grow past this without ending. */
  const LIMIT := 65536

  // ---- The status line ----

  /** Length of the Unicode white-space character `s` starts with, 0 when there is none. */
  function SpaceLength(s: seq<Byte>): (n: nat)
    ensures n <= |s|
  {
    if |s| >= 1 && (s[0] == SPACE || 9 <= s[0] <= 13) then 1
    else if |s| >= 2 && s[0] == 0xC2 && (s[1] == 0x85 || s[1] == 0xA0) then 2
    else if |s| >= 3 && s[0] == 0xE1 && s[1] == 0x9A && s[2] == 0x80 then 3
    else if |s| >= 3 && s[0] == 0xE2 && s[1] == 0x80
            && (0x80 <= s[2] <= 0x8A || s[2] == 0xA8 || s[2] == 0xA9 || s[2] == 0xAF) then 3
    else if |s| >= 3 && s[0] == 0xE2 && s[1] == 0x81 && s[2] == 0x9F then 3
    else if |s| >= 3 && s[0] == 0xE3 && s[1] == 0x80 && s[2] == 0x80 then 3
    else 0
  }

  function SkipSpace(s: seq<Byte>): (r: seq<Byte>)
    ensures |r| <= |s|
  {
    if SpaceLength(s) == 0 then s else SkipSpace(s[SpaceLength(s)..])
  }

  /** The leading run of `s` up to white space. */
  function Word(s: seq<Byte>): (w: seq<Byte>)
    ensures w <= s
  {
    if s == [] || SpaceLength(s) > 0 then [] else [s[0]] + Word(s[1..])
  }

  /** The text up to the first line ending. */
  function FirstLine(s: seq<Byte>): seq<Byte> {
    if s == [] || s[0] == LF || (|s| >= 2 && s[0] == CR && s[1] == LF) then []
    else [s[0]] + FirstLine(s[1..])
  }

  predicate AreDigits(s: seq<Byte>) { forall i :: 0 <= i < |s| ==> ZERO <= s[i] <= 57 }

  function Value(digits: seq<Byte>): nat
    requires AreDigits(digits)
  {
    if digits == [] then 0
    else
      var last := |digits| - 1;
      var digit: nat := digits[last] - ZERO;
      Value(digits[..last]) * 10 + digit
  }

  /** A 16-bit unsigned number, which may be written with a plus sign and leading zeros. */
  function ParseU16(s: seq<Byte>): Option<nat> {
    var digits := if [PLUS] <= s then s[1..] else s;
    if digits == [] || !AreDigits(digits) then None
    else if Value(digits) >= 0x1_0000 then None
    else Some(Value(digits))
  }

  function ParseStatus(response: seq<Byte>): Option<nat> {
    var line := FirstLine(response);
    if !Utf8(response) || !(PROTOCOL <= line) then None
    else
      var second := SecondWord(line);
      if second == [] then None else ParseU16(second)
  }

  function SecondWord(line: seq<Byte>): seq<Byte> {
    var text := SkipSpace(line);
    Word(SkipSpace(text[|Word(text)|..]))
  }

  function Decimal(n: nat): seq<Byte> {
    if n < 10 then [ZERO + n] else Decimal(n / 10) + [ZERO + n % 10]
  }

  lemma {:induction false} DecimalReadBack(n: nat)
    ensures Decimal(n) != [] && AreDigits(Decimal(n))
    ensures Value(Decimal(n)) == n
  {
    if n >= 10 {
      DecimalReadBack(n / 10);
      assert Decimal(n)[..|Decimal(n)| - 1] == Decimal(n / 10);
    }
  }

  predicate Visible(s: seq<Byte>) { forall i :: 0 <= i < |s| ==> 33 <= s[i] < 127 }

  lemma {:induction false} WordOf(w: seq<Byte>, after: seq<Byte>)
    requires Visible(w) && (after == [] || SpaceLength(after) > 0)
    ensures Word(w + after) == w
  {
    if w == [] {
      assert w + after == after;
    } else {
      assert (w + after)[1..] == w[1..] + after;
      WordOf(w[1..], after);
    }
  }

  lemma {:induction false} FirstLineOf(text: seq<Byte>, after: seq<Byte>)
    requires forall i :: 0 <= i < |text| ==> text[i] != CR && text[i] != LF
    ensures FirstLine(text + after) == text + FirstLine(after)
  {
    if text == [] {
      assert text + after == after;
    } else {
      assert (text + after)[1..] == text[1..] + after;
      FirstLineOf(text[1..], after);
    }
  }

  /** Ending a line before white space leaves white space or nothing. */
  lemma LineKeepsSpace(after: seq<Byte>)
    requires after == [] || SpaceLength(after) > 0
    ensures FirstLine(after) == [] || SpaceLength(FirstLine(after)) > 0
  {
    if FirstLine(after) != [] {
      var n := SpaceLength(after);
      FirstLineOf(after[..n - 1], after[n - 1..]);
    }
  }

  lemma SecondWordOf(first: seq<Byte>, second: seq<Byte>, rest: seq<Byte>)
    requires Visible(first) && Visible(second) && first != [] && second != []
    requires rest == [] || SpaceLength(rest) > 0
    ensures SecondWord(first + ([SPACE] + (second + rest))) == second
  {
    hide Word;
    var tail := [SPACE] + (second + rest);
    WordOf(first, tail);
    assert (first + tail)[|first|..] == tail && tail[1..] == second + rest;
    assert SkipSpace(tail) == SkipSpace(second + rest) == second + rest;
    assert SkipSpace(first + tail) == first + tail;
    WordOf(second, rest);
  }

  /** For every version text and code, the number written second on the status line is the status found. */
  lemma StatusReadBack(version: seq<Byte>, code: nat, after: seq<Byte>)
    requires Visible(version) && code < 0x1_0000 && (after == [] || SpaceLength(after) > 0)
    requires Utf8(PROTOCOL + version + ([SPACE] + Decimal(code)) + after)
    ensures ParseStatus(PROTOCOL + version + ([SPACE] + Decimal(code)) + after) == Some(code)
  {
    hide Utf8, Value, FirstLine, SpaceLength, SecondWord, Decimal;
    DecimalReadBack(code);
    var first, second := PROTOCOL + version, Decimal(code);
    var text := first + ([SPACE] + second);
    FirstLineOf(text, after);
    LineKeepsSpace(after);
    var line := FirstLine(text + after);
    assert line == first + ([SPACE] + (second + FirstLine(after)));
    SecondWordOf(first, second, FirstLine(after));
    assert line[..7] == PROTOCOL && second[0] != PLUS;
    assert PROTOCOL + version + ([SPACE] + Decimal(code)) + after == text + after;
  }

  // ---- The head ----

  predicate EndsHead(s: seq<Byte>) { |s| >= 4 && s[|s| - 4..] == [CR, LF, CR, LF] }

  datatype Head = Complete(bytes: seq<Byte>, used: nat) | Eof | TooLarge

  /** Everything the reads delivered. */
  function Flat(chunks: seq<seq<Byte>>): seq<Byte> {
    if chunks == [] then [] else Flat(chunks[..|chunks| - 1]) + chunks[|chunks| - 1]
  }

  /** What the first read that makes the buffer stop growing leaves behind; an empty read is the end of the stream. */
  function ReadHead(chunks: seq<seq<Byte>>, n: nat): Head
    requires n <= |chunks|
    decreases |chunks| - n
  {
    if n == |chunks| || chunks[n] == [] then Eof
    else
      var buf := Flat(chunks[..n + 1]);
      if EndsHead(buf) then Complete(buf, n + 1)
      else if |buf| > LIMIT then TooLarge
      else ReadHead(chunks, n + 1)
  }

  datatype Failure = Closed | HeadTooLarge | Invalid | Status(code: nat)
  datatype Result = Connected | Failed(failure: Failure)

  function Verdict(head: seq<Byte>): Result {
    match ParseStatus(head)
    case None => Failed(Invalid)
    case Some(code) => if code == 200 then Connected else Failed(Status(code))
  }

  /** `chunks` lists what successive reads of the socket return. */
  method AwaitConnected(chunks: seq<seq<Byte>>) returns (result: Result, used: nat)
    ensures match ReadHead(chunks, 0)
            case Eof => result == Failed(Closed)
            case TooLarge => result == Failed(HeadTooLarge)
            case Complete(head, n) => result == Verdict(head) && used == n
  {
    hide Utf8, ParseStatus;
    var buf: seq<Byte> := [];
    used := 0;
    while true
      invariant used <= |chunks| && buf == Flat(chunks[..used])
      invariant ReadHead(chunks, 0) == ReadHead(chunks, used)
      decreases |chunks| - used
    {
      if used == |chunks| || chunks[used] == [] {
        return Failed(Closed), used;
      }
      assert chunks[..used + 1][..used] == chunks[..used];
      buf := buf + chunks[used];
      used := used + 1;
      if |buf| >= 4 && buf[|buf| - 4..] == [CR, LF, CR, LF] {
        break;
      }
      if |buf| > LIMIT {
        return Failed(HeadTooLarge), used;
      }
    }
    var status := ParseStatus(buf);
    if status.None? {
      result := Failed(Invalid);
    } else if status.value != 200 {
      result := Failed(Status(status.value));
    } else {
      result := Connected;
    }
  }

  /** The blank line is at the end and nowhere before. */
  predicate SoleEnd(head: seq<Byte>) {
    EndsHead(head) && forall n :: 0 <= n < |head| ==> !EndsHead(head[..n])
  }

  lemma {:induction false} FlatPrefix(chunks: seq<seq<Byte>>, k: nat)
    requires k <= |chunks|
    ensures Flat(chunks[..k]) <= Flat(chunks)
    ensures k < |chunks| && chunks[|chunks| - 1] != [] ==> |Flat(chunks[..k])| < |Flat(chunks)|
  {
    if k < |chunks| {
      var init := chunks[..|chunks| - 1];
      assert init[..k] == chunks[..k];
      FlatPrefix(init, k);
    } else {
      assert chunks[..k] == chunks;
    }
  }

  ghost predicate AllBytes(chunks: seq<seq<Byte>>) { forall i :: 0 <= i < |chunks| ==> chunks[i] != [] }

  /** Until read `k` completes the head, no read stops the loop but the limit. */
  lemma {:induction false} HeadAtBoundary(chunks: seq<seq<Byte>>, n: nat, k: nat)
    requires AllBytes(chunks) && n < k <= |chunks| && SoleEnd(Flat(chunks[..k]))
    ensures |Flat(chunks[..k - 1])| <= LIMIT ==> ReadHead(chunks, n) == Complete(Flat(chunks[..k]), k)
    ensures ReadHead(chunks, n).Complete? ==>
              ReadHead(chunks, n) == Complete(Flat(chunks[..k]), k) && (n < k - 1 ==> |Flat(chunks[..k - 1])| <= LIMIT)
    decreases k - n
  {
    if n + 1 < k {
      var head := Flat(chunks[..k]);
      assert chunks[..k][..n + 1] == chunks[..n + 1];
      FlatPrefix(chunks[..k], n + 1);
      assert head[..|Flat(chunks[..n + 1])|] == Flat(chunks[..n + 1]);
      assert chunks[..k - 1][..n + 1] == chunks[..n + 1];
      FlatPrefix(chunks[..k - 1], n + 1);
      HeadAtBoundary(chunks, n + 1, k);
    }
  }

  lemma {:induction false} CompleteIsFlat(chunks: seq<seq<Byte>>, n: nat)
    requires n <= |chunks| && ReadHead(chunks, n).Complete?
    ensures var h := ReadHead(chunks, n); n < h.used <= |chunks| && h.bytes == Flat(chunks[..h.used])
    decreases |chunks| - n
  {
    if !EndsHead(Flat(chunks[..n + 1])) {
      CompleteIsFlat(chunks, n + 1);
    }
  }

  /** A head is found, behind it whatever the stream holds, exactly when some read ends where the head ends
      and began within the limit. Otherwise tunnel data is taken for header, or the end is never seen. */
  lemma HeadFoundExactly(chunks: seq<seq<Byte>>, head: seq<Byte>)
    requires AllBytes(chunks) && SoleEnd(head)
    ensures (ReadHead(chunks, 0).Complete? && ReadHead(chunks, 0).bytes == head)
       <==> exists k :: 0 < k <= |chunks| && Flat(chunks[..k]) == head && |Flat(chunks[..k - 1])| <= LIMIT
  {
    hide ReadHead, SoleEnd, Flat;
    if k :| 0 < k <= |chunks| && Flat(chunks[..k]) == head && |Flat(chunks[..k - 1])| <= LIMIT {
      HeadAtBoundary(chunks, 0, k);
    }
    if ReadHead(chunks, 0).Complete? && ReadHead(chunks, 0).bytes == head {
      CompleteIsFlat(chunks, 0);
      var k := ReadHead(chunks, 0).used;
      HeadAtBoundary(chunks, 0, k);
      assert k == 1 ==> chunks[..k - 1] == [];
      EmptyFlat();
    }
  }

  /** "HTTP/1.1 200" and a blank line. */
  const ACCEPTED: seq<Byte> := PROTOCOL + [49, 32, 50, 48, 48, 13, 10, 13, 10]

  lemma FlatOne(chunk: seq<Byte>)
    ensures Flat([chunk]) == chunk
  {
    assert [chunk][..0] == [];
  }

  /** For every head, a byte of tunnel data in the read that completes it hides it. */
  lemma NextByteHidesHead(head: seq<Byte>, early: Byte)
    requires EndsHead(head)
    ensures ReadHead([head + [early]], 0) == if |head| < LIMIT then Eof else TooLarge
  {
    var s := head + [early];
    FlatOne(s);
    assert [s][..1] == [s];
    assert s[|s| - 4..][0] == s[|s| - 4] == head[|head| - 4..][1] == LF;
    assert !EndsHead(s);
  }

  /** This one is hidden by the byte in the same read and found when it comes in the next. */
  lemma TunnelDataHidesHead(early: Byte)
    ensures ReadHead([ACCEPTED + [early]], 0) == Eof
    ensures ReadHead([ACCEPTED, [early]], 0) == Complete(ACCEPTED, 1)
  {
    hide Flat;
    var chunks := [ACCEPTED, [early]];
    assert ACCEPTED[12..] == [CR, LF, CR, LF];
    NextByteHidesHead(ACCEPTED, early);
    FlatOne(ACCEPTED);
    assert chunks[..1] == [ACCEPTED];
  }

  lemma EmptyFlat()
    ensures Flat([]) == []
  {
  }

  /** For every split of a head of at most 65536 bytes, the outcome is that of the head. */
  lemma ChunkIndependence(chunks: seq<seq<Byte>>)
    requires AllBytes(chunks) && SoleEnd(Flat(chunks)) && |Flat(chunks)| <= LIMIT
    ensures ReadHead(chunks, 0) == Complete(Flat(chunks), |chunks|)
  {
    hide ReadHead;
    EmptyFlat();
    assert chunks != [];
    assert chunks[..|chunks|] == chunks;
    FlatPrefix(chunks, |chunks| - 1);
    HeadAtBoundary(chunks, 0, |chunks|);
  }
}
