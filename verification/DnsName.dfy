/** Domain names on the wire: labels and compression pointers (section 4.1.4 of RFC 1035). */
module DnsName {
  import opened Bytes

  const MAX_JUMPS: nat := 10

  const DOT: Byte := 46

  /** The labels met while walking a name, and the offset just past its in-place part. */
  datatype Walk = Walk(labels: seq<Text>, end: nat)

  /** Two top bits set: `b & 0xC0 == 0xC0`. */
  predicate IsPointer(b: Byte) { b >= 0xC0 }

  /** `((b & 0x3F) << 8) | b2`. */
  function PointerTarget(b: Byte, b2: Byte): nat { (b % 64) * 256 + b2 }

  predicate IsLabel(l: Text) { 1 <= |l| < 0xC0 && Utf8(l) }

  predicate AreLabels(labels: seq<Text>) { forall i :: 0 <= i < |labels| ==> IsLabel(labels[i]) }

  /** What walking the name at `pos` finds, following at most `jumps` more pointers. */
  function Visit(msg: seq<Byte>, pos: nat, jumps: nat): (w: Option<Walk>)
    ensures w.Some? ==> pos < w.value.end <= |msg|
    decreases jumps, |msg| - pos
  {
    if pos >= |msg| then None
    else if msg[pos] == 0 then Some(Walk([], pos + 1))
    else if IsPointer(msg[pos]) then
      if pos + 1 >= |msg| || jumps == 0 then None
      else
        match Visit(msg, PointerTarget(msg[pos], msg[pos + 1]), jumps - 1)
        case None => None
        case Some(rest) => Some(Walk(rest.labels, pos + 2))
    else
      var next := pos + 1 + msg[pos];
      if next > |msg| || !Utf8(msg[pos + 1..next]) then None
      else
        match Visit(msg, next, jumps)
        case None => None
        case Some(rest) => Some(Walk([msg[pos + 1..next]] + rest.labels, rest.end))
  }

  /** The dotted form of a list of labels. */
  function DotJoin(labels: seq<Text>): Text {
    if labels == [] then []
    else if |labels| == 1 then labels[0]
    else labels[0] + [DOT] + DotJoin(labels[1..])
  }

  lemma {:induction false} VisitFindsLabels(msg: seq<Byte>, pos: nat, jumps: nat)
    requires Visit(msg, pos, jumps).Some?
    ensures AreLabels(Visit(msg, pos, jumps).value.labels)
    decreases jumps, |msg| - pos
  {
    if msg[pos] == 0 {
    } else if IsPointer(msg[pos]) {
      VisitFindsLabels(msg, PointerTarget(msg[pos], msg[pos + 1]), jumps - 1);
    } else {
      VisitFindsLabels(msg, pos + 1 + msg[pos], jumps);
    }
  }

  lemma {:induction false} DotJoinSnoc(labels: seq<Text>, last: Text)
    ensures DotJoin(labels + [last]) == if labels == [] then last else DotJoin(labels) + [DOT] + last
  {
    if |labels| == 0 {
      assert labels + [last] == [last];
    } else {
      DotJoinSnoc(labels[1..], last);
      assert (labels + [last])[1..] == labels[1..] + [last];
    }
  }

  /** The walk from `offset` in terms of the walk that is left at `pos`: labels `seen` come first,
      and once a pointer was followed the end is the offset recorded at the first pointer. */
  ghost predicate Resumes(msg: seq<Byte>, offset: nat, seen: seq<Text>, jumpedEnd: Option<nat>, pos: nat, left: nat) {
    var rest := Visit(msg, pos, left);
    Visit(msg, offset, MAX_JUMPS)
    == if rest.None? then None
       else Some(Walk(seen + rest.value.labels, if jumpedEnd.Some? then jumpedEnd.value else rest.value.end))
  }

  lemma ResumesAtStart(msg: seq<Byte>, offset: nat)
    ensures Resumes(msg, offset, [], None, offset, MAX_JUMPS)
  {
    var all := Visit(msg, offset, MAX_JUMPS);
    assert all.Some? ==> [] + all.value.labels == all.value.labels;
  }

  lemma ResumesPastPointer(msg: seq<Byte>, offset: nat, seen: seq<Text>, jumpedEnd: Option<nat>, pos: nat, left: nat)
    requires Resumes(msg, offset, seen, jumpedEnd, pos, left)
    requires pos + 1 < |msg| && IsPointer(msg[pos])
    ensures if left == 0 then Visit(msg, offset, MAX_JUMPS) == None
            else Resumes(msg, offset, seen, if jumpedEnd.Some? then jumpedEnd else Some(pos + 2),
                         PointerTarget(msg[pos], msg[pos + 1]), left - 1)
  {
  }

  lemma ResumesPastLabel(msg: seq<Byte>, offset: nat, seen: seq<Text>, jumpedEnd: Option<nat>, pos: nat, left: nat)
    requires Resumes(msg, offset, seen, jumpedEnd, pos, left)
    requires pos < |msg| && msg[pos] != 0 && !IsPointer(msg[pos])
    ensures var next := pos + 1 + msg[pos];
            if next > |msg| || !Utf8(msg[pos + 1..next]) then Visit(msg, offset, MAX_JUMPS) == None
            else Resumes(msg, offset, seen + [msg[pos + 1..next]], jumpedEnd, next, left)
  {
    var next := pos + 1 + msg[pos];
    if next <= |msg| && Utf8(msg[pos + 1..next]) && Visit(msg, next, left).Some? {
      var part, labels := msg[pos + 1..next], Visit(msg, next, left).value.labels;
      assert seen + ([part] + labels) == (seen + [part]) + labels;
    }
  }

  lemma ResumesToEnd(msg: seq<Byte>, offset: nat, seen: seq<Text>, jumpedEnd: Option<nat>, pos: nat, left: nat)
    requires Resumes(msg, offset, seen, jumpedEnd, pos, left)
    ensures pos >= |msg| || (IsPointer(msg[pos]) && pos + 1 >= |msg|) ==> Visit(msg, offset, MAX_JUMPS) == None
    ensures pos < |msg| && msg[pos] == 0
            ==> Visit(msg, offset, MAX_JUMPS)
                == Some(Walk(seen, if jumpedEnd.Some? then jumpedEnd.value else pos + 1))
  {
    assert seen + [] == seen;
  }

  lemma DotJoinNone()
    ensures DotJoin([]) == []
  {
  }

  /** `out` with a further label, after a dot unless it is the first. */
  function Push(out: Text, part: Text): Text {
    (if out != [] then out + [DOT] else out) + part
  }

  /** Pushing a label on the text already built is appending it to the list of labels. */
  lemma DotJoinPush(labels: seq<Text>, part: Text)
    requires [] !in labels
    ensures DotJoin(labels + [part]) == Push(DotJoin(labels), part)
  {
    DotJoinSnoc(labels, part);
    if labels == [] {
      assert DotJoin(labels) + part == part;
    }
  }

  method ParseName(msg: seq<Byte>, offset: nat) returns (name: Option<Text>, next: nat)
    ensures match Visit(msg, offset, MAX_JUMPS)
            case None => name == None && next == offset
            case Some(w) => name == Some(DotJoin(w.labels)) && next == w.end
  {
    hide Visit, Resumes, DotJoin, Utf8, Push;
    var pos: nat, out: Text, jumps: nat := offset, [], 0;
    var jumpedEnd: Option<nat> := None;
    ghost var seen: seq<Text> := [];
    ResumesAtStart(msg, offset);
    DotJoinNone();
    while true
      invariant jumps <= MAX_JUMPS && [] !in seen && out == DotJoin(seen)
      invariant Resumes(msg, offset, seen, jumpedEnd, pos, MAX_JUMPS - jumps)
      decreases MAX_JUMPS - jumps, |msg| - pos
    {
      ResumesToEnd(msg, offset, seen, jumpedEnd, pos, MAX_JUMPS - jumps);
      if pos >= |msg| {
        return None, offset;
      }
      var b := msg[pos];
      if b == 0 {
        return Some(out), if jumpedEnd.None? then pos + 1 else jumpedEnd.value;
      }
      if IsPointer(b) {
        if pos + 1 >= |msg| {
          return None, offset;
        }
        ResumesPastPointer(msg, offset, seen, jumpedEnd, pos, MAX_JUMPS - jumps);
        var b2 := msg[pos + 1];
        if jumpedEnd.None? {
          jumpedEnd := Some(pos + 2);
        }
        pos := PointerTarget(b, b2);
        jumps := jumps + 1;
        if jumps > MAX_JUMPS {
          return None, offset;
        }
        continue;
      }
      ResumesPastLabel(msg, offset, seen, jumpedEnd, pos, MAX_JUMPS - jumps);
      var labelLen := b;
      pos := pos + 1;
      if pos + labelLen > |msg| {
        return None, offset;
      }
      var part := msg[pos..pos + labelLen];
      if !Utf8(part) {
        return None, offset;
      }
      DotJoinPush(seen, part);
      out := Push(out, part);
      seen := seen + [part];
      pos := pos + labelLen;
    }
  }

  // ---- What a parsed name is ----

  function WireLength(labels: seq<Text>): nat {
    if labels == [] then 0 else 1 + |labels[0]| + WireLength(labels[1..])
  }

  lemma {:induction false} DotJoinLength(labels: seq<Text>)
    ensures |DotJoin(labels)| <= WireLength(labels)
  {
    if |labels| > 1 {
      DotJoinLength(labels[1..]);
    } else if |labels| == 1 {
      assert WireLength(labels[1..]) == 0;
    }
  }

  /** Between two jumps the walk only moves forward, so each jump buys one message length. */
  lemma {:induction false} VisitBounded(msg: seq<Byte>, pos: nat, jumps: nat)
    requires Visit(msg, pos, jumps).Some?
    ensures WireLength(Visit(msg, pos, jumps).value.labels) <= |msg| - pos + jumps * |msg|
    decreases jumps, |msg| - pos
  {
    if msg[pos] == 0 {
      assert jumps * |msg| >= 0;
    } else if IsPointer(msg[pos]) {
      VisitBounded(msg, PointerTarget(msg[pos], msg[pos + 1]), jumps - 1);
      assert jumps * |msg| == (jumps - 1) * |msg| + |msg|;
    } else {
      var next := pos + 1 + msg[pos];
      VisitBounded(msg, next, jumps);
      var labels := Visit(msg, pos, jumps).value.labels;
      assert labels[1..] == Visit(msg, next, jumps).value.labels;
    }
  }

  /** A parsed name is never longer than eleven times the message. */
  lemma NameLengthBounded(msg: seq<Byte>, offset: nat)
    requires Visit(msg, offset, MAX_JUMPS).Some?
    ensures |DotJoin(Visit(msg, offset, MAX_JUMPS).value.labels)| <= 11 * |msg|
  {
    VisitBounded(msg, offset, MAX_JUMPS);
    DotJoinLength(Visit(msg, offset, MAX_JUMPS).value.labels);
  }

  /** The name handed out is a valid string, as `String` demands. */
  lemma {:induction false} DotJoinIsUtf8(labels: seq<Text>)
    requires AreLabels(labels)
    ensures Utf8(DotJoin(labels))
  {
    if |labels| > 1 {
      DotJoinIsUtf8(labels[1..]);
      assert [DOT][1..] == [];
      assert Utf8([DOT]);
      Utf8Concat(labels[0], [DOT]);
      Utf8Concat(labels[0] + [DOT], DotJoin(labels[1..]));
    }
  }

  /** What a walk found in a message it finds in every extension of it. */
  lemma {:induction false} VisitExtends(msg: seq<Byte>, more: seq<Byte>, pos: nat, jumps: nat)
    requires Visit(msg, pos, jumps).Some?
    ensures Visit(msg + more, pos, jumps) == Visit(msg, pos, jumps)
    decreases jumps, |msg| - pos
  {
    var whole := msg + more;
    assert whole[pos] == msg[pos];
    if msg[pos] == 0 {
    } else if IsPointer(msg[pos]) {
      assert whole[pos + 1] == msg[pos + 1];
      VisitExtends(msg, more, PointerTarget(msg[pos], msg[pos + 1]), jumps - 1);
    } else {
      var next := pos + 1 + msg[pos];
      assert whole[pos + 1..next] == msg[pos + 1..next];
      VisitExtends(msg, more, next, jumps);
    }
  }

  /** More jumps allowed never change a walk that succeeded. */
  lemma {:induction false} VisitMoreJumps(msg: seq<Byte>, pos: nat, jumps: nat, jumps': nat)
    requires Visit(msg, pos, jumps).Some? && jumps <= jumps'
    ensures Visit(msg, pos, jumps') == Visit(msg, pos, jumps)
    decreases jumps, |msg| - pos
  {
    if msg[pos] == 0 {
    } else if IsPointer(msg[pos]) {
      VisitMoreJumps(msg, PointerTarget(msg[pos], msg[pos + 1]), jumps - 1, jumps' - 1);
    } else {
      VisitMoreJumps(msg, pos + 1 + msg[pos], jumps, jumps');
    }
  }

  /** The end offset is decided by the in-place bytes alone, whatever a pointer leads to. */
  lemma {:induction false} EndIsInPlace(msg: seq<Byte>, msg': seq<Byte>, pos: nat, jumps: nat, jumps': nat)
    requires Visit(msg, pos, jumps).Some? && Visit(msg', pos, jumps').Some?
    requires var end := Visit(msg, pos, jumps).value.end; end <= |msg'| && msg[pos..end] == msg'[pos..end]
    ensures Visit(msg', pos, jumps').value.end == Visit(msg, pos, jumps).value.end
    decreases |msg| - pos
  {
    var end := Visit(msg, pos, jumps).value.end;
    assert msg[pos] == msg[pos..end][0] == msg'[pos..end][0] == msg'[pos];
    if msg[pos] != 0 && !IsPointer(msg[pos]) {
      var next := pos + 1 + msg[pos];
      assert msg[next..end] == msg[pos..end][next - pos..] == msg'[pos..end][next - pos..] == msg'[next..end];
      EndIsInPlace(msg, msg', next, jumps, jumps');
    }
  }
}
