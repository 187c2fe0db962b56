/** Incremental framing of a provider response: bounded chunks, CR / LF / CRLF lines, and
    NDJSON or server-sent-event records on top.

    The three stages are asynchronous generators.  Each is modelled by what it hands to
    its consumer: the sequence of values it yields and how it ends.  A consumer that
    raises stops pulling, so the value list it has produced by then is its own result and
    nothing a producer would have done later is observable. */
module StreamFraming {
  import opened Wrappers

  type byte = x: int | 0 <= x < 256

  const MAX_PROVIDER_STREAM_BYTES: nat := 64 * 1024 * 1024
  const MAX_STREAM_RECORD_BYTES: nat := 10 * 1024 * 1024
  const CR: byte := 13
  const LF: byte := 10

  datatype Reason = InvalidResponse | ResponseLimit | TransportError

  /** How a generator ends: normally, or by raising ResponseStreamError. */
  datatype Status = Complete | Failed(reason: Reason)

  /** What the transport delivers: chunks, then end of body or a transport failure. */
  datatype Stream = Stream(chunks: seq<seq<byte>>, failed: bool)
  {
    function End(): Status { if failed then Failed(TransportError) else Complete }
  }

  datatype Line = Line(content: seq<byte>, terminated: bool)

  datatype Framed = Framed(lines: seq<Line>, status: Status)

  datatype Delivery = Delivery(records: seq<string>, status: Status)

  datatype Framing = Ndjson | Sse

  type Decoder = seq<byte> -> Option<string>

  function Flatten(chunks: seq<seq<byte>>): seq<byte> {
    if chunks == [] then [] else chunks[0] + Flatten(chunks[1..])
  }

  lemma {:induction false} FlattenSplit(a: seq<seq<byte>>, b: seq<seq<byte>>)
    ensures Flatten(a + b) == Flatten(a) + Flatten(b)
  {
    if a == [] {
      assert a + b == b;
    } else {
      var ab := a + b;
      assert ab[0] == a[0] && ab[1..] == a[1..] + b;
      FlattenSplit(a[1..], b);
      Together(a[0], Flatten(a[1..]), Flatten(b));
    }
  }

  lemma Together(x: seq<byte>, y: seq<byte>, z: seq<byte>)
    ensures x + (y + z) == x + y + z
  {
  }

  lemma FlattenStep(chunks: seq<seq<byte>>, i: nat)
    requires i < |chunks|
    ensures Flatten(chunks[..i + 1]) == Flatten(chunks[..i]) + chunks[i]
    ensures Flatten(chunks[i..]) == chunks[i] + Flatten(chunks[i + 1..])
  {
    FlattenSplit(chunks[..i], [chunks[i]]);
    assert chunks[..i + 1] == chunks[..i] + [chunks[i]];
    assert Flatten([chunks[i]]) == chunks[i];
  }

  // ----- one-shot reference: what the bytes of a whole response mean -----

  predicate IsBreak(b: byte) { b == CR || b == LF }

  /** Position of the first CR or LF, or the length when there is none. */
  function FirstBreak(b: seq<byte>): (k: nat)
    ensures k <= |b|
    ensures forall i | 0 <= i < k :: !IsBreak(b[i])
    ensures k < |b| ==> IsBreak(b[k])
  {
    if b == [] || IsBreak(b[0]) then 0 else 1 + FirstBreak(b[1..])
  }

  /** Width of the line ending at k: CRLF is one ending. */
  function EndingWidth(b: seq<byte>, k: nat): nat
    requires k < |b|
  {
    if b[k] == CR && k + 1 < |b| && b[k + 1] == LF then 2 else 1
  }

  function AddLine(line: Line, rest: Framed): Framed {
    Framed([line] + rest.lines, rest.status)
  }

  /** Splits a whole body at once.  A final CR ends a line only once the body is known
      to have ended, and an over-long line is refused whether or not it is terminated. */
  function SplitLines(b: seq<byte>, end: Status): Framed
    decreases |b|
  {
    var k := FirstBreak(b);
    if k > MAX_STREAM_RECORD_BYTES then Framed([], Failed(ResponseLimit))
    else if k == |b| || (b[k] == CR && k + 1 == |b|) then
      if end.Failed? || b == [] then Framed([], end)
      else Framed([Line(b[..k], k < |b|)], end)
    else AddLine(Line(b[..k], true), SplitLines(b[k + EndingWidth(b, k)..], end))
  }

  function Clip(b: seq<byte>, limit: nat): seq<byte> {
    if |b| <= limit then b else b[..limit]
  }

  function BoundedEnd(size: nat, limit: nat, end: Status): Status {
    if size > limit then Failed(ResponseLimit) else end
  }

  /** The leading run of non-blank terminated lines: one event's lines. */
  function RunLength(lines: seq<Line>): (m: nat)
    ensures m <= |lines|
    ensures forall i | 0 <= i < m :: lines[i].terminated && lines[i].content != []
    ensures m < |lines| ==> !lines[m].terminated || lines[m].content == []
  {
    if lines == [] || !lines[0].terminated || lines[0].content == [] then 0
    else 1 + RunLength(lines[1..])
  }

  /** Lines joined by LF. */
  function Joined(lines: seq<Line>): seq<byte> {
    if lines == [] then []
    else if |lines| == 1 then lines[0].content
    else Joined(lines[..|lines| - 1]) + [LF] + lines[|lines| - 1].content
  }

  function AddRecord(record: string, rest: Delivery): Delivery {
    Delivery([record] + rest.records, rest.status)
  }

  /** Groups a whole list of lines into events at once. */
  function GroupEvents(lines: seq<Line>, end: Status, decode: Decoder): Delivery
    decreases |lines|
  {
    var m := RunLength(lines);
    if |Joined(lines[..m])| > MAX_STREAM_RECORD_BYTES then Delivery([], Failed(ResponseLimit))
    else if m == |lines| then
      Delivery([], if end == Complete && m > 0 then Failed(InvalidResponse) else end)
    else if !lines[m].terminated then Delivery([], Failed(InvalidResponse))
    else if m == 0 then GroupEvents(lines[1..], end, decode)
    else match decode(Joined(lines[..m]))
      case None => Delivery([], Failed(InvalidResponse))
      case Some(text) => AddRecord(text, GroupEvents(lines[m + 1..], end, decode))
  }

  function DecodeEach(lines: seq<Line>, end: Status, decode: Decoder): Delivery {
    if lines == [] then Delivery([], end)
    else match decode(lines[0].content)
      case None => Delivery([], Failed(InvalidResponse))
      case Some(text) => AddRecord(text, DecodeEach(lines[1..], end, decode))
  }

  /** The meaning of a response body, independent of how it was cut into chunks. */
  function OneShot(body: seq<byte>, end: Status, framing: Framing, decode: Decoder): Delivery {
    var framed := SplitLines(Clip(body, MAX_PROVIDER_STREAM_BYTES),
                             BoundedEnd(|body|, MAX_PROVIDER_STREAM_BYTES, end));
    if framing.Ndjson? then DecodeEach(framed.lines, framed.status, decode)
    else GroupEvents(framed.lines, framed.status, decode)
  }

  // ----- the incremental code -----

  method BoundedResponseChunks(content: Stream, byteLimit: nat) returns (chunks: seq<seq<byte>>, status: Status)
    ensures Flatten(chunks) == Clip(Flatten(content.chunks), byteLimit)
    ensures status == BoundedEnd(|Flatten(content.chunks)|, byteLimit, content.End())
    ensures forall chunk | chunk in chunks :: chunk != []
  {
    var bytesRead := 0;
    chunks := [];
    var i := 0;
    while i < |content.chunks|
      invariant 0 <= i <= |content.chunks|
      invariant Flatten(chunks) == Flatten(content.chunks[..i])
      invariant bytesRead == |Flatten(chunks)| <= byteLimit
      invariant forall chunk | chunk in chunks :: chunk != []
    {
      var chunk := content.chunks[i];
      var remaining := byteLimit - bytesRead;
      var accepted := if |chunk| <= remaining then chunk else chunk[..remaining];
      bytesRead := bytesRead + |accepted|;
      ghost var before := chunks;
      if accepted != [] {
        chunks := chunks + [accepted];
        FlattenSplit(before, [accepted]);
        assert Flatten([accepted]) == accepted;
      }
      FlattenStep(content.chunks, i);
      FlattenSplit(content.chunks[..i + 1], content.chunks[i + 1..]);
      assert content.chunks == content.chunks[..i + 1] + content.chunks[i + 1..];
      if |accepted| != |chunk| {
        return chunks, Failed(ResponseLimit);
      }
      i := i + 1;
    }
    assert content.chunks[..i] == content.chunks;
    return chunks, if content.failed then Failed(TransportError) else Complete;
  }

  /** Adding bytes behind a buffer cannot move a break that is already in it. */
  lemma {:induction false} FirstBreakOfExtension(a: seq<byte>, b: seq<byte>)
    ensures FirstBreak(a) < |a| ==> FirstBreak(a + b) == FirstBreak(a)
    ensures FirstBreak(a) == |a| ==> FirstBreak(a + b) == |a| + FirstBreak(b)
  {
    if a == [] {
      assert a + b == b;
    } else {
      FirstBreakOfExtension(a[1..], b);
      assert (a + b)[1..] == a[1..] + b;
    }
  }

  /** Bytes without a line ending. */
  predicate Plain(b: seq<byte>) {
    forall i | 0 <= i < |b| :: !IsBreak(b[i])
  }

  lemma PlainThenBreak(a: seq<byte>, b: seq<byte>)
    requires Plain(a)
    ensures FirstBreak(a + b) == |a| + FirstBreak(b)
  {
    assert FirstBreak(a) == |a|;
    FirstBreakOfExtension(a, b);
  }

  /** A line with its ending in front of anything else is split off first. */
  lemma SplitHead(content: seq<byte>, ending: seq<byte>, rest: seq<byte>, end: Status)
    requires Plain(content)
    requires ending == [LF] || ending == [CR, LF] || (ending == [CR] && rest != [] && rest[0] != LF)
    ensures SplitLines(content + ending + rest, end) ==
              if |content| > MAX_STREAM_RECORD_BYTES then Framed([], Failed(ResponseLimit))
              else AddLine(Line(content, true), SplitLines(rest, end))
  {
    var b := content + ending + rest;
    var k := |content|;
    assert b == content + (ending + rest);
    PlainThenBreak(content, ending + rest);
    assert FirstBreak(ending + rest) == 0;
    assert b[..k] == content && b[k + |ending|..] == rest;
    assert b[k] == ending[0];
    assert EndingWidth(b, k) == |ending|;
  }

  /** Emitting a line that is complete inside the buffer is what the one-shot splitter
      does with that buffer and everything still to come. */
  lemma SplitEmits(buffer: seq<byte>, k: nat, width: nat, rest: seq<byte>, end: Status)
    requires k == FirstBreak(buffer) < |buffer|
    requires !(buffer[k] == CR && k + 1 == |buffer|)
    requires width == EndingWidth(buffer, k)
    ensures SplitLines(buffer + rest, end) ==
              if k > MAX_STREAM_RECORD_BYTES then Framed([], Failed(ResponseLimit))
              else AddLine(Line(buffer[..k], true), SplitLines(buffer[k + width..] + rest, end))
  {
    var content, ending, after := buffer[..k], buffer[k..k + width], buffer[k + width..] + rest;
    assert buffer + rest == content + ending + after;
    SplitHead(content, ending, after, end);
  }

  /** Bytes of the buffer that cannot be part of a line ending. */
  function PendingBytes(buffer: seq<byte>): nat {
    if buffer != [] && buffer[|buffer| - 1] == CR then |buffer| - 1 else |buffer|
  }

  /** No complete line is left in the buffer: at most a final CR waits for its LF. */
  ghost predicate Drained(buffer: seq<byte>) {
    FirstBreak(buffer) >= PendingBytes(buffer)
  }

  ghost function Prepend(lines: seq<Line>, rest: Framed): Framed {
    Framed(lines + rest.lines, rest.status)
  }

  lemma SplitOverlong(buffer: seq<byte>, rest: seq<byte>, end: Status)
    requires Drained(buffer) && PendingBytes(buffer) > MAX_STREAM_RECORD_BYTES
    ensures SplitLines(buffer + rest, end) == Framed([], Failed(ResponseLimit))
  {
    FirstBreakOfExtension(buffer, rest);
  }

  lemma PrependAdd(lines: seq<Line>, line: Line, rest: Framed)
    ensures Prepend(lines, AddLine(line, rest)) == Prepend(lines + [line], rest)
  {}

  /** The inner loop: yields every line that is complete inside the buffer and keeps the
      rest of it.  Nothing it does depends on the bytes still to come. */
  method DrainLines(pending: seq<byte>, ghost rest: seq<byte>, ghost end: Status)
    returns (lines: seq<Line>, kept: seq<byte>, overlong: bool)
    ensures SplitLines(pending + rest, end) ==
              Prepend(lines, if overlong then Framed([], Failed(ResponseLimit)) else SplitLines(kept + rest, end))
    ensures !overlong ==> Drained(kept)
  {
    lines, kept := [], pending;
    while true
      invariant SplitLines(pending + rest, end) == Prepend(lines, SplitLines(kept + rest, end))
      decreases |kept|
    {
      var separator := FirstBreak(kept);
      if separator == |kept| || (kept[separator] == CR && separator + 1 == |kept|) {
        return lines, kept, false;
      }
      var terminatorBytes := if kept[separator] == CR && kept[separator + 1] == LF then 2 else 1;
      var line := kept[..separator];
      SplitEmits(kept, separator, terminatorBytes, rest, end);
      if |line| > MAX_STREAM_RECORD_BYTES {
        return lines, kept, true;
      }
      kept := kept[separator + terminatorBytes..];
      PrependAdd(lines, Line(line, true), SplitLines(kept + rest, end));
      lines := lines + [Line(line, true)];
    }
  }

  lemma PrependAll(lines: seq<Line>, more: seq<Line>, rest: Framed)
    ensures Prepend(lines, Prepend(more, rest)) == Prepend(lines + more, rest)
  {}

  lemma FlattenHead(pending: seq<byte>, todo: seq<seq<byte>>)
    requires todo != []
    ensures pending + Flatten(todo) == (pending + todo[0]) + Flatten(todo[1..])
  {}

  /** What the end of the body makes of the bytes still in the buffer. */
  method LastLine(pending: seq<byte>, end: Status) returns (lines: seq<Line>)
    requires Drained(pending) && PendingBytes(pending) <= MAX_STREAM_RECORD_BYTES
    ensures Framed(lines, end) == SplitLines(pending, end)
  {
    if end.Failed? || pending == [] {
      lines := [];
    } else if pending[|pending| - 1] == CR {
      lines := [Line(pending[..|pending| - 1], true)];
    } else {
      assert pending[..|pending|] == pending;
      lines := [Line(pending, false)];
    }
  }

  method ByteLines(chunks: seq<seq<byte>>, end: Status) returns (lines: seq<Line>, status: Status)
    ensures Framed(lines, status) == SplitLines(Flatten(chunks), end)
  {
    hide SplitLines, FirstBreak;
    var pending: seq<byte> := [];
    var todo := chunks;
    lines := [];
    assert pending + Flatten(chunks) == Flatten(chunks);
    while todo != []
      invariant Drained(pending) && PendingBytes(pending) <= MAX_STREAM_RECORD_BYTES
      invariant SplitLines(Flatten(chunks), end) == Prepend(lines, SplitLines(pending + Flatten(todo), end))
    {
      ghost var rest := Flatten(todo[1..]);
      FlattenHead(pending, todo);
      var drained, kept, overlong := DrainLines(pending + todo[0], rest, end);
      PrependAll(lines, drained, SplitLines(kept + rest, end));
      lines := lines + drained;
      if overlong {
        return lines, Failed(ResponseLimit);
      }
      pending := kept;
      todo := todo[1..];
      if PendingBytes(pending) > MAX_STREAM_RECORD_BYTES {
        SplitOverlong(pending, rest, end);
        return lines, Failed(ResponseLimit);
      }
    }
    assert pending + Flatten([]) == pending;
    var last := LastLine(pending, end);
    return lines + last, end;
  }

  lemma {:induction false} RunOfPrefix(lines: seq<Line>, n: nat)
    requires n <= |lines|
    requires forall i | 0 <= i < n :: lines[i].terminated && lines[i].content != []
    ensures RunLength(lines) >= n
    ensures n < |lines| && (!lines[n].terminated || lines[n].content == []) ==> RunLength(lines) == n
  {
    if n > 0 {
      RunOfPrefix(lines[1..], n - 1);
    }
  }

  lemma {:induction false} JoinedGrows(lines: seq<Line>, n: nat)
    requires n <= |lines|
    ensures |Joined(lines[..n])| <= |Joined(lines)|
    decreases |lines|
  {
    if n < |lines| {
      JoinedGrows(lines[..|lines| - 1], n);
      assert lines[..|lines| - 1][..n] == lines[..n];
    } else {
      assert lines[..n] == lines;
    }
  }

  /** The lines of one event still being collected. */
  ghost predicate Run(run: seq<Line>) {
    forall i | 0 <= i < |run| :: run[i].terminated && run[i].content != []
  }

  /** What the grouper does with the collected lines once no more of them follow. */
  lemma GroupStep(run: seq<Line>, todo: seq<Line>, end: Status, decode: Decoder)
    requires Run(run) && |Joined(run)| <= MAX_STREAM_RECORD_BYTES
    requires todo != [] ==> !todo[0].terminated || todo[0].content == []
    ensures GroupEvents(run + todo, end, decode) ==
              if todo == [] then Delivery([], if end == Complete && run != [] then Failed(InvalidResponse) else end)
              else if !todo[0].terminated then Delivery([], Failed(InvalidResponse))
              else if run == [] then GroupEvents(todo[1..], end, decode)
              else match decode(Joined(run))
                case None => Delivery([], Failed(InvalidResponse))
                case Some(text) => AddRecord(text, GroupEvents(todo[1..], end, decode))
  {
    var event, n := run + todo, |run|;
    RunOfPrefix(event, n);
    assert event[..n] == run;
    assert todo != [] ==> event[n] == todo[0] && event[n + 1..] == todo[1..];
  }

  lemma GroupOverlong(run: seq<Line>, todo: seq<Line>, end: Status, decode: Decoder)
    requires Run(run) && |Joined(run)| > MAX_STREAM_RECORD_BYTES
    ensures GroupEvents(run + todo, end, decode) == Delivery([], Failed(ResponseLimit))
  {
    var event, n := run + todo, |run|;
    var m := RunLength(event);
    RunOfPrefix(event, n);
    JoinedGrows(event[..m], n);
    assert event[..m][..n] == run;
  }

  ghost function PrependRecords(records: seq<string>, rest: Delivery): Delivery {
    Delivery(records + rest.records, rest.status)
  }

  method Records(content: Stream, framing: Framing, decode: Decoder) returns (records: seq<string>, status: Status)
    ensures Delivery(records, status) == OneShot(Flatten(content.chunks), content.End(), framing, decode)
  {
    var chunks, chunkEnd := BoundedResponseChunks(content, MAX_PROVIDER_STREAM_BYTES);
    var lines, end := ByteLines(chunks, chunkEnd);
    if framing.Ndjson? {
      records, status := NdjsonRecords(lines, end, decode);
    } else {
      records, status := SseRecords(lines, end, decode);
    }
  }

  method NdjsonRecords(lines: seq<Line>, end: Status, decode: Decoder) returns (records: seq<string>, status: Status)
    ensures Delivery(records, status) == DecodeEach(lines, end, decode)
  {
    records := [];
    var i := 0;
    while i < |lines|
      invariant 0 <= i <= |lines|
      invariant DecodeEach(lines, end, decode) == PrependRecords(records, DecodeEach(lines[i..], end, decode))
    {
      match decode(lines[i].content)
      case None => return records, Failed(InvalidResponse);
      case Some(text) =>
        records := records + [text];
        i := i + 1;
    }
    return records, end;
  }

  /** One pass of the loop over lines: the record afterwards, what was yielded, and
      whether the generator raised. */
  method ConsumeLine(record: seq<byte>, line: Line, decode: Decoder)
    returns (next: seq<byte>, emitted: seq<string>, status: Status)
    ensures status == Failed(InvalidResponse) <==>
              !line.terminated || (line.content == [] && record != [] && decode(record).None?)
    ensures status == Failed(ResponseLimit) <==>
              line.terminated && line.content != [] && |Extended(record, line.content)| > MAX_STREAM_RECORD_BYTES
    ensures status != Failed(TransportError)
    ensures status == Complete && line.content == [] ==>
              next == [] && emitted == if record == [] then [] else [decode(record).value]
    ensures status == Complete && line.content != [] ==>
              next == Extended(record, line.content) && emitted == []
    ensures status != Complete ==> emitted == []
  {
    if !line.terminated {
      return record, [], Failed(InvalidResponse);
    }
    if line.content == [] {
      if record != [] {
        match decode(record)
        case None => return record, [], Failed(InvalidResponse);
        case Some(text) => return [], [text], Complete;
      }
      return record, [], Complete;
    }
    var addedBytes := |line.content| + (if record != [] then 1 else 0);
    if |record| + addedBytes > MAX_STREAM_RECORD_BYTES {
      return record, [], Failed(ResponseLimit);
    }
    next := record;
    if record != [] {
      next := next + [LF];
    }
    return next + line.content, [], Complete;
  }

  function Extended(record: seq<byte>, line: seq<byte>): seq<byte> {
    (if record == [] then [] else record + [LF]) + line
  }

  ghost function NextRun(run: seq<Line>, line: Line): seq<Line> {
    if line.content == [] then [] else run + [line]
  }

  /** A pass that yields nothing but a longer record leaves the meaning of the rest alone. */
  lemma RunGrows(run: seq<Line>, todo: seq<Line>)
    requires Run(run) && todo != [] && todo[0].terminated && todo[0].content != []
    ensures var grown := run + [todo[0]];
            && Run(grown) && Joined(grown) == Extended(Joined(run), todo[0].content)
            && grown + todo[1..] == run + todo
  {
    assert (run + [todo[0]])[..|run|] == run;
  }

  lemma {:induction false} RunJoins(run: seq<Line>)
    requires Run(run)
    ensures Joined(run) == [] <==> run == []
  {}

  /** What a successful pass does, seen from the one-shot grouper. */
  lemma PassIsSound(run: seq<Line>, todo: seq<Line>, end: Status, decode: Decoder)
    requires Run(run) && |Joined(run)| <= MAX_STREAM_RECORD_BYTES && todo != [] && todo[0].terminated
    requires todo[0].content == [] ==> run == [] || decode(Joined(run)).Some?
    ensures Run(NextRun(run, todo[0]))
    ensures GroupEvents(run + todo, end, decode) ==
              PrependRecords(if todo[0].content == [] && run != [] then [decode(Joined(run)).value] else [],
                             GroupEvents(NextRun(run, todo[0]) + todo[1..], end, decode))
  {
    if todo[0].content == [] {
      GroupStep(run, todo, end, decode);
      assert [] + todo[1..] == todo[1..];
    } else {
      RunGrows(run, todo);
    }
  }

  lemma PassFails(run: seq<Line>, todo: seq<Line>, end: Status, decode: Decoder, reason: Reason)
    requires Run(run) && |Joined(run)| <= MAX_STREAM_RECORD_BYTES && todo != []
    requires reason == InvalidResponse ==>
               !todo[0].terminated || (todo[0].content == [] && run != [] && decode(Joined(run)).None?)
    requires reason == ResponseLimit ==>
               && todo[0].terminated && todo[0].content != []
               && |Extended(Joined(run), todo[0].content)| > MAX_STREAM_RECORD_BYTES
    requires reason != TransportError
    ensures GroupEvents(run + todo, end, decode) == Delivery([], Failed(reason))
  {
    if reason == InvalidResponse {
      GroupStep(run, todo, end, decode);
    } else {
      RunGrows(run, todo);
      GroupOverlong(run + [todo[0]], todo[1..], end, decode);
    }
  }

  lemma PrependRecordsAll(records: seq<string>, more: seq<string>, rest: Delivery)
    ensures PrependRecords(records, PrependRecords(more, rest)) == PrependRecords(records + more, rest)
  {}

  method SseRecords(lines: seq<Line>, end: Status, decode: Decoder) returns (records: seq<string>, status: Status)
    ensures Delivery(records, status) == GroupEvents(lines, end, decode)
  {
    hide GroupEvents;
    records := [];
    var record: seq<byte> := [];
    var todo := lines;
    ghost var run: seq<Line> := [];  // the lines joined in record
    assert run + todo == lines;
    while todo != []
      invariant Run(run) && record == Joined(run) && |record| <= MAX_STREAM_RECORD_BYTES
      invariant GroupEvents(lines, end, decode) == PrependRecords(records, GroupEvents(run + todo, end, decode))
    {
      RunJoins(run);
      var next, emitted, failure := ConsumeLine(record, todo[0], decode);
      if failure.Failed? {
        PassFails(run, todo, end, decode, failure.reason);
        return records, failure;
      }
      PassIsSound(run, todo, end, decode);
      if todo[0].content != [] { RunGrows(run, todo); }
      run := NextRun(run, todo[0]);
      PrependRecordsAll(records, emitted, GroupEvents(run + todo[1..], end, decode));
      records, record, todo := records + emitted, next, todo[1..];
    }
    GroupStep(run, todo, end, decode);
    RunJoins(run);
    if end == Complete && record != [] {
      return records, Failed(InvalidResponse);
    }
    return records, end;
  }

  // ----- what the one-shot reference promises -----

  datatype Ending = EndsCr | EndsLf | EndsCrLf
  {
    function Bytes(): seq<byte> {
      match this
      case EndsCr => [CR]
      case EndsLf => [LF]
      case EndsCrLf => [CR, LF]
    }
  }

  datatype Written = Written(content: seq<byte>, ending: Ending)

  /** Bytes of a list of lines, each with its own ending, and an unterminated tail. */
  function Render(lines: seq<Written>, tail: seq<byte>): seq<byte> {
    if lines == [] then tail
    else lines[0].content + lines[0].ending.Bytes() + Render(lines[1..], tail)
  }

  /** A CR ending directly followed by an LF reads as one CRLF, so it is not written. */
  predicate Unambiguous(lines: seq<Written>) {
    forall i | 0 <= i < |lines| - 1 ::
      lines[i].ending.EndsCr? ==> !(lines[i + 1].content == [] && lines[i + 1].ending.EndsLf?)
  }

  predicate Fits(lines: seq<Written>, tail: seq<byte>) {
    && |tail| <= MAX_STREAM_RECORD_BYTES && Plain(tail)
    && forall i | 0 <= i < |lines| :: Plain(lines[i].content) && |lines[i].content| <= MAX_STREAM_RECORD_BYTES
  }

  function AsLines(lines: seq<Written>, tail: seq<byte>): seq<Line> {
    seq(|lines|, i requires 0 <= i < |lines| => Line(lines[i].content, true))
    + (if tail == [] then [] else [Line(tail, false)])
  }

  /** The first written line is split off, unless it is a final CR waiting for the end. */
  lemma SplitFirstWritten(lines: seq<Written>, tail: seq<byte>)
    requires lines != [] && Fits(lines, tail) && Unambiguous(lines)
    ensures var rest := Render(lines[1..], tail);
            SplitLines(Render(lines, tail), Complete) ==
              if rest == [] && lines[0].ending.EndsCr? then Framed([Line(lines[0].content, true)], Complete)
              else AddLine(Line(lines[0].content, true), SplitLines(rest, Complete))
  {
    var content, ending, rest := lines[0].content, lines[0].ending.Bytes(), Render(lines[1..], tail);
    if rest == [] && lines[0].ending.EndsCr? {
      PlainThenBreak(content, [CR]);
      assert Render(lines, tail) == content + [CR];
      assert (content + [CR])[..|content|] == content;
    } else {
      if lines[0].ending.EndsCr? { RestNotLf(lines, tail); }
      SplitHead(content, ending, rest, Complete);
    }
  }

  lemma RestNotLf(lines: seq<Written>, tail: seq<byte>)
    requires lines != [] && lines[0].ending.EndsCr? && Fits(lines, tail) && Unambiguous(lines)
    requires Render(lines[1..], tail) != []
    ensures Render(lines[1..], tail)[0] != LF
  {
    if |lines| > 1 {
      var next := lines[1];
      assert lines[1..][0] == next;
      assert Render(lines[1..], tail) == next.content + next.ending.Bytes() + Render(lines[1..][1..], tail);
    }
  }

  lemma AsLinesStep(lines: seq<Written>, tail: seq<byte>)
    requires lines != []
    ensures AsLines(lines, tail) == [Line(lines[0].content, true)] + AsLines(lines[1..], tail)
  {}

  lemma RenderLength(lines: seq<Written>, tail: seq<byte>)
    ensures |Render(lines, tail)| >= if lines == [] then |tail| else 1
  {}

  /** Splitting undoes writing, whatever mixture of endings was used. */
  lemma {:induction false} SplitUndoesRender(lines: seq<Written>, tail: seq<byte>)
    requires Fits(lines, tail) && Unambiguous(lines)
    ensures SplitLines(Render(lines, tail), Complete) == Framed(AsLines(lines, tail), Complete)
  {
    if lines == [] {
      assert FirstBreak(tail) == |tail|;
      assert tail[..|tail|] == tail;
    } else {
      SplitFirstWritten(lines, tail);
      AsLinesStep(lines, tail);
      RenderLength(lines[1..], tail);
      SplitUndoesRender(lines[1..], tail);
    }
  }

  function EndingAt(b: seq<byte>, k: nat): (ending: Ending)
    requires k < |b| && IsBreak(b[k])
    ensures ending.Bytes() == b[k..k + EndingWidth(b, k)]
  {
    if EndingWidth(b, k) == 2 then EndsCrLf else if b[k] == CR then EndsCr else EndsLf
  }

  /** The lines a body was written from. */
  function Recover(b: seq<byte>): (seq<Written>, seq<byte>)
    decreases |b|
  {
    var k := FirstBreak(b);
    if k == |b| then ([], b)
    else
      var w := EndingWidth(b, k);
      var rest := Recover(b[k + w..]);
      ([Written(b[..k], EndingAt(b, k))] + rest.0, rest.1)
  }

  lemma RecoverStep(b: seq<byte>, k: nat, rest: seq<byte>)
    requires k == FirstBreak(b) < |b| && rest == b[k + EndingWidth(b, k)..]
    ensures var lines := Recover(b).0;
            && lines != [] && lines[0] == Written(b[..k], EndingAt(b, k))
            && lines[1..] == Recover(rest).0 && Recover(b).1 == Recover(rest).1
  {
    var first := Written(b[..k], EndingAt(b, k));
    assert Recover(b) == ([first] + Recover(rest).0, Recover(rest).1);
    assert ([first] + Recover(rest).0)[1..] == Recover(rest).0;
  }

  lemma InThree(b: seq<byte>, i: nat, j: nat)
    requires i <= j <= |b|
    ensures b == b[..i] + b[i..j] + b[j..]
  {}

  lemma RenderStep(lines: seq<Written>, tail: seq<byte>, first: Written, rest: seq<Written>)
    requires lines != [] && lines[0] == first && lines[1..] == rest
    ensures Render(lines, tail) == first.content + first.ending.Bytes() + Render(rest, tail)
  {}

  /** Writing the recovered lines gives the body back, byte for byte. */
  lemma {:induction false} RecoverRenders(b: seq<byte>)
    ensures Render(Recover(b).0, Recover(b).1) == b
    decreases |b|
  {
    var k := FirstBreak(b);
    if k < |b| {
      var w := EndingWidth(b, k);
      var rest := b[k + w..];
      RecoverStep(b, k, rest);
      RecoverRenders(rest);
      RenderStep(Recover(b).0, Recover(b).1, Written(b[..k], EndingAt(b, k)), Recover(rest).0);
      InThree(b, k, k + w);
    }
  }

  lemma {:induction false} RecoverUnambiguous(b: seq<byte>)
    ensures Unambiguous(Recover(b).0)
    decreases |b|
  {
    var k := FirstBreak(b);
    if k < |b| {
      var w := EndingWidth(b, k);
      var rest := b[k + w..];
      RecoverStep(b, k, rest);
      RecoverUnambiguous(rest);
      var next := FirstBreak(rest);
      if next < |rest| {
        RecoverStep(rest, next, rest[next + EndingWidth(rest, next)..]);
      }
      forall i | 0 <= i < |Recover(b).0| - 1 && Recover(b).0[i].ending.EndsCr?
        ensures !(Recover(b).0[i + 1].content == [] && Recover(b).0[i + 1].ending.EndsLf?)
      {
        assert Recover(b).0[i + 1] == Recover(rest).0[i];
        if i > 0 { assert Recover(b).0[i] == Recover(rest).0[i - 1]; }
      }
    }
  }

  lemma FitsStep(lines: seq<Written>, tail: seq<byte>)
    requires lines != [] && Plain(lines[0].content) && |lines[0].content| <= MAX_STREAM_RECORD_BYTES
    requires Fits(lines[1..], tail)
    ensures Fits(lines, tail)
  {
    forall i | 0 <= i < |lines|
      ensures Plain(lines[i].content) && |lines[i].content| <= MAX_STREAM_RECORD_BYTES
    {
      if i > 0 { assert lines[i] == lines[1..][i - 1]; }
    }
  }

  lemma SplitStep(b: seq<byte>, k: nat, rest: seq<byte>)
    requires k == FirstBreak(b) < |b| && rest == b[k + EndingWidth(b, k)..]
    requires SplitLines(b, Complete).status == Complete
    ensures SplitLines(b, Complete) == AddLine(Line(b[..k], true), SplitLines(rest, Complete))
    ensures k <= MAX_STREAM_RECORD_BYTES && Plain(b[..k])
  {
    if b[k] == CR && k + 1 == |b| {
      assert rest == [];
    }
  }

  /** Splitting loses nothing: every accepted body is a writing of the lines it yields. */
  lemma {:induction false} SplitLosesNothing(b: seq<byte>)
    requires SplitLines(b, Complete).status == Complete
    ensures Fits(Recover(b).0, Recover(b).1)
    ensures SplitLines(b, Complete).lines == AsLines(Recover(b).0, Recover(b).1)
    decreases |b|
  {
    var k := FirstBreak(b);
    if k == |b| {
      assert b[..k] == b;
    } else {
      var rest := b[k + EndingWidth(b, k)..];
      SplitStep(b, k, rest);
      RecoverStep(b, k, rest);
      SplitLosesNothing(rest);
      AsLinesStep(Recover(b).0, Recover(b).1);
      FitsStep(Recover(b).0, Recover(b).1);
    }
  }

  // ----- server-sent events, end to end -----

  type Event = seq<seq<byte>>

  predicate Sendable(event: Event, decode: Decoder) {
    && event != []
    && (forall i | 0 <= i < |event| :: event[i] != [] && Plain(event[i]))
    && |Joined(EventLines(event))| <= MAX_STREAM_RECORD_BYTES
    && decode(Joined(EventLines(event))).Some?
  }

  function EventLines(event: Event): seq<Line> {
    seq(|event|, i requires 0 <= i < |event| => Line(event[i], true))
  }

  /** Each event's lines followed by the blank line that dispatches it. */
  function StreamLines(events: seq<Event>): seq<Line> {
    if events == [] then [] else EventLines(events[0]) + [Line([], true)] + StreamLines(events[1..])
  }

  function Texts(events: seq<Event>, decode: Decoder): seq<string>
    requires forall e | e in events :: Sendable(e, decode)
  {
    if events == [] then []
    else
      assert Sendable(events[0], decode);
      [decode(Joined(EventLines(events[0]))).value] + Texts(events[1..], decode)
  }

  lemma {:induction false} GroupingUndoesStreaming(events: seq<Event>, decode: Decoder)
    requires forall e | e in events :: Sendable(e, decode)
    ensures GroupEvents(StreamLines(events), Complete, decode) == Delivery(Texts(events, decode), Complete)
  {
    if events != [] {
      GroupFirstEvent(events, [], decode);
      assert StreamLines(events) + [] == StreamLines(events);
      assert StreamLines(events[1..]) + [] == StreamLines(events[1..]);
      GroupingUndoesStreaming(events[1..], decode);
    }
  }

  /** Any writing of a stream of events, with any mixture of line endings, means exactly
      those events; with the contract of Records this holds for any chunking of it. */
  lemma EventsArriveWhole(events: seq<Event>, written: seq<Written>, decode: Decoder)
    requires forall e | e in events :: Sendable(e, decode)
    requires AsLines(written, []) == StreamLines(events)
    requires Fits(written, []) && Unambiguous(written)
    requires |Render(written, [])| <= MAX_PROVIDER_STREAM_BYTES
    ensures OneShot(Render(written, []), Complete, Sse, decode) == Delivery(Texts(events, decode), Complete)
  {
    SplitUndoesRender(written, []);
    GroupingUndoesStreaming(events, decode);
  }

  lemma PartialIsReported(partial: seq<Line>, decode: Decoder)
    requires partial != [] && forall i | 0 <= i < |partial| :: partial[i].content != []
    requires forall i | 0 <= i < |partial| - 1 :: partial[i].terminated
    requires |Joined(partial)| <= MAX_STREAM_RECORD_BYTES
    ensures GroupEvents(partial, Complete, decode) == Delivery([], Failed(InvalidResponse))
  {
    var n := if partial[|partial| - 1].terminated then |partial| else |partial| - 1;
    JoinedGrows(partial, n);
    assert partial == partial[..n] + partial[n..];
    GroupStep(partial[..n], partial[n..], Complete, decode);
  }

  /** A body that stops inside an event, terminated or not, is an error and never a
      shortened event: the text already sent is unaffected. */
  lemma {:induction false} TruncationIsReported(events: seq<Event>, partial: seq<Line>, decode: Decoder)
    requires forall e | e in events :: Sendable(e, decode)
    requires partial != [] && forall i | 0 <= i < |partial| :: partial[i].content != []
    requires forall i | 0 <= i < |partial| - 1 :: partial[i].terminated
    requires |Joined(partial)| <= MAX_STREAM_RECORD_BYTES
    ensures GroupEvents(StreamLines(events) + partial, Complete, decode)
         == Delivery(Texts(events, decode), Failed(InvalidResponse))
  {
    if events == [] {
      assert StreamLines(events) + partial == partial;
      PartialIsReported(partial, decode);
    } else {
      GroupFirstEvent(events, partial, decode);
      TruncationIsReported(events[1..], partial, decode);
    }
  }

  lemma GroupFirstEvent(events: seq<Event>, after: seq<Line>, decode: Decoder)
    requires events != [] && Sendable(events[0], decode)
    ensures GroupEvents(StreamLines(events) + after, Complete, decode) ==
              AddRecord(decode(Joined(EventLines(events[0]))).value,
                        GroupEvents(StreamLines(events[1..]) + after, Complete, decode))
  {
    hide GroupEvents, Joined, Plain;
    var own, blank := EventLines(events[0]), [Line([], true)];
    var rest := StreamLines(events[1..]) + after;
    EventsFirst(events, after);
    assert own != [] && Run(own);
    assert (blank + rest)[0] == blank[0] && (blank + rest)[1..] == rest;
    GroupStep(own, blank + rest, Complete, decode);
  }

  lemma EventsFirst(events: seq<Event>, after: seq<Line>)
    requires events != []
    ensures StreamLines(events) + after ==
              EventLines(events[0]) + ([Line([], true)] + (StreamLines(events[1..]) + after))
  {
  }
}
