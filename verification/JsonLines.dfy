/** JSON Lines framing: one encoded object per line, read back with the broader notion of
    a line break that splitting text into lines uses. */
module JsonLines {
  import opened Wrappers
  import opened Texts

  /** The characters at which splitlines breaks. */
  predicate Breaks(c: char) {
    c in "\n\r\U{0B}\U{0C}\U{1C}\U{1D}\U{1E}\U{85}\U{2028}\U{2029}"
  }

  /** The breaks that an encoder leaves in place: the others are control characters, which
      section 7 of RFC 8259 has it escape. */
  predicate LeftRaw(c: char) { c in "\U{85}\U{2028}\U{2029}" }

  /** splitlines: a final break starts no further line, CRLF is one break. */
  function SplitLines(text: string): seq<string> {
    if text == "" then []
    else
      var line := FirstLine(text);
      if |line| == |text| then [line]
      else [line] + SplitLines(text[|line| + BreakLength(text, |line|)..])
  }

  function FirstLine(text: string): (line: string)
    ensures line <= text
    ensures |line| < |text| ==> Breaks(text[|line|])
    ensures forall c | c in line :: !Breaks(c)
  {
    if text == "" || Breaks(text[0]) then "" else [text[0]] + FirstLine(text[1..])
  }

  function BreakLength(text: string, i: nat): (n: nat)
    requires i < |text|
    ensures 1 <= n && i + n <= |text|
  {
    if text[i] == '\r' && i + 1 < |text| && text[i + 1] == '\n' then 2 else 1
  }

  /** How records are written and read.  An encoded record is an object on its own: it is
      not blank, holds no control character, reads back as itself, and no shorter prefix of
      it is complete. */
  datatype Codec<!R> = Codec(encode: R -> string, decode: string -> Option<R>)

  ghost predicate SoundFor<R(!new)>(codec: Codec<R>, r: R) {
    var text := codec.encode(r);
    && codec.decode(text) == Some(r)
    && text != "" && NonBlank(text[..1])
    && (forall c | c in text :: Breaks(c) ==> LeftRaw(c))
    && forall n: nat | 0 < n < |text| :: codec.decode(text[..n]) == None
  }

  function Encode<R>(codec: Codec<R>, records: seq<R>): string {
    if records == [] then "" else codec.encode(records[0]) + "\n" + Encode(codec, records[1..])
  }

  function DecodeAll<R>(codec: Codec<R>, lines: seq<string>): Option<seq<R>> {
    if lines == [] then Some([])
    else if !NonBlank(lines[0]) then DecodeAll(codec, lines[1..])
    else
      match codec.decode(lines[0])
      case None => None
      case Some(r) =>
        match DecodeAll(codec, lines[1..])
        case None => None
        case Some(rest) => Some([r] + rest)
  }

  function Decode<R>(codec: Codec<R>, text: string): Option<seq<R>> { DecodeAll(codec, SplitLines(text)) }

  predicate Clean(text: string) { forall c | c in text :: !LeftRaw(c) }

  /** The text up to its first break, with a tail that begins with that break. */
  lemma {:induction false} FirstLineOf(head: string, tail: string)
    requires forall c | c in head :: !Breaks(c)
    requires tail != "" && Breaks(tail[0])
    ensures FirstLine(head + tail) == head
  {
    if head == "" {
      assert head + tail == tail;
    } else {
      assert (head + tail)[1..] == head[1..] + tail;
      FirstLineOf(head[1..], tail);
    }
  }

  /** A line ends with one break: any of the characters, or CR and LF together. */
  predicate Ending(ending: string) { ending == "\r\n" || (|ending| == 1 && Breaks(ending[0])) }

  /** Text without breaks and one ending is one line, unless the ending is a CR that the LF
      of what follows would complete. */
  lemma OneLine(head: string, ending: string, rest: string)
    requires (forall c | c in head :: !Breaks(c)) && Ending(ending)
    requires ending == "\r" ==> rest == "" || rest[0] != '\n'
    ensures SplitLines(head + ending + rest) == [head] + SplitLines(rest)
  {
    var text := head + ending + rest;
    assert text == head + (ending + rest);
    FirstLineOf(head, ending + rest);
    assert text[|head|] == ending[0];
    assert ending == "\r\n" ==> text[|head| + 1] == '\n';
    assert |ending| == 1 && |text| > |head| + 1 ==> text[|head| + 1] == rest[0];
    assert text[|head| + |ending|..] == rest;
  }

  lemma {:induction false} FirstLineStops(text: string, i: nat)
    requires i < |text| && Breaks(text[i])
    ensures |FirstLine(text)| <= i
  {
    if i > 0 && !Breaks(text[0]) { FirstLineStops(text[1..], i - 1); }
  }

  /** A record with a raw break is cut there: the first line is a shorter prefix. */
  lemma CutLine(head: string, rest: string)
    requires !Clean(head) && NonBlank(head[..1])
    ensures var lines := SplitLines(head + "\n" + rest);
            && lines != [] && 0 < |lines[0]| < |head| && lines[0] == head[..|lines[0]|] && NonBlank(lines[0])
  {
    var text := head + "\n" + rest;
    var line := FirstLine(text);
    var i :| 0 <= i < |head| && LeftRaw(head[i]);
    assert text[i] == head[i] && Breaks(text[i]);
    FirstLineStops(text, i);
    assert head[..1] == [head[0]] && text[0] == head[0] && !Breaks(text[0]);
    assert line == text[..|line|] == head[..|line|];
    assert line[0] == head[0] && line[0] in line;
  }

  predicate AllClean<R>(codec: Codec<R>, records: seq<R>) {
    forall i | 0 <= i < |records| :: Clean(codec.encode(records[i]))
  }

  lemma AllCleanStep<R>(codec: Codec<R>, records: seq<R>)
    requires records != []
    ensures AllClean(codec, records) <==> Clean(codec.encode(records[0])) && AllClean(codec, records[1..])
  {
    hide Clean;
    if AllClean(codec, records[1..]) {
      assert forall i | 1 <= i < |records| :: records[i] == records[1..][i - 1];
    }
  }

  ghost predicate AllSound<R(!new)>(codec: Codec<R>, records: seq<R>) {
    forall i | 0 <= i < |records| :: SoundFor(codec, records[i])
  }

  lemma SoundHead<R(!new)>(codec: Codec<R>, records: seq<R>)
    requires AllSound(codec, records) && records != []
    ensures SoundFor(codec, records[0]) && AllSound(codec, records[1..])
  {
  }

  lemma DecodeClean<R(!new)>(codec: Codec<R>, r: R, rest: string)
    requires SoundFor(codec, r) && Clean(codec.encode(r))
    ensures Decode(codec, codec.encode(r) + "\n" + rest) ==
              match Decode(codec, rest) case None => None case Some(records) => Some([r] + records)
  {
    var head, lines := codec.encode(r), SplitLines(rest);
    OneLine(head, "\n", rest);
    assert ([head] + lines)[1..] == lines;
    assert head[..1] == [head[0]] && head[0] in head;
    hide SplitLines;
  }

  lemma DecodeCut<R(!new)>(codec: Codec<R>, r: R, rest: string)
    requires SoundFor(codec, r) && !Clean(codec.encode(r))
    ensures Decode(codec, codec.encode(r) + "\n" + rest) == None
  {
    CutLine(codec.encode(r), rest);
    hide SplitLines;
  }

  /** Reading back what was written succeeds, and gives the records, exactly when no
      encoded record contains U+0085, U+2028 or U+2029; otherwise it fails. */
  lemma {:induction false} DecodeUndoesEncode<R(!new)>(codec: Codec<R>, records: seq<R>)
    requires AllSound(codec, records)
    ensures Decode(codec, Encode(codec, records)) == if AllClean(codec, records) then Some(records) else None
  {
    hide Decode, SoundFor, Clean, AllClean, AllSound;
    if records == [] {
      NoRecords(codec);
    } else {
      SoundHead(codec, records);
      AllCleanStep(codec, records);
      DecodeUndoesEncode(codec, records[1..]);
      if Clean(codec.encode(records[0])) {
        DecodeClean(codec, records[0], Encode(codec, records[1..]));
        assert records == [records[0]] + records[1..];
      } else {
        DecodeCut(codec, records[0], Encode(codec, records[1..]));
      }
    }
  }

  lemma NoRecords<R>(codec: Codec<R>)
    ensures Decode(codec, Encode(codec, [])) == Some([]) && AllClean(codec, [])
  {
  }
}
