/** The bounded line reader between the app and its Computer Use helper
    (crates/codex-platform/src/computer_use_helper.rs, `read_bounded_line`). */
module LineReader {

  import opened Bytes
  import opened ByteText
  import opened Sequences
  import opened Wrappers

  datatype ReadError = FrameExceeded

  type Outcome = Result<Option<seq<byte>>, ReadError>

  function Classify(line: seq<byte>, limit: nat): Outcome {
    if |line| > limit + 1 then Err(FrameExceeded) else Ok(Some(Stripped(line)))
  }

  /** What one read returns, and the stream it leaves. */
  function ReadLine(data: seq<byte>, limit: nat): (Outcome, seq<byte>) {
    if data == [] then (Ok(None), [])
    else (Classify(data[..LineLength(data)], limit), data[LineLength(data)..])
  }

  // ----- a buffered reader that hands out the stream in arbitrary chunks -----

  class BufferedReader {
    var data: seq<byte>

    constructor (data: seq<byte>)
      ensures this.data == data
    {
      this.data := data;
    }

    method FillBuf() returns (available: seq<byte>)
      ensures available <= data
      ensures available == [] <==> data == []
    {
      if data == [] {
        return [];
      }
      var n :| 0 < n <= |data|;
      available := data[..n];
    }

    method Consume(n: nat)
      requires n <= |data|
      modifies this
      ensures data == old(data)[n..]
    {
      data := data[n..];
    }
  }

  /** The position of the first newline, if there is one. */
  method Position(available: seq<byte>) returns (newline: Option<nat>)
    ensures newline == if LF in available then Some(LineLength(available) - 1) else None
  {
    for i := 0 to |available|
      invariant forall j :: 0 <= j < i ==> available[j] != LF
    {
      if available[i] == LF {
        assert available == available[..i + 1] + available[i + 1..];
        LineLengthAtNewline(available[..i + 1], available[i + 1..]);
        return Some(i);
      }
    }
    newline := None;
  }

  /** How far a scan got: `scanned` was consumed of the line that starts the stream `whole`. */
  ghost predicate Scanned(whole: seq<byte>, scanned: seq<byte>, rest: seq<byte>) {
    whole == scanned + rest && LF !in scanned
  }

  lemma ScanGoesOn(whole: seq<byte>, scanned: seq<byte>, rest: seq<byte>, available: seq<byte>)
    requires Scanned(whole, scanned, rest) && available <= rest && available != []
    requires LF !in available
    ensures Scanned(whole, scanned + available, rest[|available|..])
  {
    assert rest == available + rest[|available|..];
  }

  lemma ScanEnds(whole: seq<byte>, scanned: seq<byte>, rest: seq<byte>, available: seq<byte>)
    requires Scanned(whole, scanned, rest) && available <= rest && LF in available
    ensures var take := LineLength(available);
            && LineLength(whole) == |scanned| + take
            && whole[..LineLength(whole)] == scanned + available[..take]
            && whole[LineLength(whole)..] == rest[take..]
            && available[take - 1] == LF
  {
    var take := LineLength(available);
    var i :| 0 <= i < |available| && available[i] == LF;
    assert available[take - 1] == LF;
    LineLengthSplit(scanned, rest);
    assert rest == available[..take] + rest[take..];
    LineLengthAtNewline(available[..take], rest[take..]);
  }

  lemma StreamEnds(whole: seq<byte>, scanned: seq<byte>)
    requires Scanned(whole, scanned, [])
    ensures LineLength(whole) == |whole| && whole == scanned && Stripped(whole) == whole
  {
    assert whole == scanned;
    LineLengthSplit(scanned, []);
    assert scanned + [] == scanned;
  }

  /** Skips what is left of an over-long line. */
  method DrainLine(reader: BufferedReader, ghost whole: seq<byte>, ghost scanned: seq<byte>)
    requires Scanned(whole, scanned, reader.data)
    modifies reader
    ensures reader.data == whole[LineLength(whole)..]
    ensures LineLength(whole) >= |scanned|
  {
    ghost var done := scanned;
    while true
      invariant Scanned(whole, done, reader.data) && |done| >= |scanned|
      decreases |reader.data|
    {
      var available := reader.FillBuf();
      if available == [] {
        StreamEnds(whole, done);
        return;
      }
      var nextNewline := Position(available);
      var drain := if nextNewline.Some? then nextNewline.value + 1 else |available|;
      if nextNewline.Some? {
        ScanEnds(whole, done, reader.data, available);
      } else {
        ScanGoesOn(whole, done, reader.data, available);
        done := done + available;
      }
      reader.Consume(drain);
      if nextNewline.Some? {
        return;
      }
    }
  }

  lemma LineFound(whole: seq<byte>, scanned: seq<byte>, rest: seq<byte>, available: seq<byte>, limit: nat)
    requires Scanned(whole, scanned, rest) && available <= rest && LF in available
    ensures var take := LineLength(available);
            var line := scanned + available[..take];
            && take > 0 && line[|line| - 1] == LF
            && ReadLine(whole, limit) == (Classify(line, limit), rest[take..])
  {
    ScanEnds(whole, scanned, rest, available);
  }

  lemma TailFound(whole: seq<byte>, scanned: seq<byte>, limit: nat)
    requires Scanned(whole, scanned, []) && |scanned| <= limit + 1
    ensures ReadLine(whole, limit) == (Ok(if scanned == [] then None else Some(scanned)), [])
  {
    StreamEnds(whole, scanned);
    assert whole[..|whole|] == whole;
  }

  lemma LineTooLong(whole: seq<byte>, scanned: seq<byte>, rest: seq<byte>, limit: nat)
    requires Scanned(whole, scanned, rest) && |scanned| > limit + 1
    ensures ReadLine(whole, limit) == (Err(FrameExceeded), whole[LineLength(whole)..])
  {
    LineLengthSplit(scanned, rest);
  }

  method StripNewline(line: seq<byte>) returns (text: seq<byte>)
    ensures line != [] && line[|line| - 1] == LF ==> text == Stripped(line)
  {
    text := line;
    if text != [] && text[|text| - 1] == LF {
      text := text[..|text| - 1];
    }
    if text != [] && text[|text| - 1] == CR {
      text := text[..|text| - 1];
    }
  }

  /** The result and the stream left behind depend on the bytes alone, not on the chunks in
      which the reader buffers them. */
  method ReadBoundedLine(reader: BufferedReader, limit: nat) returns (outcome: Outcome)
    modifies reader
    ensures (outcome, reader.data) == ReadLine(old(reader.data), limit)
  {
    var line: seq<byte> := [];
    ghost var whole := reader.data;
    while true
      invariant Scanned(whole, line, reader.data) && |line| <= limit + 1
      decreases |reader.data|
    {
      var available := reader.FillBuf();
      if available == [] {
        TailFound(whole, line, limit);
        return if line == [] then Ok(None) else Ok(Some(line));
      }
      var newline := Position(available);
      var take := if newline.Some? then newline.value + 1 else |available|;
      ghost var rest := reader.data;
      reader.Consume(take);
      if newline.Some? {
        LineFound(whole, line, rest, available, limit);
      } else {
        ScanGoesOn(whole, line, rest, available);
      }
      if |line| + take > limit + 1 {
        if newline.None? {
          LineTooLong(whole, line + available, reader.data, limit);
          DrainLine(reader, whole, line + available);
        }
        return Err(FrameExceeded);
      }
      line := line + available[..take];
      if newline.Some? {
        var text := StripNewline(line);
        return Ok(Some(text));
      }
      assert available[..take] == available;
    }
  }

  // ----- a whole conversation -----

  /** The outcomes of reading until the stream is used up. */
  function ReadAll(data: seq<byte>, limit: nat): seq<Outcome>
    decreases |data|
  {
    if data == [] then []
    else
      var (outcome, rest) := ReadLine(data, limit);
      [outcome] + ReadAll(rest, limit)
  }

  /** One newline, at the end. */
  ghost predicate IsLine(line: seq<byte>) {
    line != [] && line[|line| - 1] == LF && LF !in line[..|line| - 1]
  }

  function Outcomes(lines: seq<seq<byte>>, limit: nat): seq<Outcome> {
    if lines == [] then [] else [Classify(lines[0], limit)] + Outcomes(lines[1..], limit)
  }

  /** Every line is judged on its own: an over-long line yields its error and the lines after
      it are read as if it had not been there, and so is an unterminated tail. */
  lemma {:induction false} LinesAreReadIndependently(lines: seq<seq<byte>>, tail: seq<byte>, limit: nat)
    requires forall i :: 0 <= i < |lines| ==> IsLine(lines[i])
    requires LF !in tail
    ensures ReadAll(FlatMap(Itself, lines) + tail, limit)
            == Outcomes(lines, limit) + (if tail == [] then [] else [Classify(tail, limit)])
  {
    var data := FlatMap(Itself, lines) + tail;
    if lines == [] {
      assert data == tail;
      if tail != [] {
        LineLengthSplit(tail, []);
        assert tail + [] == tail && tail[..|tail|] == tail;
        assert ReadAll(data, limit) == [Classify(tail, limit)] + ReadAll([], limit);
      }
    } else {
      var rest := FlatMap(Itself, lines[1..]) + tail;
      assert data == lines[0] + rest;
      LineLengthAtNewline(lines[0], rest);
      assert data[..|lines[0]|] == lines[0] && data[|lines[0]|..] == rest;
      LinesAreReadIndependently(lines[1..], tail, limit);
    }
  }

  // A text sent with LF or CR LF comes back unchanged, if it fits and does not itself end in CR.
  lemma TextRoundTrip(text: seq<byte>, crlf: bool, limit: nat)
    requires LF !in text && (text != [] ==> text[|text| - 1] != CR)
    ensures var line := text + (if crlf then [CR, LF] else [LF]);
            && IsLine(line)
            && (Classify(line, limit) == Ok(Some(text)) <==> |line| <= limit + 1)
            && (Classify(line, limit) == Err(FrameExceeded) <==> |line| > limit + 1)
  {
    var line := text + (if crlf then [CR, LF] else [LF]);
    if crlf {
      assert line[..|line| - 1] == text + [CR];
      assert (text + [CR])[..|text|] == text;
    } else {
      assert line[..|line| - 1] == text;
    }
  }
}
