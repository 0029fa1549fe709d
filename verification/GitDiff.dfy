/** Diffs of untracked files (crates/codex-platform/src/git.rs, `untracked_diff_with_limit`). */
module GitDiff {

  import opened Bytes
  import opened ByteText
  import opened Sequences
  import opened Utf8
  import opened Wrappers

  const PLUS: byte := '+' as byte
  const BACKSLASH: byte := '\\' as byte

  datatype GitError = PathOutsideRepository | ReadFailed | CommandFailed

  // ----- the diff of a new file -----

  /** The fixed texts of the diff. */
  datatype Format = Format(
    git: seq<byte>, between: seq<byte>, mode: seq<byte>, hunk: seq<byte>, hunkEnd: seq<byte>, noNewline: seq<byte>)

  predicate Sound(f: Format) {
    && IsUtf8(f.git) && IsUtf8(f.between) && IsUtf8(f.mode)
    && IsUtf8(f.hunk) && IsUtf8(f.hunkEnd) && IsUtf8(f.noNewline)
    && f.noNewline != [] && f.noNewline[0] == BACKSLASH
    && LF !in f.hunk && LF !in f.hunkEnd
  }

  function GitFormat(): Format {
    Format(
      Plain("diff --git a/"),
      Plain(" b/"),
      Plain("\nnew file mode 100644\n--- /dev/null\n+++ b/"),
      Plain("@@ -0,0 +1,"),
      Plain(" @@"),
      Plain("\\ No newline at end of file\n"))
  }

  lemma PlainIsUtf8(s: string)
    ensures IsUtf8(Plain(s))
  {
    AsciiIsUtf8(Plain(s));
  }

  lemma PlainHasNoNewline(s: string)
    requires '\n' !in s
    ensures LF !in Plain(s)
  {
  }

  lemma HunkTextsHaveNoNewline()
    ensures LF !in Plain("@@ -0,0 +1,") && LF !in Plain(" @@")
  {
    PlainHasNoNewline("@@ -0,0 +1,");
    PlainHasNoNewline(" @@");
  }

  lemma GitFormatIsSound()
    ensures Sound(GitFormat())
  {
    PlainIsUtf8("diff --git a/");
    PlainIsUtf8(" b/");
    PlainIsUtf8("\nnew file mode 100644\n--- /dev/null\n+++ b/");
    PlainIsUtf8("@@ -0,0 +1,");
    PlainIsUtf8(" @@");
    PlainIsUtf8("\\ No newline at end of file\n");
    HunkTextsHaveNoNewline();
  }

  lemma JoinPlain(a: string, p: string, b: string, c: string, d: string)
    ensures Plain(a) + Plain(p) + Plain(b) + Plain(p) + Plain(c) + Plain(p) + Plain(d) ==
            Plain(a + p + b + p + c + p + d)
  {
    PlainConcat(a, p);
    PlainConcat(a + p, b);
    PlainConcat(a + p + b, p);
    PlainConcat(a + p + b + p, c);
    PlainConcat(a + p + b + p + c, p);
    PlainConcat(a + p + b + p + c + p, d);
  }

  /** The header of a new file at `path`, as git writes it. */
  lemma GitHeaderIs(path: string)
    ensures Header(GitFormat(), Plain(path)) ==
            Plain("diff --git a/" + path + " b/" + path + "\nnew file mode 100644\n--- /dev/null\n+++ b/" + path + "\n")
  {
    assert Plain("\n") == [LF];
    JoinPlain("diff --git a/", path, " b/", "\nnew file mode 100644\n--- /dev/null\n+++ b/", "\n");
  }

  // The hunk's first line and the mark of a missing newline, as git writes them.
  lemma GitHunkIs(count: nat)
    ensures HunkHeader(GitFormat(), count) == Plain("@@ -0,0 +1,") + Digits(count) + Plain(" @@\n")
    ensures GitFormat().noNewline == Plain("\\ No newline at end of file\n")
  {
    PlainConcat(" @@", "\n");
    assert Plain("\n") == [LF];
    assert " @@" + "\n" == " @@\n";
    Regroup(Plain("@@ -0,0 +1,") + Digits(count), Plain(" @@"), [LF]);
  }

  function Header(f: Format, path: seq<byte>): seq<byte> {
    f.git + path + f.between + path + f.mode + path + [LF]
  }

  function HunkHeader(f: Format, count: nat): seq<byte> {
    f.hunk + Digits(count) + f.hunkEnd + [LF]
  }

  function Lines(text: seq<byte>): seq<seq<byte>>
    decreases |text|
  {
    if text == [] then [] else [Stripped(text[..LineLength(text)])] + Lines(text[LineLength(text)..])
  }

  predicate EndsInNewline(text: seq<byte>) { text != [] && text[|text| - 1] == LF }

  function AddedLine(line: seq<byte>): seq<byte> { [PLUS] + line + [LF] }

  /** The mark of a missing newline; `whole` says that `text` is the file to its end. */
  function Mark(f: Format, text: seq<byte>, whole: bool): seq<byte> {
    if whole && text != [] && !EndsInNewline(text) then f.noNewline else []
  }

  function Body(f: Format, text: seq<byte>, whole: bool): seq<byte> {
    FlatMap(AddedLine, Lines(text)) + Mark(f, text, whole)
  }

  function DiffText(f: Format, path: seq<byte>, text: seq<byte>, whole: bool): seq<byte> {
    Header(f, path) + (if text == [] then [] else HunkHeader(f, |Lines(text)|) + Body(f, text, whole))
  }

  function First<T>(s: seq<T>, n: nat): seq<T> { if |s| <= n then s else s[..n] }

  /** The diff of a new file within a limit that bounds what is read of the file and what is
      written about it. */
  function DiffWithin(f: Format, path: seq<byte>, file: seq<byte>, limit: nat): Bounded {
    var text := First(file, limit);
    if !IsUtf8(text) then Bounded([], |file| > limit)
    else Flag(Cut(DiffText(f, path, text, |file| <= limit), limit), |file| > limit)
  }

  function DiffOf(f: Format, path: seq<byte>, contents: Result<seq<byte>, GitError>,
                  limit: nat): Result<Bounded, GitError> {
    match contents
    case Err(e) => Err(e)
    case Ok(file) => Ok(DiffWithin(f, path, file, limit))
  }

  function Flag(b: Bounded, truncated: bool): Bounded { b.(truncated := b.truncated || truncated) }

  // An added line, as git writes it.
  lemma AddedLineIs(line: string)
    ensures AddedLine(Plain(line)) == Plain("+" + line + "\n")
  {
    PlainConcat("+" + line, "\n");
    PlainConcat("+", line);
    assert Plain("+") == [PLUS] && Plain("\n") == [LF];
  }

  // ----- the pieces that are written are texts -----

  predicate AllUtf8(pieces: seq<seq<byte>>) { forall i :: 0 <= i < |pieces| ==> IsUtf8(pieces[i]) }

  lemma HeaderIsUtf8(f: Format, path: seq<byte>)
    requires Sound(f) && IsUtf8(path)
    ensures IsUtf8(Header(f, path))
  {
    AsciiIsUtf8([LF]);
    var a := f.git + path;
    var b := a + f.between;
    var c := b + path;
    var d := c + f.mode;
    var e := d + path;
    ConcatIsUtf8(f.git, path);
    ConcatIsUtf8(a, f.between);
    ConcatIsUtf8(b, path);
    ConcatIsUtf8(c, f.mode);
    ConcatIsUtf8(d, path);
    ConcatIsUtf8(e, [LF]);
  }

  lemma HunkHeaderIsUtf8(f: Format, count: nat)
    requires Sound(f)
    ensures IsUtf8(HunkHeader(f, count))
  {
    DigitsRoundTrip(count);
    assert forall i :: 0 <= i < |Digits(count)| ==> Digits(count)[i] in Digits(count);
    AsciiIsUtf8(Digits(count));
    ConcatIsUtf8(f.hunk, Digits(count));
    ConcatIsUtf8(f.hunk + Digits(count), f.hunkEnd);
    AsciiIsUtf8([LF]);
    ConcatIsUtf8(f.hunk + Digits(count) + f.hunkEnd, [LF]);
  }

  lemma AfterAscii(text: seq<byte>)
    requires IsUtf8(text) && text != [] && text[0] < 0x80
    ensures IsUtf8(text[1..])
  {
  }

  // A text may be divided at any ASCII byte.
  lemma DivideAt(text: seq<byte>, i: nat)
    requires IsUtf8(text) && i < |text| && text[i] < 0x80
    ensures IsUtf8(text[..i]) && IsUtf8(text[i + 1..])
  {
    var first, rest := text[..i], text[i..];
    BoundaryIsBetweenCharacters(text, i);
    assert text == first + rest;
    ConcatIsUtf8(first, rest);
    AfterAscii(rest);
    assert rest[1..] == text[i + 1..];
  }

  lemma StrippedIsUtf8(line: seq<byte>)
    requires IsUtf8(line)
    ensures IsUtf8(Stripped(line))
  {
    if line != [] && line[|line| - 1] == LF {
      DivideAt(line, |line| - 1);
      var text := line[..|line| - 1];
      if text != [] && text[|text| - 1] == CR {
        DivideAt(text, |text| - 1);
      }
    }
  }

  lemma FirstLineIsUtf8(text: seq<byte>)
    requires IsUtf8(text) && text != []
    ensures IsUtf8(text[..LineLength(text)]) && IsUtf8(text[LineLength(text)..])
  {
    var n := LineLength(text);
    if n < |text| {
      DivideAt(text, n - 1);
      AsciiIsUtf8([LF]);
      ConcatIsUtf8(text[..n - 1], [LF]);
      Advance(text, n - 1);
    } else {
      assert text[..n] == text;
    }
  }

  lemma {:induction false} LinesAreUtf8(text: seq<byte>)
    requires IsUtf8(text)
    ensures AllUtf8(Lines(text))
    decreases |text|
  {
    if text != [] {
      FirstLineIsUtf8(text);
      StrippedIsUtf8(text[..LineLength(text)]);
      LinesAreUtf8(text[LineLength(text)..]);
    }
  }

  // ----- writing it -----

  lemma AppendLine(done: seq<byte>, line: seq<byte>)
    ensures done + [PLUS] + line + [LF] == done + AddedLine(line)
  {
  }

  method PushLine(output: seq<byte>, line: seq<byte>, limit: nat, truncated: bool, ghost done: seq<byte>)
    returns (output': seq<byte>, truncated': bool)
    requires IsUtf8(line) && Bounded(output, truncated) == Cut(done, limit)
    ensures Bounded(output', truncated') == Cut(done + AddedLine(line), limit)
  {
    AsciiIsUtf8([PLUS]);
    AsciiIsUtf8([LF]);
    output', truncated' := PushBoundedText(output, [PLUS], limit, truncated);
    PushCuts(done, [PLUS], limit);
    output', truncated' := PushBoundedText(output', line, limit, truncated');
    PushCuts(done + [PLUS], line, limit);
    output', truncated' := PushBoundedText(output', [LF], limit, truncated');
    PushCuts(done + [PLUS] + line, [LF], limit);
    AppendLine(done, line);
  }

  lemma LinesTaken(start: seq<byte>, lines: seq<seq<byte>>, i: nat)
    requires i < |lines|
    ensures (start + FlatMap(AddedLine, lines[..i])) + AddedLine(lines[i]) == start + FlatMap(AddedLine, lines[..i + 1])
  {
    assert lines[..i + 1] == lines[..i] + [lines[i]];
    FlatMapAppend(AddedLine, lines[..i], lines[i]);
  }

  // A cut among the first lines is the cut of them all.
  lemma LinesCut(start: seq<byte>, lines: seq<seq<byte>>, i: nat, limit: nat)
    requires i <= |lines| && Cut(start + FlatMap(AddedLine, lines[..i]), limit).truncated
    ensures Cut(start + FlatMap(AddedLine, lines), limit) == Cut(start + FlatMap(AddedLine, lines[..i]), limit)
  {
    var taken, left := FlatMap(AddedLine, lines[..i]), FlatMap(AddedLine, lines[i..]);
    assert lines == lines[..i] + lines[i..];
    FlatMapConcat(AddedLine, lines[..i], lines[i..]);
    CutStays(start + taken, left, limit);
    Regroup(start, taken, left);
  }

  method PushLines(output: seq<byte>, lines: seq<seq<byte>>, limit: nat, truncated: bool, ghost start: seq<byte>)
    returns (output': seq<byte>, truncated': bool)
    requires AllUtf8(lines) && Bounded(output, truncated) == Cut(start, limit)
    ensures Bounded(output', truncated') == Cut(start + FlatMap(AddedLine, lines), limit)
  {
    output', truncated' := output, truncated;
    assert lines[..0] == [] && start + FlatMap(AddedLine, lines[..0]) == start;
    for i := 0 to |lines|
      invariant Bounded(output', truncated') == Cut(start + FlatMap(AddedLine, lines[..i]), limit)
    {
      output', truncated' := PushLine(output', lines[i], limit, truncated', start + FlatMap(AddedLine, lines[..i]));
      LinesTaken(start, lines, i);
      if truncated' {
        LinesCut(start, lines, i + 1, limit);
        return;
      }
    }
    assert lines[..|lines|] == lines;
  }

  /** The hunk: its header, the lines, and the mark of a missing newline at the end. */
  method PushHunk(f: Format, output: seq<byte>, text: seq<byte>, whole: bool, limit: nat, truncated: bool,
                  ghost start: seq<byte>)
    returns (output': seq<byte>, truncated': bool)
    requires Sound(f) && IsUtf8(text) && text != [] && Bounded(output, truncated) == Cut(start, limit)
    ensures Bounded(output', truncated') == Cut(start + (HunkHeader(f, |Lines(text)|) + Body(f, text, whole)), limit)
  {
    var lines := Lines(text);
    ghost var header, added := HunkHeader(f, |lines|), FlatMap(AddedLine, lines);
    LinesAreUtf8(text);
    HunkHeaderIsUtf8(f, |lines|);
    output', truncated' := PushBoundedText(output, HunkHeader(f, |lines|), limit, truncated);
    PushCuts(start, header, limit);
    output', truncated' := PushLines(output', lines, limit, truncated', start + header);
    Regroup(start, header, added);
    if whole && !EndsInNewline(text) {
      output', truncated' := PushBoundedText(output', f.noNewline, limit, truncated');
        PushCuts(start + (header + added), f.noNewline, limit);
      Regroup(start, header + added, f.noNewline);
      Regroup(header, added, f.noNewline);
    } else {
      assert added + [] == added;
    }
  }

  method WriteDiff(f: Format, path: seq<byte>, text: seq<byte>, whole: bool, limit: nat)
    returns (output: seq<byte>, truncated: bool)
    requires Sound(f) && IsUtf8(path) && IsUtf8(text)
    ensures Bounded(output, truncated) == Cut(DiffText(f, path, text, whole), limit)
  {
    ghost var header := Header(f, path);
    output, truncated := PushBoundedText([], Header(f, path), limit, false);
    HeaderIsUtf8(f, path);
    PushCuts([], header, limit);
    assert [] + header == header;
    if |Lines(text)| > 0 && !truncated {
      output, truncated := PushHunk(f, output, text, whole, limit, truncated, header);
    } else if text != [] {
      CutStays(header, HunkHeader(f, |Lines(text)|) + Body(f, text, whole), limit);
    } else {
      assert header + [] == header;
    }
  }

  /** The file is read no further than one byte past the limit, which tells whether it fits. */
  method UntrackedDiff(f: Format, path: seq<byte>, contents: Result<seq<byte>, GitError>, limit: nat)
    returns (result: Result<Bounded, GitError>)
    requires Sound(f) && IsUtf8(path)
    ensures result == DiffOf(f, path, contents, limit)
  {
    if contents.Err? {
      return Err(contents.error);
    }
    var bytes := First(contents.value, limit + 1);
    var inputTruncated := |bytes| > limit;
    bytes := First(bytes, limit);
    assert bytes == First(contents.value, limit);
    if !IsUtf8(bytes) {
      return Ok(Bounded([], inputTruncated));
    }
    var output, outputTruncated := WriteDiff(f, path, bytes, !inputTruncated, limit);
    result := Ok(Bounded(output, inputTruncated || outputTruncated));
  }

  /** A diff that is not flagged says everything about its file: all of a text, and nothing about
      a file that is not UTF-8. */
  function FileDiff(f: Format, path: seq<byte>, file: seq<byte>): seq<byte> {
    if IsUtf8(file) then DiffText(f, path, file, true) else []
  }

  lemma UnflaggedDiffIsComplete(f: Format, path: seq<byte>, file: seq<byte>, limit: nat)
    requires Sound(f) && IsUtf8(path)
    ensures var diff := DiffWithin(f, path, file, limit);
            && |diff.text| <= limit && IsUtf8(diff.text)
            && (!diff.truncated <==> |file| <= limit && |FileDiff(f, path, file)| <= limit)
            && (!diff.truncated ==> diff.text == FileDiff(f, path, file))
  {
    var text := First(file, limit);
    if IsUtf8(text) {
      DiffIsUtf8(f, path, text, |file| <= limit);
      CutIsLongestFittingText(DiffText(f, path, text, |file| <= limit), limit, 0);
    }
  }

  lemma {:induction false} AddedLinesAreUtf8(lines: seq<seq<byte>>)
    requires AllUtf8(lines)
    ensures IsUtf8(FlatMap(AddedLine, lines))
  {
    if lines != [] {
      AddedLinesAreUtf8(lines[1..]);
      AsciiIsUtf8([PLUS]);
      AsciiIsUtf8([LF]);
      ConcatIsUtf8([PLUS], lines[0]);
      ConcatIsUtf8([PLUS] + lines[0], [LF]);
      ConcatIsUtf8(AddedLine(lines[0]), FlatMap(AddedLine, lines[1..]));
    }
  }

  lemma DiffIsUtf8(f: Format, path: seq<byte>, text: seq<byte>, whole: bool)
    requires Sound(f) && IsUtf8(path) && IsUtf8(text)
    ensures IsUtf8(DiffText(f, path, text, whole))
  {
    HeaderIsUtf8(f, path);
    LinesAreUtf8(text);
    AddedLinesAreUtf8(Lines(text));
    HunkHeaderIsUtf8(f, |Lines(text)|);
    ConcatIsUtf8(FlatMap(AddedLine, Lines(text)), Mark(f, text, whole));
    ConcatIsUtf8(HunkHeader(f, |Lines(text)|), Body(f, text, whole));
    ConcatIsUtf8(Header(f, path), if text == [] then [] else HunkHeader(f, |Lines(text)|) + Body(f, text, whole));
  }

  lemma {:induction false} AddedLinesAreLonger(text: seq<byte>)
    ensures |FlatMap(AddedLine, Lines(text))| >= |text|
    decreases |text|
  {
    if text != [] {
      AddedLinesAreLonger(text[LineLength(text)..]);
      FlatMapStep(AddedLine, Stripped(text[..LineLength(text)]), Lines(text[LineLength(text)..]));
    }
  }

  /** The diff of a text is no shorter than the text, and never empty. */
  lemma DiffIsLonger(f: Format, path: seq<byte>, text: seq<byte>)
    ensures |DiffText(f, path, text, true)| > |text|
  {
    AddedLinesAreLonger(text);
  }

  // ----- reading a diff back -----

  predicate StartsWithAddedLine(body: seq<byte>) { body != [] && body[0] == PLUS && LF in body }

  function CountAdded(body: seq<byte>): nat
    decreases |body|
  {
    if StartsWithAddedLine(body) then 1 + CountAdded(body[LineLength(body)..]) else 0
  }

  /** The file that the added lines describe; the mark takes the newline before it away. */
  function Applied(body: seq<byte>): seq<byte>
    decreases |body|
  {
    if !StartsWithAddedLine(body) then []
    else
      var n := LineLength(body);
      var rest := body[n..];
      if rest != [] && rest[0] == BACKSLASH then body[1..n - 1] else body[1..n] + Applied(rest)
  }

  /** Applies a diff to the empty file; the count in the hunk header must be right. */
  function ReadDiff(f: Format, path: seq<byte>, diff: seq<byte>): Option<seq<byte>> {
    if !(Header(f, path) <= diff) then None
    else
      var hunk := diff[|Header(f, path)|..];
      var body := hunk[LineLength(hunk)..];
      if hunk == [] then Some([])
      else if hunk[..LineLength(hunk)] == HunkHeader(f, CountAdded(body)) then Some(Applied(body))
      else None
  }

  function Newline(text: seq<byte>): seq<byte> { if EndsInNewline(text) then [LF] else [] }

  /** A text with every CR LF replaced by LF. */
  function Normalised(text: seq<byte>): seq<byte>
    decreases |text|
  {
    if text == [] then []
    else
      var n := LineLength(text);
      Stripped(text[..n]) + Newline(text[..n]) + Normalised(text[n..])
  }

  predicate HasCrLf(text: seq<byte>) { exists i :: 0 < i < |text| && CrLfAt(text, i) }

  lemma StrippedHasNoNewline(line: seq<byte>)
    requires line != [] && LF !in line[..|line| - 1]
    ensures LF !in Stripped(line)
    ensures line == Stripped(line) + Newline(line) <==> !HasCrLf(line)
    ensures |Stripped(line)| + |Newline(line)| <= |line|
  {
    if EndsInNewline(line) {
      var text := line[..|line| - 1];
      assert line == text + [LF];
      if text != [] && text[|text| - 1] == CR {
        assert CrLfAt(line, |text|);
      }
    } else {
      assert Stripped(line) + Newline(line) == line;
      forall i | 0 <= i < |line| ensures line[i] != LF {
        assert i < |line| - 1 ==> line[i] == line[..|line| - 1][i];
      }
    }
  }

  predicate CrLfAt(text: seq<byte>, i: nat)
    requires 0 < i < |text|
  {
    text[i - 1] == CR && text[i] == LF
  }

  // A pair does not straddle the end of a line: a line ends in LF.
  lemma CrLfInLineOrAfter(text: seq<byte>)
    requires text != []
    ensures HasCrLf(text) <==> HasCrLf(text[..LineLength(text)]) || HasCrLf(text[LineLength(text)..])
  {
    var n := LineLength(text);
    var line, rest := text[..n], text[n..];
    forall i | 0 < i < n ensures CrLfAt(text, i) <==> CrLfAt(line, i) {
    }
    forall i | 0 < i < |rest| ensures CrLfAt(text, n + i) <==> CrLfAt(rest, i) {
    }
    if HasCrLf(text) {
      var i :| 0 < i < |text| && CrLfAt(text, i);
      if i < n {
        assert CrLfAt(line, i);
      } else {
        assert i != n;
        assert CrLfAt(rest, i - n);
      }
    }
  }

  lemma {:induction false} NormalisedIff(text: seq<byte>)
    ensures |Normalised(text)| <= |text|
    ensures Normalised(text) == text <==> !HasCrLf(text)
    decreases |text|
  {
    if text != [] {
      var n := LineLength(text);
      var line, rest := text[..n], text[n..];
      var kept := Stripped(line) + Newline(line);
      StrippedHasNoNewline(line);
      CrLfInLineOrAfter(text);
      NormalisedIff(rest);
      assert text == line + rest;
      ShorterPrefix(kept, Normalised(rest), line, rest);
    }
  }

  lemma ShorterPrefix(a: seq<byte>, b: seq<byte>, c: seq<byte>, d: seq<byte>)
    requires |a| <= |c| && |b| <= |d|
    ensures a + b == c + d <==> a == c && b == d
  {
    if a + b == c + d {
      assert |a| == |c| && |b| == |d|;
      assert (a + b)[..|a|] == a && (c + d)[..|c|] == c;
      assert (a + b)[|a|..] == b && (c + d)[|c|..] == d;
    }
  }

  lemma AddedLineFirst(line: seq<byte>, rest: seq<byte>)
    requires LF !in line
    ensures var body := AddedLine(line) + rest;
            && LineLength(body) == |line| + 2 && body[|line| + 1] == LF
            && body[|line| + 2..] == rest
            && body[1..|line| + 2] == line + [LF] && body[1..|line| + 1] == line
  {
    var added := AddedLine(line);
    assert added[..|added| - 1] == [PLUS] + line;
    LineLengthAtNewline(added, rest);
  }

  lemma AppliedStep(line: seq<byte>, rest: seq<byte>)
    requires LF !in line
    ensures CountAdded(AddedLine(line) + rest) == 1 + CountAdded(rest)
    ensures Applied(AddedLine(line) + rest) ==
            if rest != [] && rest[0] == BACKSLASH then line else line + [LF] + Applied(rest)
  {
    AddedLineFirst(line, rest);
    var body := AddedLine(line) + rest;
    assert StartsWithAddedLine(body);
    assert Applied(body) ==
      if rest != [] && rest[0] == BACKSLASH then body[1..|line| + 1] else body[1..|line| + 2] + Applied(rest);
  }

  lemma {:induction false} BodyReadsBack(f: Format, text: seq<byte>)
    requires Sound(f)
    ensures Applied(Body(f, text, true)) == Normalised(text)
    ensures CountAdded(Body(f, text, true)) == |Lines(text)|
    ensures text != [] ==> Body(f, text, true) != [] && Body(f, text, true)[0] == PLUS
    decreases |text|
  {
    if text != [] {
      var n := LineLength(text);
      var line, rest := text[..n], text[n..];
      var added := AddedLine(Stripped(line));
      StrippedHasNoNewline(line);
      BodyReadsBack(f, rest);
      if rest == [] {
        assert line == text;
        LastLineReadsBack(f, text);
      } else {
        BodySplits(f, text);
        AppliedStep(Stripped(line), Body(f, rest, true));
      }
    }
  }

  lemma MarkOfRest(f: Format, text: seq<byte>, n: nat)
    requires n < |text|
    ensures Mark(f, text, true) == Mark(f, text[n..], true)
  {
    assert text[n..][|text| - n - 1] == text[|text| - 1];
  }

  lemma BodySplits(f: Format, text: seq<byte>)
    requires text != [] && LineLength(text) < |text|
    ensures var n := LineLength(text); Body(f, text, true) == AddedLine(Stripped(text[..n])) + Body(f, text[n..], true)
  {
    var n := LineLength(text);
    var line, rest := Stripped(text[..n]), text[n..];
    MarkOfRest(f, text, n);
    FlatMapStep(AddedLine, line, Lines(rest));
    Regroup(AddedLine(line), FlatMap(AddedLine, Lines(rest)), Mark(f, rest, true));
  }

  lemma LastLineReadsBack(f: Format, text: seq<byte>)
    requires Sound(f) && text != [] && LineLength(text) == |text|
    ensures Body(f, text, true) == AddedLine(Stripped(text)) + if EndsInNewline(text) then [] else f.noNewline
    ensures Applied(Body(f, text, true)) == Normalised(text)
    ensures CountAdded(Body(f, text, true)) == |Lines(text)| == 1
  {
    assert text[..|text|] == text && text[|text|..] == [];
    assert Lines(text) == [Stripped(text)] + Lines([]);
    var lines := [Stripped(text)];
    assert FlatMap(AddedLine, lines) == AddedLine(Stripped(text)) + FlatMap(AddedLine, lines[1..]);
    assert FlatMap(AddedLine, lines) == AddedLine(Stripped(text));
    StrippedHasNoNewline(text);
    AppliedStep(Stripped(text), if EndsInNewline(text) then [] else f.noNewline);
  }

  lemma HunkHeaderIsALine(f: Format, count: nat)
    requires Sound(f)
    ensures var h := HunkHeader(f, count); h != [] && h[|h| - 1] == LF && LF !in h[..|h| - 1]
  {
    DigitsRoundTrip(count);
    var h := HunkHeader(f, count);
    assert h[..|h| - 1] == f.hunk + Digits(count) + f.hunkEnd;
  }

  lemma HunkReadsBack(f: Format, header: seq<byte>, first: seq<byte>, body: seq<byte>)
    requires first != [] && first[|first| - 1] == LF && LF !in first[..|first| - 1]
    ensures var diff := header + (first + body);
            var hunk := diff[|header|..];
            && header <= diff && hunk == first + body && LineLength(hunk) == |first|
            && hunk[..|first|] == first && hunk[|first|..] == body
  {
    assert (header + (first + body))[|header|..] == first + body;
    LineLengthAtNewline(first, body);
    assert (first + body)[..|first|] == first && (first + body)[|first|..] == body;
  }

  lemma DiffReadsBack(f: Format, path: seq<byte>, text: seq<byte>)
    requires Sound(f)
    ensures ReadDiff(f, path, DiffText(f, path, text, true)) == Some(Normalised(text))
  {
    var header := Header(f, path);
    if text == [] {
      assert (header + [])[|header|..] == [];
    } else {
      var first, body := HunkHeader(f, |Lines(text)|), Body(f, text, true);
      BodyReadsBack(f, text);
      HunkHeaderIsALine(f, |Lines(text)|);
      HunkReadsBack(f, header, first, body);
    }
  }

  /** An unflagged diff of a text reads back as the file with every CR LF turned into LF, so it
      reconstructs the file, its final newline or the lack of one included, exactly when the file
      holds no CR LF. */
  lemma UnflaggedDiffReconstructs(f: Format, path: seq<byte>, file: seq<byte>, limit: nat)
    requires Sound(f) && IsUtf8(path) && IsUtf8(file)
    ensures var diff := DiffWithin(f, path, file, limit);
            !diff.truncated ==>
              && ReadDiff(f, path, diff.text) == Some(Normalised(file))
              && (ReadDiff(f, path, diff.text) == Some(file) <==> !HasCrLf(file))
  {
    UnflaggedDiffIsComplete(f, path, file, limit);
    DiffReadsBack(f, path, file);
    NormalisedIff(file);
  }

  lemma NormalisedCrLf()
    ensures Normalised([CR, LF]) == [LF]
  {
    var line := [CR, LF];
    assert line[..1] == [CR];
    LineLengthAtNewline(line, []);
    assert line + [] == line && line[..2] == line && line[2..] == [];
    assert Stripped(line) == [];
  }

  // A carriage return before a newline is lost without a flag.
  lemma CrLfIsLost(f: Format, path: seq<byte>, limit: nat)
    requires Sound(f) && IsUtf8(path) && limit >= 2 && limit >= |FileDiff(f, path, [CR, LF])|
    ensures var diff := DiffWithin(f, path, [CR, LF], limit);
            !diff.truncated && ReadDiff(f, path, diff.text) == Some([LF])
  {
    AsciiIsUtf8([CR, LF]);
    UnflaggedDiffIsComplete(f, path, [CR, LF], limit);
    UnflaggedDiffReconstructs(f, path, [CR, LF], limit);
    NormalisedCrLf();
  }
}
