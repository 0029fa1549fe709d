/** UTF-8 (section 3 of RFC 3629), and text that is cut to a size between two characters
    (crates/codex-platform/src/git.rs, `push_bounded_text`). */
module Utf8 {

  import opened Bytes
  import opened Numbers
  import opened Sequences

  type scalar = c: int | 0 <= c < 0xD800 || 0xE000 <= c <= 0x10FFFF

  predicate IsScalar(c: int) { 0 <= c < 0xD800 || 0xE000 <= c <= 0x10FFFF }

  predicate IsContinuation(b: byte) { 0x80 <= b < 0xC0 }

  function Continuation(c: nat): (b: byte)
    ensures IsContinuation(b) && Payload(b) == c % 64
  {
    (0x80 + c % 64) as byte
  }

  function Encode(c: scalar): (e: seq<byte>)
    ensures 1 <= |e| <= 4
  {
    if c < 0x80 then [c as byte]
    else if c < 0x800 then [(0xC0 + c / 64) as byte, Continuation(c)]
    else if c < 0x10000 then [(0xE0 + c / 64 / 64) as byte, Continuation(c / 64), Continuation(c)]
    else [(0xF0 + c / 64 / 64 / 64) as byte, Continuation(c / 64 / 64), Continuation(c / 64), Continuation(c)]
  }

  function EncodeAll(text: seq<scalar>): seq<byte> { FlatMap(Encode, text) }

  /** The number of bytes a first byte announces. */
  function Width(first: byte): (n: nat)
    ensures 1 <= n <= 4
  {
    if first < 0xC0 then 1 else if first < 0xE0 then 2 else if first < 0xF0 then 3 else 4
  }

  function Payload(b: byte): int { b as int - 0x80 }

  function Decode(e: seq<byte>): int
    requires 1 <= |e| <= 4
  {
    if |e| == 1 then e[0] as int
    else if |e| == 2 then (e[0] as int - 0xC0) * 64 + Payload(e[1])
    else if |e| == 3 then ((e[0] as int - 0xE0) * 64 + Payload(e[1])) * 64 + Payload(e[2])
    else (((e[0] as int - 0xF0) * 64 + Payload(e[1])) * 64 + Payload(e[2])) * 64 + Payload(e[3])
  }

  /** The bytes start with the encoding of a character. */
  predicate StartsWithCharacter(b: seq<byte>)
    requires b != []
  {
    var n := Width(b[0]);
    n <= |b| && IsScalar(Decode(b[..n])) && Encode(Decode(b[..n])) == b[..n]
  }

  predicate IsUtf8(b: seq<byte>)
    decreases |b|
  {
    b == [] || (StartsWithCharacter(b) && IsUtf8(b[Width(b[0])..]))
  }

  function DecodeAll(b: seq<byte>): (text: seq<scalar>)
    requires IsUtf8(b)
    decreases |b|
  {
    if b == [] then []
    else
      var n := Width(b[0]);
      [Decode(b[..n])] + DecodeAll(b[n..])
  }

  lemma EncodeIsInvertible(c: scalar)
    ensures var e := Encode(c);
            && Width(e[0]) == |e| && Decode(e) == c && !IsContinuation(e[0])
            && forall k :: 1 <= k < |e| ==> IsContinuation(e[k])
  {
    var high := c / 64;
    assert c == high * 64 + c % 64;
    assert high == high / 64 * 64 + high % 64;
    assert high / 64 == high / 64 / 64 * 64 + high / 64 % 64;
  }

  // The examples of section 7 of the standard, and one character of two bytes.
  lemma ExamplesOfTheStandard()
    ensures EncodeAll([0x41, 0x2262, 0x391, 0x2E]) == [0x41, 0xE2, 0x89, 0xA2, 0xCE, 0x91, 0x2E]
    ensures Encode(0xD55C) == [0xED, 0x95, 0x9C] && Encode(0x65E5) == [0xE6, 0x97, 0xA5]
    ensures Encode(0x233B4) == [0xF0, 0xA3, 0x8E, 0xB4] && Encode(0x7FF) == [0xDF, 0xBF]
  {
    assert EncodeAll([0x41, 0x2262, 0x391, 0x2E]) ==
      Encode(0x41) + (Encode(0x2262) + (Encode(0x391) + (Encode(0x2E) + [])));
  }

  lemma StartsWith(c: scalar, rest: seq<byte>)
    ensures StartsWithCharacter(Encode(c) + rest)
    ensures Width((Encode(c) + rest)[0]) == |Encode(c)|
    ensures IsUtf8(Encode(c) + rest) <==> IsUtf8(rest)
  {
    EncodeIsInvertible(c);
    var b := Encode(c) + rest;
    assert b[..|Encode(c)|] == Encode(c) && b[|Encode(c)|..] == rest;
  }

  /** The byte test for UTF-8 accepts exactly the encodings of character sequences. */
  lemma {:induction false} EncodedIsUtf8(text: seq<scalar>)
    ensures IsUtf8(EncodeAll(text)) && DecodeAll(EncodeAll(text)) == text
  {
    if text != [] {
      var rest := EncodeAll(text[1..]);
      StartsWith(text[0], rest);
      EncodeIsInvertible(text[0]);
      EncodedIsUtf8(text[1..]);
      var b := Encode(text[0]) + rest;
      assert b[..|Encode(text[0])|] == Encode(text[0]) && b[|Encode(text[0])|..] == rest;
    }
  }

  lemma {:induction false} Utf8IsEncoded(b: seq<byte>)
    requires IsUtf8(b)
    ensures EncodeAll(DecodeAll(b)) == b
    decreases |b|
  {
    if b != [] {
      var n := Width(b[0]);
      var first, rest := b[..n], b[n..];
      Utf8IsEncoded(rest);
      var text := [Decode(first)] + DecodeAll(rest);
      assert text[1..] == DecodeAll(rest);
      assert EncodeAll(text) == Encode(text[0]) + EncodeAll(text[1..]);
      assert b == first + rest;
    }
  }

  lemma {:induction false} AsciiIsUtf8(b: seq<byte>)
    requires forall i :: 0 <= i < |b| ==> b[i] < 0x80
    ensures IsUtf8(b)
    decreases |b|
  {
    if b != [] {
      var c: scalar := b[0] as int;
      assert b == Encode(c) + b[1..];
      StartsWith(c, b[1..]);
      AsciiIsUtf8(b[1..]);
    }
  }

  lemma {:induction false} ConcatIsUtf8(a: seq<byte>, b: seq<byte>)
    requires IsUtf8(a)
    ensures IsUtf8(a + b) <==> IsUtf8(b)
    decreases |a|
  {
    if a == [] {
      assert a + b == b;
    } else {
      var n := Width(a[0]);
      var first, rest := a[..n], a[n..];
      assert a == first + rest;
      ConcatIsUtf8(rest, b);
      StartsWith(Decode(first), rest + b);
      Regroup(first, rest, b);
    }
  }

  // ----- character boundaries -----

  predicate IsBoundary(b: seq<byte>, i: nat)
    requires i <= |b|
  {
    i == 0 || i == |b| || !IsContinuation(b[i])
  }

  // The first byte of a text starts a character, and a strict prefix of a character is not text.
  lemma FirstCharacter(b: seq<byte>, i: nat)
    requires b != [] && i <= |b| && StartsWithCharacter(b)
    ensures !IsContinuation(b[0])
    ensures 0 < i < Width(b[0]) ==> IsContinuation(b[i]) && !IsUtf8(b[..i])
  {
    var n := Width(b[0]);
    var c: scalar := Decode(b[..n]);
    EncodeIsInvertible(c);
    assert Encode(c) == b[..n];
    if 0 < i < n {
      assert Encode(c)[i] == b[i];
      assert b[..i][0] == b[0];
    }
  }

  /** Looking at one byte is enough: in a text, a position is between two characters iff the
      bytes before it are a text. */
  lemma {:induction false} BoundaryIsBetweenCharacters(b: seq<byte>, i: nat)
    requires IsUtf8(b) && i <= |b|
    ensures IsBoundary(b, i) <==> IsUtf8(b[..i])
    decreases |b|
  {
    if i > 0 {
      var n := Width(b[0]);
      FirstCharacter(b, i);
      if i >= n {
        var rest := b[n..];
        BoundaryIsBetweenCharacters(rest, i - n);
        if rest != [] {
          FirstCharacter(rest, 0);
        }
        SliceOfSlice(b, n, i - n);
        StartsWith(Decode(b[..n]), rest[..i - n]);
      }
    }
  }

  // ----- cutting -----

  datatype Bounded = Bounded(text: seq<byte>, truncated: bool)

  /** The last character boundary at or before `end`. */
  function LastBoundary(value: seq<byte>, end: nat): (i: nat)
    requires end <= |value|
    ensures i <= end && IsBoundary(value, i)
  {
    if IsBoundary(value, end) then end else LastBoundary(value, end - 1)
  }

  function Cut(whole: seq<byte>, limit: nat): Bounded {
    if |whole| <= limit then Bounded(whole, false)
    else Bounded(whole[..LastBoundary(whole, limit)], true)
  }

  function Push(output: Bounded, value: seq<byte>, limit: nat): Bounded {
    if output.truncated then output
    else
      var room := SaturatingSub(limit, |output.text|);
      if |value| <= room then Bounded(output.text + value, false)
      else Bounded(output.text + value[..LastBoundary(value, room)], true)
  }

  method PushBoundedText(output: seq<byte>, value: seq<byte>, limit: nat, truncated: bool)
    returns (output': seq<byte>, truncated': bool)
    ensures Bounded(output', truncated') == Push(Bounded(output, truncated), value, limit)
  {
    if truncated {
      return output, truncated;
    }
    var remaining := SaturatingSub(limit, |output|);
    if |value| <= remaining {
      return output + value, truncated;
    }
    var end: nat := Min(remaining, |value|);
    while end > 0 && !IsBoundary(value, end)
      invariant end <= remaining
      invariant LastBoundary(value, end) == LastBoundary(value, remaining)
    {
      end := end - 1;
    }
    return output + value[..end], true;
  }

  lemma {:induction false} NoBoundaryBetween(value: seq<byte>, end: nat, j: nat)
    requires LastBoundary.requires(value, end) && LastBoundary(value, end) < j <= end
    ensures !IsBoundary(value, j)
  {
    if j < end {
      NoBoundaryBetween(value, end - 1, j);
    }
  }

  /** What a cut is: the longest prefix that fits the limit and ends between two characters,
      flagged iff it is not everything. */
  lemma CutIsLongestFittingText(whole: seq<byte>, limit: nat, i: nat)
    requires IsUtf8(whole)
    ensures var cut := Cut(whole, limit);
            && cut.text <= whole && |cut.text| <= limit && IsUtf8(cut.text)
            && (cut.truncated <==> cut.text != whole)
            && (|cut.text| < i <= limit && i <= |whole| ==> !IsUtf8(whole[..i]))
  {
    var cut := Cut(whole, limit);
    if cut.truncated {
      BoundaryIsBetweenCharacters(whole, |cut.text|);
      if |cut.text| < i <= limit {
        NoBoundaryBetween(whole, limit, i);
        BoundaryIsBetweenCharacters(whole, i);
      }
    }
  }

  lemma {:induction false} BoundariesOfPrefix(whole: seq<byte>, more: seq<byte>, end: nat)
    requires end < |whole|
    ensures LastBoundary(whole + more, end) == LastBoundary(whole, end)
  {
    if !IsBoundary(whole, end) {
      BoundariesOfPrefix(whole, more, end - 1);
    }
  }

  lemma BoundaryOfSuffix(whole: seq<byte>, value: seq<byte>, end: nat)
    requires value != [] && !IsContinuation(value[0]) && end < |value|
    ensures IsBoundary(whole + value, |whole| + end) <==> IsBoundary(value, end)
  {
    assert (whole + value)[|whole| + end] == value[end];
  }

  lemma {:induction false} BoundariesOfSuffix(whole: seq<byte>, value: seq<byte>, end: nat)
    requires value != [] && !IsContinuation(value[0]) && end < |value|
    ensures LastBoundary(whole + value, |whole| + end) == |whole| + LastBoundary(value, end)
  {
    BoundaryOfSuffix(whole, value, end);
    if !IsBoundary(value, end) {
      BoundariesOfSuffix(whole, value, end - 1);
    }
  }

  lemma TakeBeyond(whole: seq<byte>, value: seq<byte>, end: nat)
    requires end <= |value|
    ensures (whole + value)[..|whole| + end] == whole + value[..end]
  {
  }

  // The first piece that does not fit.
  lemma PushCutsHere(whole: seq<byte>, value: seq<byte>, limit: nat)
    requires value != [] && !IsContinuation(value[0]) && |whole| <= limit < |whole| + |value|
    ensures Push(Bounded(whole, false), value, limit) == Cut(whole + value, limit)
  {
    var room := limit - |whole|;
    var end := LastBoundary(value, room);
    var all := whole + value;
    assert LastBoundary(all, limit) == |whole| + end by {
      BoundariesOfSuffix(whole, value, room);
    }
    TakeBeyond(whole, value, end);
  }

  // Pushing onto a cut text cuts the longer text.
  lemma PushCuts(whole: seq<byte>, value: seq<byte>, limit: nat)
    requires IsUtf8(value)
    ensures Push(Cut(whole, limit), value, limit) == Cut(whole + value, limit)
  {
    if |whole| > limit {
      CutStays(whole, value, limit);
    } else if |whole| + |value| > limit {
      FirstCharacter(value, 0);
      PushCutsHere(whole, value, limit);
    }
  }

  // Once cut, a text stays what it is, whatever would have followed.
  lemma CutStays(whole: seq<byte>, more: seq<byte>, limit: nat)
    requires |whole| > limit
    ensures Cut(whole + more, limit) == Cut(whole, limit)
  {
    BoundariesOfPrefix(whole, more, limit);
    var end := LastBoundary(whole, limit);
    assert (whole + more)[..end] == whole[..end];
  }

  function PushAll(output: Bounded, pieces: seq<seq<byte>>, limit: nat): Bounded
    decreases |pieces|
  {
    if pieces == [] then output else PushAll(Push(output, pieces[0], limit), pieces[1..], limit)
  }

  function Joined(pieces: seq<seq<byte>>): seq<byte> { FlatMap(Itself, pieces) }

  lemma {:induction false} PushAllCuts(whole: seq<byte>, pieces: seq<seq<byte>>, limit: nat)
    requires forall i :: 0 <= i < |pieces| ==> IsUtf8(pieces[i])
    ensures PushAll(Cut(whole, limit), pieces, limit) == Cut(whole + Joined(pieces), limit)
    decreases |pieces|
  {
    if pieces == [] {
      assert whole + Joined(pieces) == whole;
    } else {
      PushCuts(whole, pieces[0], limit);
      PushAllCuts(whole + pieces[0], pieces[1..], limit);
      assert Joined(pieces) == pieces[0] + Joined(pieces[1..]);
      Regroup(whole, pieces[0], Joined(pieces[1..]));
    }
  }

  /** Pushing texts one after the other keeps the longest prefix of their concatenation that fits
      and ends between two characters, however the text was divided. */
  lemma PushingPiecesCutsTheirConcatenation(pieces: seq<seq<byte>>, limit: nat)
    requires forall i :: 0 <= i < |pieces| ==> IsUtf8(pieces[i])
    ensures PushAll(Bounded([], false), pieces, limit) == Cut(Joined(pieces), limit)
  {
    PushAllCuts([], pieces, limit);
    assert [] + Joined(pieces) == Joined(pieces);
  }
}
