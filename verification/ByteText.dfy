/** Lines, separated fields and decimal numbers in byte strings. */
module ByteText {

  import opened Bytes
  import opened Wrappers

  // '0'
  const ZERO: byte := 48

  // ----- lines -----

  /** The bytes of the first line, its newline included; all of them when there is none. */
  function LineLength(data: seq<byte>): (n: nat)
    ensures n <= |data| && (n == 0 <==> data == [])
    ensures n > 0 ==> LF !in data[..n - 1]
    ensures n < |data| || LF in data ==> data[n - 1] == LF
  {
    if data == [] then 0 else if data[0] == LF then 1 else 1 + LineLength(data[1..])
  }

  /** A line without its newline and one carriage return before it; a tail that ends with the
      stream is left as it is. */
  function Stripped(line: seq<byte>): seq<byte> {
    if line == [] || line[|line| - 1] != LF then line
    else
      var text := line[..|line| - 1];
      if text != [] && text[|text| - 1] == CR then text[..|text| - 1] else text
  }

  lemma {:induction false} LineLengthSplit(first: seq<byte>, rest: seq<byte>)
    requires LF !in first
    ensures LineLength(first + rest) == |first| + LineLength(rest)
  {
    if first == [] {
      assert first + rest == rest;
    } else {
      assert (first + rest)[1..] == first[1..] + rest;
      LineLengthSplit(first[1..], rest);
    }
  }

  lemma {:induction false} LineLengthAtNewline(first: seq<byte>, rest: seq<byte>)
    requires first != [] && first[|first| - 1] == LF
    requires LF !in first[..|first| - 1]
    ensures LineLength(first + rest) == |first|
  {
    var text := first[..|first| - 1];
    assert first + rest == text + ([LF] + rest);
    LineLengthSplit(text, [LF] + rest);
  }

  // ----- separated fields -----

  /** The pieces between separators; always at least one. */
  function Split(s: seq<byte>, sep: byte): (pieces: seq<seq<byte>>)
    ensures pieces != []
  {
    if s == [] then [[]]
    else
      var rest := Split(s[1..], sep);
      if s[0] == sep then [[]] + rest else [[s[0]] + rest[0]] + rest[1..]
  }

  lemma {:induction false} SplitAtSeparator(first: seq<byte>, rest: seq<byte>, sep: byte)
    requires sep !in first
    ensures Split(first + [sep] + rest, sep) == [first] + Split(rest, sep)
  {
    var s := first + [sep] + rest;
    if first == [] {
      assert s[1..] == rest;
    } else {
      assert s[1..] == first[1..] + [sep] + rest;
      SplitAtSeparator(first[1..], rest, sep);
      assert [first[0]] + first[1..] == first;
    }
  }

  /** Every record is ended by a NUL. */
  function Ended(records: seq<seq<byte>>): seq<byte> {
    if records == [] then [] else records[0] + [NUL] + Ended(records[1..])
  }

  lemma {:induction false} SplitEnded(records: seq<seq<byte>>)
    requires forall i :: 0 <= i < |records| ==> NUL !in records[i]
    ensures Split(Ended(records), NUL) == records + [[]]
  {
    if records != [] {
      SplitEnded(records[1..]);
      SplitAtSeparator(records[0], Ended(records[1..]), NUL);
    }
  }

  // ----- texts -----

  /** The bytes of an ASCII text. */
  function Plain(s: string): (b: seq<byte>)
    ensures |b| == |s|
    ensures forall i :: 0 <= i < |s| ==> b[i] == if s[i] < 128 as char then s[i] as byte else 63
  {
    seq(|s|, i requires 0 <= i < |s| => if s[i] < 128 as char then s[i] as byte else 63)
  }

  lemma PlainConcat(s: string, t: string)
    ensures Plain(s + t) == Plain(s) + Plain(t)
  {
  }

  // ----- decimal numbers -----

  function Digits(n: nat): (d: seq<byte>)
    ensures d != []
  {
    if n < 10 then [ZERO + n as byte] else Digits(n / 10) + [ZERO + (n % 10) as byte]
  }

  predicate IsDigit(b: byte) { ZERO <= b < ZERO + 10 }

  function ValueOf(d: seq<byte>): Option<nat> {
    if d == [] then Some(0)
    else if !IsDigit(d[|d| - 1]) then None
    else
      match ValueOf(d[..|d| - 1])
      case None => None
      case Some(high) => Some(10 * high + (d[|d| - 1] - ZERO) as nat)
  }

  lemma {:induction false} DigitsRoundTrip(n: nat)
    ensures ValueOf(Digits(n)) == Some(n)
    ensures forall b :: b in Digits(n) ==> IsDigit(b)
  {
    if n >= 10 {
      DigitsRoundTrip(n / 10);
      var d := Digits(n);
      assert d[..|d| - 1] == Digits(n / 10);
    } else {
      assert ValueOf([]) == Some(0);
    }
  }

  // Digits are the usual ones, the highest first.
  lemma DigitsAreDecimal(n: nat)
    requires n < 10
    ensures Digits(n) == [Plain("0123456789")[n]]
    ensures forall m :: m > 0 ==> Digits(10 * m + n) == Digits(m) + Digits(n)
  {
    assert Plain("0123456789")[n] == "0123456789"[n] as byte;
  }

  // Nothing but digits is a number.
  lemma {:induction false} OnlyDigitsAreNumbers(d: seq<byte>)
    ensures ValueOf(d).Some? <==> forall b: byte :: b in d ==> IsDecimal(b)
  {
    if d != [] {
      var first, last := d[..|d| - 1], d[|d| - 1];
      OnlyDigitsAreNumbers(first);
      assert d == first + [last];
      assert IsDigit(last) <==> IsDecimal(last);
      assert forall b: byte :: b in d <==> b in first || b == last;
    }
  }

  predicate IsDecimal(b: byte) { '0' <= b as char <= '9' }
}
