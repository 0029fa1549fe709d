/** The site-permission wildcard matcher of the Browser
    (crates/codex-platform/src/browser.rs, `wildcard_pattern_matches`).

    The greedy matcher only ever backtracks to the last star it met. It is proved
    equivalent to the declarative meaning of a pattern. */
module Wildcard {

  import opened Wrappers

  datatype Token = Star | Literal(expected: char)

  /** The tokens of a pattern: a star is a wildcard, a backslash makes the next
      character literal, and a backslash that ends the pattern is itself literal. */
  function Tokens(pattern: string): seq<Token> {
    if pattern == [] then []
    else if pattern[0] == '*' then [Star] + Tokens(pattern[1..])
    else if pattern[0] == '\\' then
      if |pattern| == 1 then [Literal('\\')] else [Literal(pattern[1])] + Tokens(pattern[2..])
    else [Literal(pattern[0])] + Tokens(pattern[1..])
  }

  /** The declarative meaning: a literal matches its character, a star any string. */
  ghost predicate Matches(tokens: seq<Token>, value: string)
    decreases |tokens|
  {
    if tokens == [] then value == []
    else match tokens[0]
      case Literal(c) => value != [] && value[0] == c && Matches(tokens[1..], value[1..])
      case Star => exists k :: 0 <= k <= |value| && Matches(tokens[1..], value[k..])
  }

  /** Some suffix of `value` that starts at `from` or later matches `tokens`. */
  ghost predicate MatchesFrom(tokens: seq<Token>, value: string, from: nat) {
    exists k :: from <= k <= |value| && Matches(tokens, value[k..])
  }

  /** The first `n` tokens are the literals that spell `value[from..from + n]`. */
  ghost predicate Spells(tokens: seq<Token>, n: nat, value: string, from: nat)
    requires n <= |tokens| && from + n <= |value|
  {
    forall i :: 0 <= i < n ==> tokens[i] == Literal(value[from + i])
  }

  ghost predicate AllLiteral(tokens: seq<Token>, n: nat)
    requires n <= |tokens|
  {
    forall i :: 0 <= i < n ==> tokens[i].Literal?
  }

  // A run of literals consumes exactly the characters it spells.
  lemma {:induction false} LiteralRun(tokens: seq<Token>, n: nat, value: string)
    requires n <= |tokens| && AllLiteral(tokens, n)
    ensures Matches(tokens, value) <==>
            n <= |value| && Spells(tokens, n, value, 0) && Matches(tokens[n..], value[n..])
  {
    if n == 0 {
      assert tokens[0..] == tokens && value[0..] == value;
    } else if value != [] {
      LiteralRun(tokens[1..], n - 1, value[1..]);
      assert tokens[1..][n - 1..] == tokens[n..];
      if n <= |value| {
        assert value[1..][n - 1..] == value[n..];
        assert Spells(tokens, n, value, 0) <==>
               tokens[0] == Literal(value[0]) && Spells(tokens[1..], n - 1, value[1..], 0) by {
          if tokens[0] == Literal(value[0]) && Spells(tokens[1..], n - 1, value[1..], 0) {
            forall i | 0 <= i < n ensures tokens[i] == Literal(value[i]) {
              if i > 0 { assert tokens[1..][i - 1] == Literal(value[1..][i - 1]); }
            }
          }
          if Spells(tokens, n, value, 0) {
            forall i | 0 <= i < n - 1 ensures tokens[1..][i] == Literal(value[1..][0 + i]) {
              assert tokens[i + 1] == Literal(value[i + 1]);
            }
          }
        }
      }
    }
  }

  /** At a new star the search may forget the earlier one: the literals between the
      two stars were found at their leftmost place, so every way to match the whole
      goes through the new star at or after the current position. */
  lemma NewStar(tokens: seq<Token>, n: nat, value: string, from: nat)
    requires n < |tokens| && tokens[n].Star? && from + n <= |value|
    requires Spells(tokens, n, value, from)
    ensures MatchesFrom(tokens, value, from) <==> MatchesFrom(tokens[n + 1..], value, from + n)
    ensures Matches(tokens, value[from..]) <==> MatchesFrom(tokens[n + 1..], value, from + n)
  {
    var rest := tokens[n + 1..];
    assert tokens[n..][1..] == rest;
    if MatchesFrom(rest, value, from + n) {
      var k :| from + n <= k <= |value| && Matches(rest, value[k..]);
      var tail := value[from..][n..];
      assert tail[k - (from + n)..] == value[k..];
      assert Matches(tokens[n..], tail);
      LiteralRun(tokens, n, value[from..]);
      assert Matches(tokens, value[from..]);
    }
    if MatchesFrom(tokens, value, from) {
      var k :| from <= k <= |value| && Matches(tokens, value[k..]);
      LiteralRun(tokens, n, value[k..]);
      var tail := value[k..][n..];
      var j :| 0 <= j <= |tail| && Matches(tokens[n..][1..], tail[j..]);
      assert tail[j..] == value[k + n + j..];
    }
    if Matches(tokens, value[from..]) {
      assert MatchesFrom(tokens, value, from);
    }
  }

  /** A literal that does not fit (or characters left over after the last token)
      rules out the current start, and no other. */
  lemma FailedAttempt(tokens: seq<Token>, n: nat, value: string, from: nat)
    requires n <= |tokens| && from + n < |value|
    requires Spells(tokens, n, value, from)
    requires n < |tokens| ==> tokens[n].Literal? && tokens[n].expected != value[from + n]
    ensures !Matches(tokens, value[from..])
    ensures MatchesFrom(tokens, value, from) <==> MatchesFrom(tokens, value, from + 1)
  {
    LiteralRun(tokens, n, value[from..]);
    assert value[from..][n..] == value[from + n..];
  }

  lemma {:induction false} OnlyStarsMatchEmpty(tokens: seq<Token>)
    ensures Matches(tokens, []) <==> forall i :: 0 <= i < |tokens| ==> tokens[i].Star?
  {
    if tokens != [] {
      OnlyStarsMatchEmpty(tokens[1..]);
      var empty: string := [];
      assert empty[0..] == empty;
      if tokens[0].Star? {
        assert Matches(tokens, []) <==> Matches(tokens[1..], []);
        assert forall i :: 0 < i < |tokens| ==> tokens[i] == tokens[1..][i - 1];
      }
    }
  }

  /** When the value is used up the remaining tokens decide: a later start would
      leave too few characters for the literals already spelled. */
  lemma ValueExhausted(tokens: seq<Token>, n: nat, value: string, from: nat)
    requires n <= |tokens| && from + n == |value|
    requires Spells(tokens, n, value, from)
    ensures Matches(tokens, value[from..]) <==> forall i :: n <= i < |tokens| ==> tokens[i].Star?
    ensures MatchesFrom(tokens, value, from) <==> Matches(tokens, value[from..])
  {
    LiteralRun(tokens, n, value[from..]);
    assert value[from..][n..] == [];
    OnlyStarsMatchEmpty(tokens[n..]);
    assert forall i :: n <= i < |tokens| ==> tokens[i] == tokens[n..][i - n];
    assert Spells(tokens, n, value[from..], 0);
    if MatchesFrom(tokens, value, from) {
      var k :| from <= k <= |value| && Matches(tokens, value[k..]);
      LiteralRun(tokens, n, value[k..]);
      assert k == from;
    }
  }

  // The first token of what is left, and where it ends.
  lemma TokensStep(pattern: string, next: nat)
    requires next < |pattern|
    ensures var rest := Tokens(pattern[next..]);
            if pattern[next] == '*' then rest == [Star] + Tokens(pattern[next + 1..])
            else if pattern[next] != '\\' then rest == [Literal(pattern[next])] + Tokens(pattern[next + 1..])
            else if next + 1 == |pattern| then rest == [Literal('\\')]
            else rest == [Literal(pattern[next + 1])] + Tokens(pattern[next + 2..])
  {
    var rest := pattern[next..];
    assert rest[1..] == pattern[next + 1..];
    if |rest| > 1 {
      assert rest[2..] == pattern[next + 2..];
    }
  }

  lemma MoveToken(tokens: seq<Token>, token: Token, rest: seq<Token>, all: seq<Token>)
    requires tokens + ([token] + rest) == all
    ensures (tokens + [token]) + rest == all
  {
    assert (tokens + [token]) + rest == tokens + ([token] + rest);
  }

  method Tokenise(pattern: string) returns (tokens: seq<Token>)
    ensures tokens == Tokens(pattern)
  {
    tokens := [];
    var next := 0;
    while next < |pattern|
      invariant 0 <= next <= |pattern|
      invariant tokens + Tokens(pattern[next..]) == Tokens(pattern)
    {
      TokensStep(pattern, next);
      var character := pattern[next];
      ghost var before := tokens;
      next := next + 1;
      var token := Literal(character);
      if character == '*' {
        token := Star;
      } else if character == '\\' && next < |pattern| {
        token := Literal(pattern[next]);
        next := next + 1;
      }
      tokens := tokens + [token];
      MoveToken(before, token, Tokens(pattern[next..]), Tokens(pattern));
    }
    assert Tokens(pattern[next..]) == [];
  }

  /** What the matcher knows between two iterations. The tokens from `start` (the one
      after the last star, or 0) to `token` are literals spelling `value[from..at]`, and the
      pattern matches iff the tokens from `start` match some suffix at `from` or later
      (exactly at `from` while no star was met). */
  ghost predicate Searching(tokens: seq<Token>, value: string, start: nat, token: nat, from: nat, at: nat) {
    && start <= token <= |tokens|
    && from <= at <= |value|
    && token - start == at - from
    && (start == 0 ==> from == 0)
    && Spells(tokens[start..], token - start, value, from)
    && (Matches(tokens, value) <==>
        if start == 0 then Matches(tokens[start..], value[from..]) else MatchesFrom(tokens[start..], value, from))
  }

  lemma SearchBegins(tokens: seq<Token>, value: string)
    ensures Searching(tokens, value, 0, 0, 0, 0)
  {
    assert tokens[0..] == tokens && value[0..] == value;
  }

  lemma SearchTakesLiteral(tokens: seq<Token>, value: string, start: nat, token: nat, from: nat, at: nat)
    requires Searching(tokens, value, start, token, from, at)
    requires token < |tokens| && at < |value| && tokens[token] == Literal(value[at])
    ensures Searching(tokens, value, start, token + 1, from, at + 1)
  {
    assert tokens[start..][token - start] == tokens[token];
  }

  lemma SearchMeetsStar(tokens: seq<Token>, value: string, start: nat, token: nat, from: nat, at: nat)
    requires Searching(tokens, value, start, token, from, at)
    requires token < |tokens| && tokens[token].Star?
    ensures Searching(tokens, value, token + 1, token + 1, at, at)
  {
    NewStar(tokens[start..], token - start, value, from);
    assert tokens[start..][token - start + 1..] == tokens[token + 1..];
  }

  lemma SearchRetries(tokens: seq<Token>, value: string, start: nat, token: nat, from: nat, at: nat)
    requires Searching(tokens, value, start, token, from, at) && at < |value|
    requires token < |tokens| ==> tokens[token].Literal? && tokens[token].expected != value[at]
    ensures if start == 0 then !Matches(tokens, value) else Searching(tokens, value, start, start, from + 1, from + 1)
  {
    FailedAttempt(tokens[start..], token - start, value, from);
  }

  lemma SearchEnds(tokens: seq<Token>, value: string, start: nat, token: nat, from: nat)
    requires Searching(tokens, value, start, token, from, |value|)
    ensures Matches(tokens, value) <==> forall i :: token <= i < |tokens| ==> tokens[i].Star?
  {
    ValueExhausted(tokens[start..], token - start, value, from);
    assert forall i :: token <= i < |tokens| ==> tokens[i] == tokens[start..][i - start];
    assert forall i :: token - start <= i < |tokens| - start ==> tokens[start..][i] == tokens[start + i];
  }

  method WildcardPatternMatches(pattern: string, value: string) returns (matched: bool)
    ensures matched <==> Matches(Tokens(pattern), value)
  {
    var tokens := Tokenise(pattern);
    var tokenIndex: nat, valueIndex: nat := 0, 0;
    var lastStar: Option<nat> := None;
    var lastStarValueIndex: nat := 0;
    ghost var start := 0;
    SearchBegins(tokens, value);
    while valueIndex < |value|
      invariant Searching(tokens, value, start, tokenIndex, lastStarValueIndex, valueIndex)
      invariant lastStar == if start == 0 then None else Some(start - 1)
      decreases |tokens| - start, |value| - lastStarValueIndex, |value| - valueIndex
    {
      if tokenIndex < |tokens| && tokens[tokenIndex] == Literal(value[valueIndex]) {
        SearchTakesLiteral(tokens, value, start, tokenIndex, lastStarValueIndex, valueIndex);
        tokenIndex := tokenIndex + 1;
        valueIndex := valueIndex + 1;
      } else if tokenIndex < |tokens| && tokens[tokenIndex].Star? {
        SearchMeetsStar(tokens, value, start, tokenIndex, lastStarValueIndex, valueIndex);
        lastStar := Some(tokenIndex);
        tokenIndex := tokenIndex + 1;
        lastStarValueIndex := valueIndex;
        start := tokenIndex;
      } else {
        SearchRetries(tokens, value, start, tokenIndex, lastStarValueIndex, valueIndex);
        if lastStar.None? {
          return false;
        }
        lastStarValueIndex := lastStarValueIndex + 1;
        valueIndex := lastStarValueIndex;
        tokenIndex := lastStar.value + 1;
      }
    }
    SearchEnds(tokens, value, start, tokenIndex, lastStarValueIndex);
    matched := forall i :: tokenIndex <= i < |tokens| ==> tokens[i].Star?;
  }

  /** A text with every star and backslash escaped. */
  function Escape(text: string): string {
    if text == [] then []
    else (if text[0] == '*' || text[0] == '\\' then ['\\', text[0]] else [text[0]]) + Escape(text[1..])
  }

  // The escaping rule does what it is for: an escaped text matches itself and nothing else.
  lemma {:induction false} EscapedMatchesOnlyItself(text: string, value: string)
    ensures Matches(Tokens(Escape(text)), value) <==> value == text
  {
    if text != [] {
      var escaped := Escape(text);
      var rest := Escape(text[1..]);
      assert Tokens(escaped) == [Literal(text[0])] + Tokens(rest) by {
        if text[0] == '*' || text[0] == '\\' {
          assert escaped == ['\\', text[0]] + rest && escaped[2..] == rest;
        } else {
          assert escaped == [text[0]] + rest && escaped[1..] == rest;
        }
      }
      assert Tokens(escaped)[1..] == Tokens(rest);
      if value != [] {
        EscapedMatchesOnlyItself(text[1..], value[1..]);
        assert value == [value[0]] + value[1..] && text == [text[0]] + text[1..];
      }
    }
  }
}
