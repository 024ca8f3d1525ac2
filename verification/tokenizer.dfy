/** Splitting one line of assembly text into tokens: `split_string`.
    A token is a maximal run of characters other than space, tab and `#`;
    the first `#` outside or inside a token ends the line. */
module Tokenizer {

  /** The characters `split_string` skips between tokens. */
  predicate IsBlank(c: char) {
    c == ' ' || c == '\t'
  }

  /** The characters that end a token: a blank or the comment marker. */
  predicate IsDelimiter(c: char) {
    IsBlank(c) || c == '#'
  }

  /** What `split_string` can return as one element. */
  predicate IsToken(w: string) {
    w != [] && forall k :: 0 <= k < |w| ==> !IsDelimiter(w[k])
  }

  predicate AllTokens(ws: seq<string>) {
    forall i :: 0 <= i < |ws| ==> IsToken(ws[i])
  }

  /** Length of the longest prefix of `s` holding no delimiter. */
  function RunLength(s: string): (n: nat)
    ensures n <= |s|
    ensures forall k :: 0 <= k < n ==> !IsDelimiter(s[k])
    ensures n < |s| ==> IsDelimiter(s[n])
  {
    if s == [] || IsDelimiter(s[0]) then 0 else 1 + RunLength(s[1..])
  }

  /** The tokens of a line, in source order: the reference definition
      that `SplitString` is proved against. */
  function Tokens(s: string): seq<string>
    decreases |s|
  {
    if s == [] || s[0] == '#' then []
    else if IsBlank(s[0]) then Tokens(s[1..])
    else
      var n := RunLength(s);
      [s[..n]] + Tokens(s[n..])
  }

  /** The tokens joined by single spaces: the inverse of `Tokens`. */
  function Join(ws: seq<string>): string {
    if ws == [] then "" else if |ws| == 1 then ws[0] else ws[0] + " " + Join(ws[1..])
  }

  /** A line is blank when every character before the first `#` is a blank. */
  predicate IsBlankLine(s: string) {
    forall k :: 0 <= k < |s| ==> IsBlank(s[k]) || '#' in s[..k + 1]
  }

  // ---------------------------------------------------------------------
  // The loop of split_string, proved against Tokens.

  /** `split_string`: walks the line with a token start index that is -1
      between tokens, and pushes each token when a delimiter or the end of
      the line closes it. */
  method SplitString(raw: string) returns (tokens: seq<string>)
    ensures tokens == Tokens(raw)
  {
    tokens := [];
    var tokenStart := -1;
    for i := 0 to |raw|
      invariant tokenStart == -1 || 0 <= tokenStart < i
      invariant tokenStart == -1 ==> tokens + Tokens(raw[i..]) == Tokens(raw)
      invariant tokenStart != -1 ==>
        && tokens + Tokens(raw[tokenStart..]) == Tokens(raw)
        && Plain(raw, tokenStart, i)
    {
      var ch := raw[i];
      if tokenStart == -1 {
        if ch == '#' {
          CommentEnds(raw, tokens, i);
          break;
        }
        if IsBlank(ch) {
          BlankStep(raw, tokens, i);
          continue;
        }
        tokenStart := i;
        PlainStep(raw, i, i);
      } else {
        if ch == '#' || IsBlank(ch) {
          CloseStep(raw, tokens, tokenStart, i);
          tokens := tokens + [raw[tokenStart..i]];
          tokenStart := -1;
          if ch == '#' {
            CommentEnds(raw, tokens, i);
            break;
          }
          BlankStep(raw, tokens, i);
        } else {
          PlainStep(raw, tokenStart, i);
        }
      }
    }
    if tokenStart != -1 {
      LastToken(raw, tokens, tokenStart);
      tokens := tokens + [raw[tokenStart..]];
    } else {
      EndReached(raw, tokens);
    }
  }

  // One lemma per step of the loop of split_string.

  lemma CommentEnds(raw: string, tokens: seq<string>, i: nat)
    requires i < |raw| && raw[i] == '#'
    requires tokens + Tokens(raw[i..]) == Tokens(raw)
    ensures tokens == Tokens(raw)
  {
    CommentStops(raw, i);
    assert tokens + [] == tokens;
  }

  lemma BlankStep(raw: string, tokens: seq<string>, i: nat)
    requires i < |raw| && IsBlank(raw[i])
    requires tokens + Tokens(raw[i..]) == Tokens(raw)
    ensures tokens + Tokens(raw[i + 1..]) == Tokens(raw)
  {
    BlankSkipped(raw, i);
  }

  lemma CloseStep(raw: string, tokens: seq<string>, start: nat, i: nat)
    requires start < i < |raw| && IsDelimiter(raw[i])
    requires Plain(raw, start, i)
    requires tokens + Tokens(raw[start..]) == Tokens(raw)
    ensures (tokens + [raw[start..i]]) + Tokens(raw[i..]) == Tokens(raw)
  {
    TokenCloses(raw, start, i);
    PushToken(tokens, raw[start..i], Tokens(raw[i..]));
  }

  lemma LastToken(raw: string, tokens: seq<string>, start: nat)
    requires start < |raw|
    requires Plain(raw, start, |raw|)
    requires tokens + Tokens(raw[start..]) == Tokens(raw)
    ensures tokens + [raw[start..]] == Tokens(raw)
  {
    TokenCloses(raw, start, |raw|);
    assert raw[|raw|..] == [];
    assert raw[start..|raw|] == raw[start..];
    assert Tokens(raw[start..]) == [raw[start..]];
  }

  lemma EndReached(raw: string, tokens: seq<string>)
    requires tokens + Tokens(raw[|raw|..]) == Tokens(raw)
    ensures tokens == Tokens(raw)
  {
    assert raw[|raw|..] == [];
    assert tokens + [] == tokens;
  }

  /** No character of `s[lo..hi]` is a delimiter. */
  predicate Plain(s: string, lo: nat, hi: nat)
    requires lo <= hi <= |s|
  {
    forall k :: lo <= k < hi ==> !IsDelimiter(s[k])
  }

  lemma PlainStep(s: string, lo: nat, i: nat)
    requires lo <= i < |s| && !IsDelimiter(s[i]) && Plain(s, lo, i)
    ensures Plain(s, lo, i + 1)
  {
  }

  lemma PushToken(tokens: seq<string>, token: string, rest: seq<string>)
    ensures tokens + ([token] + rest) == (tokens + [token]) + rest
  {
  }

  lemma CommentStops(s: string, i: nat)
    requires i < |s| && s[i] == '#'
    ensures Tokens(s[i..]) == []
  {
  }

  lemma BlankSkipped(s: string, i: nat)
    requires i < |s| && IsBlank(s[i])
    ensures Tokens(s[i..]) == Tokens(s[i + 1..])
  {
    assert s[i..][1..] == s[i + 1..];
  }

  /** A delimiter at `i` (or the end of the line) closes the token that
      started at `start`. */
  lemma TokenCloses(s: string, start: nat, i: nat)
    requires start < i <= |s|
    requires forall k :: start <= k < i ==> !IsDelimiter(s[k])
    requires i == |s| || IsDelimiter(s[i])
    ensures Tokens(s[start..]) == [s[start..i]] + Tokens(s[i..])
  {
    RunSplits(s[start..], i - start);
    assert s[start..][..i - start] == s[start..i];
    assert s[start..][i - start..] == s[i..];
  }

  // ---------------------------------------------------------------------
  // Helper facts about RunLength and Tokens.

  lemma {:induction false} RunLengthIs(s: string, n: nat)
    requires n <= |s|
    requires forall k :: 0 <= k < n ==> !IsDelimiter(s[k])
    requires n == |s| || IsDelimiter(s[n])
    ensures RunLength(s) == n
    decreases n
  {
    if n > 0 {
      RunLengthIs(s[1..], n - 1);
    }
  }

  /** A delimiter-free run of length n closed by a delimiter or the end of
      the line is the line's first token. */
  lemma RunSplits(s: string, n: nat)
    requires 0 < n <= |s|
    requires forall k :: 0 <= k < n ==> !IsDelimiter(s[k])
    requires n == |s| || IsDelimiter(s[n])
    ensures Tokens(s) == [s[..n]] + Tokens(s[n..])
  {
    RunLengthIs(s, n);
  }

  /** RunLength does not see past a delimiter that follows `a`. */
  lemma {:induction false} RunLengthBefore(a: string, d: char, b: string)
    requires IsDelimiter(d)
    ensures RunLength(a + [d] + b) == RunLength(a)
    decreases |a|
  {
    if a != [] && !IsDelimiter(a[0]) {
      assert (a + [d] + b)[1..] == a[1..] + [d] + b;
      RunLengthBefore(a[1..], d, b);
    }
  }

  // ---------------------------------------------------------------------
  // Properties of the tokenizer.

  /** Every token is non-empty and holds no space, tab or `#`. */
  lemma {:induction false} TokensAreTokens(s: string)
    ensures AllTokens(Tokens(s))
    decreases |s|
  {
    if s == [] || s[0] == '#' {
    } else if IsBlank(s[0]) {
      TokensAreTokens(s[1..]);
    } else {
      TokensAreTokens(s[RunLength(s)..]);
    }
  }

  /** Text after a `#` contributes nothing, whatever precedes it. */
  lemma {:induction false} CommentIgnored(a: string, b: string)
    ensures Tokens(a + "#" + b) == Tokens(a)
    decreases |a|
  {
    var s := a + "#" + b;
    if a == [] || a[0] == '#' {
    } else if IsBlank(a[0]) {
      assert s[1..] == a[1..] + "#" + b;
      CommentIgnored(a[1..], b);
    } else {
      RunLengthBefore(a, '#', b);
      var n := RunLength(a);
      assert s[..n] == a[..n];
      assert s[n..] == a[n..] + "#" + b;
      CommentIgnored(a[n..], b);
    }
  }

  /** Tokens are found in source order: the tokens of two pieces of text
      separated by a space are those of the first piece, then those of the
      second, provided the first piece holds no comment. */
  lemma {:induction false} TokensOfSpaced(a: string, b: string)
    requires '#' !in a
    ensures Tokens(a + " " + b) == Tokens(a) + Tokens(b)
    decreases |a|
  {
    var s := a + " " + b;
    if a == [] {
      assert s[1..] == b;
    } else if IsBlank(a[0]) {
      assert s[1..] == a[1..] + " " + b;
      TokensOfSpaced(a[1..], b);
    } else {
      RunLengthBefore(a, ' ', b);
      var n := RunLength(a);
      assert s[..n] == a[..n];
      assert s[n..] == a[n..] + " " + b;
      TokensOfSpaced(a[n..], b);
    }
  }

  /** A line yields no token exactly when it is blank or comment-only. */
  lemma {:induction false} NoTokensIffBlank(s: string)
    ensures Tokens(s) == [] <==> IsBlankLine(s)
    decreases |s|
  {
    if s == [] {
    } else if s[0] == '#' {
      forall k | 0 <= k < |s| ensures IsBlank(s[k]) || '#' in s[..k + 1] {
        assert s[..k + 1][0] == '#';
      }
    } else if IsBlank(s[0]) {
      NoTokensIffBlank(s[1..]);
      forall k | 1 <= k < |s|
        ensures ('#' in s[..k + 1]) == ('#' in s[1..][..k])
      {
        assert s[..k + 1] == [s[0]] + s[1..][..k];
      }
      if IsBlankLine(s[1..]) {
        forall k | 0 <= k < |s| ensures IsBlank(s[k]) || '#' in s[..k + 1] {
          if k > 0 {
            assert s[k] == s[1..][k - 1];
          }
        }
      } else {
        var k :| 0 <= k < |s[1..]| && !(IsBlank(s[1..][k]) || '#' in s[1..][..k + 1]);
        assert !(IsBlank(s[k + 1]) || '#' in s[..k + 2]);
      }
    } else {
      assert !(IsBlank(s[0]) || '#' in s[..1]);
    }
  }

  /** A single token is its own tokenization. */
  lemma TokenAlone(w: string)
    requires IsToken(w)
    ensures Tokens(w) == [w]
  {
    RunSplits(w, |w|);
    assert w[..|w|] == w;
    assert w[|w|..] == [];
  }

  /** Round trip: tokenizing tokens joined by single spaces gives them back. */
  lemma {:induction false} TokensOfJoin(ws: seq<string>)
    requires AllTokens(ws)
    ensures Tokens(Join(ws)) == ws
    decreases |ws|
  {
    if |ws| == 1 {
      TokenAlone(ws[0]);
    } else if |ws| > 1 {
      TokenAlone(ws[0]);
      TokensOfSpaced(ws[0], Join(ws[1..]));
      TokensOfJoin(ws[1..]);
      assert ws == [ws[0]] + ws[1..];
    }
  }

  /** A trailing blank changes nothing (the catalog row "mult rs rt "). */
  lemma TrailingBlankIgnored(a: string)
    requires '#' !in a
    ensures Tokens(a + " ") == Tokens(a)
  {
    TokensOfSpaced(a, "");
    assert a + " " + "" == a + " ";
  }
}
