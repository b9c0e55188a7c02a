/** The argument vector: tokenizeString splits the command line with
    strtok(" \n") and ends the vector with a NULL pointer; exec later takes the
    vector up to its first NULL. */
module Tokens {

  /** One slot of the C argument vector: a NULL pointer or a token. */
  datatype Arg = Null | Tok(text: string)

  /** The delimiter set passed to strtok. */
  predicate IsDelimiter(c: char) {
    c == ' ' || c == '\n'
  }

  predicate DelimiterFree(t: string) {
    forall i :: 0 <= i < |t| ==> !IsDelimiter(t[i])
  }

  /** The length of the run of non-delimiters at the start of s. */
  function RunLength(s: string): (n: nat)
    ensures n <= |s|
    ensures DelimiterFree(s[..n])
    ensures n < |s| ==> IsDelimiter(s[n])
  {
    if s == [] || IsDelimiter(s[0]) then 0
    else
      var n := 1 + RunLength(s[1..]);
      assert s[..n] == [s[0]] + s[1..][..n - 1];
      n
  }

  /** The tokens strtok returns one by one: each run of non-delimiters. */
  function Tokenize(s: string): seq<string>
    decreases |s|
  {
    if s == [] then []
    else if IsDelimiter(s[0]) then Tokenize(s[1..])
    else
      var n := RunLength(s);
      [s[..n]] + Tokenize(s[n..])
  }

  /** The vector tokenizeString builds: the tokens, then a NULL. */
  function Argv(tokens: seq<string>): (a: seq<Arg>)
    ensures |a| == |tokens| + 1 && a[|tokens|] == Null
    ensures forall i :: 0 <= i < |tokens| ==> a[i] == Tok(tokens[i])
  {
    seq(|tokens|, i requires 0 <= i < |tokens| => Tok(tokens[i])) + [Null]
  }

  /** The argument list a consumer of a NULL-terminated vector sees: the
      tokens before the first NULL. */
  function Prefix(a: seq<Arg>): (p: seq<string>)
    ensures |p| <= |a|
    ensures forall k :: 0 <= k < |p| ==> a[k] == Tok(p[k])
    ensures |p| < |a| ==> a[|p|] == Null
    ensures Null in a ==> |p| < |a|
  {
    if a == [] || a[0].Null? then []
    else
      var p := [a[0].text] + Prefix(a[1..]);
      assert forall k :: 1 <= k < |p| ==> a[k] == a[1..][k - 1];
      p
  }

  function Flatten(ts: seq<string>): string {
    if ts == [] then [] else ts[0] + Flatten(ts[1..])
  }

  function NonDelimiters(s: string): string {
    if s == [] then []
    else (if IsDelimiter(s[0]) then [] else [s[0]]) + NonDelimiters(s[1..])
  }

  /** The tokens separated by single spaces, as a user would type them. */
  function JoinSpaces(ts: seq<string>): string {
    if ts == [] then []
    else if |ts| == 1 then ts[0]
    else ts[0] + " " + JoinSpaces(ts[1..])
  }

  predicate DelimitersOnly(d: string) {
    forall i :: 0 <= i < |d| ==> IsDelimiter(d[i])
  }

  /** The runs of delimiters around the tokens of s: one before the first
      token, one between each two, one after the last. */
  function Separators(s: string): (ds: seq<string>)
    ensures |ds| > 0
    ensures s != [] && IsDelimiter(s[0]) ==> ds[0] != []
    decreases |s|
  {
    if s == [] then [[]]
    else if IsDelimiter(s[0]) then
      var r := Separators(s[1..]);
      [[s[0]] + r[0]] + r[1..]
    else [[]] + Separators(s[RunLength(s)..])
  }

  /** ds[0] + ts[0] + ds[1] + ... + ts[n-1] + ds[n]. */
  function Interleave(ds: seq<string>, ts: seq<string>): string
    requires |ds| == |ts| + 1
    decreases |ts|
  {
    if ts == [] then ds[0] else ds[0] + ts[0] + Interleave(ds[1..], ts[1..])
  }

  lemma InterleavePrefix(c: string, d: string, rest: seq<string>, ts: seq<string>)
    requires |rest| == |ts|
    ensures Interleave([c + d] + rest, ts) == c + Interleave([d] + rest, ts)
  {
    if ts != [] {
      assert ([c + d] + rest)[1..] == rest && ([d] + rest)[1..] == rest;
    }
  }

  /** strtok's tokens are the maximal runs of non-delimiters: the line is
      the tokens with delimiter-only separators around them, and the
      separator between two tokens is never empty, so no token could be
      longer and no two tokens sit side by side. */
  lemma TokensMaximal(s: string)
    ensures var ts := Tokenize(s);
            var ds := Separators(s);
            && |ds| == |ts| + 1
            && (forall i :: 0 <= i < |ds| ==> DelimitersOnly(ds[i]))
            && (forall i :: 0 < i < |ts| ==> ds[i] != [])
            && s == Interleave(ds, ts)
  {
    SeparatorsShape(s);
    SeparatorsRebuild(s);
  }

  lemma {:induction false} SeparatorsShape(s: string)
    ensures var ts := Tokenize(s);
            var ds := Separators(s);
            && |ds| == |ts| + 1
            && (forall i :: 0 <= i < |ds| ==> DelimitersOnly(ds[i]))
            && (forall i :: 0 < i < |ts| ==> ds[i] != [])
    decreases |s|
  {
    if s == [] {
    } else if IsDelimiter(s[0]) {
      var t := s[1..];
      SeparatorsShape(t);
      var r := Separators(t);
      var ts := Tokenize(t);
      var ds := Separators(s);
      assert ds == [[s[0]] + r[0]] + r[1..];
      forall i | 0 <= i < |ds| ensures DelimitersOnly(ds[i]) {
        if i > 0 {
          assert ds[i] == r[i];
        }
      }
      forall i | 0 < i < |ts| ensures ds[i] != [] {
        assert ds[i] == r[i];
      }
    } else {
      var n := RunLength(s);
      var t := s[n..];
      SeparatorsShape(t);
      var r := Separators(t);
      var ts := Tokenize(s);
      var ds := Separators(s);
      assert ds == [[]] + r;
      forall i | 0 <= i < |ds| ensures DelimitersOnly(ds[i]) {
        if i > 0 {
          assert ds[i] == r[i - 1];
        }
      }
      forall i | 0 < i < |ts| ensures ds[i] != [] {
        assert ds[i] == r[i - 1];
      }
    }
  }

  lemma {:induction false} SeparatorsRebuild(s: string)
    requires |Separators(s)| == |Tokenize(s)| + 1
    ensures s == Interleave(Separators(s), Tokenize(s))
    decreases |s|
  {
    SeparatorsShape(s);
    if s == [] {
    } else if IsDelimiter(s[0]) {
      var t := s[1..];
      SeparatorsShape(t);
      SeparatorsRebuild(t);
      var r := Separators(t);
      var ts := Tokenize(t);
      assert r == [r[0]] + r[1..];
      InterleavePrefix([s[0]], r[0], r[1..], ts);
      assert s == [s[0]] + t;
    } else {
      var n := RunLength(s);
      var t := s[n..];
      SeparatorsShape(t);
      SeparatorsRebuild(t);
      var r := Separators(t);
      var rest := Tokenize(t);
      var ds := [[]] + r;
      var ts := [s[..n]] + rest;
      assert ds[1..] == r && ts[1..] == rest;
      assert Interleave(ds, ts) == [] + s[..n] + Interleave(r, rest);
      assert s == s[..n] + t;
    }
  }

  /** Every token is non-empty and holds no delimiter. */
  lemma {:induction false} TokensWellFormed(s: string)
    ensures forall k :: 0 <= k < |Tokenize(s)| ==>
      |Tokenize(s)[k]| > 0 && DelimiterFree(Tokenize(s)[k])
    decreases |s|
  {
    if s == [] {
    } else if IsDelimiter(s[0]) {
      TokensWellFormed(s[1..]);
    } else {
      TokensWellFormed(s[RunLength(s)..]);
    }
  }

  /** The tokens, read in order, are exactly the line's non-delimiter
      characters: nothing is dropped, reordered or invented. */
  lemma {:induction false} TokensCoverLine(s: string)
    ensures Flatten(Tokenize(s)) == NonDelimiters(s)
    decreases |s|
  {
    if s == [] {
    } else if IsDelimiter(s[0]) {
      TokensCoverLine(s[1..]);
    } else {
      var n := RunLength(s);
      TokensCoverLine(s[n..]);
      RunHasNoDelimiters(s, n);
      assert s == s[..n] + s[n..];
      NonDelimitersAppend(s[..n], s[n..]);
      assert Tokenize(s)[1..] == Tokenize(s[n..]);
    }
  }

  lemma {:induction false} RunHasNoDelimiters(s: string, n: nat)
    requires n <= |s| && DelimiterFree(s[..n])
    ensures NonDelimiters(s[..n]) == s[..n]
    decreases n
  {
    if n > 0 {
      assert s[..n][1..] == s[1..][..n - 1];
      RunHasNoDelimiters(s[1..], n - 1);
    }
  }

  lemma {:induction false} NonDelimitersAppend(a: string, b: string)
    ensures NonDelimiters(a + b) == NonDelimiters(a) + NonDelimiters(b)
    decreases |a|
  {
    if a == [] {
      assert a + b == b;
    } else {
      var head: string := if IsDelimiter(a[0]) then [] else [a[0]];
      assert (a + b)[0] == a[0] && (a + b)[1..] == a[1..] + b;
      NonDelimitersAppend(a[1..], b);
      calc {
        NonDelimiters(a + b);
        head + NonDelimiters(a[1..] + b);
        head + (NonDelimiters(a[1..]) + NonDelimiters(b));
        (head + NonDelimiters(a[1..])) + NonDelimiters(b);
      }
    }
  }

  lemma {:induction false} RunLengthOfToken(t: string, rest: string)
    requires |t| > 0 && DelimiterFree(t)
    requires rest == [] || IsDelimiter(rest[0])
    ensures RunLength(t + rest) == |t|
    decreases |t|
  {
    if |t| > 1 {
      assert (t + rest)[1..] == t[1..] + rest;
      RunLengthOfToken(t[1..], rest);
    } else {
      assert (t + rest)[1..] == rest;
    }
  }

  /** Splitting a line typed with single spaces gives back its words, provided
      no word is empty or holds a delimiter. */
  lemma {:induction false} TokenizeJoinSpaces(ts: seq<string>)
    requires forall k :: 0 <= k < |ts| ==> |ts[k]| > 0 && DelimiterFree(ts[k])
    ensures Tokenize(JoinSpaces(ts)) == ts
    decreases |ts|
  {
    if |ts| == 1 {
      RunLengthOfToken(ts[0], []);
      assert ts[0] + [] == ts[0];
    } else if |ts| > 1 {
      var rest := " " + JoinSpaces(ts[1..]);
      assert JoinSpaces(ts) == ts[0] + rest;
      RunLengthOfToken(ts[0], rest);
      assert (ts[0] + rest)[..|ts[0]|] == ts[0];
      assert (ts[0] + rest)[|ts[0]|..] == rest;
      assert rest[1..] == JoinSpaces(ts[1..]);
      TokenizeJoinSpaces(ts[1..]);
    }
  }

  /** exec sees exactly the tokens of a freshly built vector. */
  lemma {:induction false} PrefixOfArgv(tokens: seq<string>)
    ensures Prefix(Argv(tokens)) == tokens
    decreases |tokens|
  {
    if tokens != [] {
      assert Argv(tokens)[1..] == Argv(tokens[1..]);
      PrefixOfArgv(tokens[1..]);
    }
  }

  lemma {:induction false} TokenizeSkipsDelimiter(s: string, i: nat)
    requires i < |s| && IsDelimiter(s[i])
    ensures Tokenize(s[i..]) == Tokenize(s[i + 1..])
  {
    assert s[i..][1..] == s[i + 1..];
  }

  lemma {:induction false} TokenizeTakesRun(s: string, i: nat, j: nat)
    requires i < j <= |s| && DelimiterFree(s[i..j])
    requires j == |s| || IsDelimiter(s[j])
    ensures Tokenize(s[i..]) == [s[i..j]] + Tokenize(s[j..])
  {
    RunLengthOfToken(s[i..j], s[j..]);
    assert s[i..] == s[i..j] + s[j..];
    assert s[i..][j - i..] == s[j..];
  }

  /** strtok's scan for the end of the token that starts at slot i. */
  method TokenEnd(s: string, i: nat) returns (j: nat)
    requires i < |s| && !IsDelimiter(s[i])
    ensures i < j <= |s|
    ensures DelimiterFree(s[i..j])
    ensures j < |s| ==> IsDelimiter(s[j])
  {
    j := i + 1;
    while j < |s| && !IsDelimiter(s[j])
      invariant i < j <= |s|
      invariant forall k :: i <= k < j ==> !IsDelimiter(s[k])
    {
      j := j + 1;
    }
    assert DelimiterFree(s[i..j]);
  }

  /** The strtok loop of tokenizeString: the tokens of the line, in order. */
  method CollectTokens(commandLine: string) returns (tokens: seq<string>)
    ensures tokens == Tokenize(commandLine)
  {
    tokens := [];
    var i := 0;
    while i < |commandLine|
      invariant 0 <= i <= |commandLine|
      invariant tokens + Tokenize(commandLine[i..]) == Tokenize(commandLine)
    {
      if IsDelimiter(commandLine[i]) {
        TokenizeSkipsDelimiter(commandLine, i);
        i := i + 1;
      } else {
        var j := TokenEnd(commandLine, i);
        TokenizeTakesRun(commandLine, i, j);
        var token := commandLine[i..j];
        assert tokens + Tokenize(commandLine[i..]) == (tokens + [token]) + Tokenize(commandLine[j..]);
        tokens := tokens + [token];
        i := j;
      }
    }
    assert commandLine[i..] == [];
  }

  /** tokenizeString: split the line into tokens and end the vector with NULL. */
  method TokenizeString(commandLine: string) returns (argv: array<Arg>)
    ensures fresh(argv)
    ensures argv[..] == Argv(Tokenize(commandLine))
  {
    var tokens := CollectTokens(commandLine);
    argv := new Arg[|tokens| + 1](k => if 0 <= k < |tokens| then Tok(tokens[k]) else Null);
    assert argv[..] == Argv(tokens);
  }
}
