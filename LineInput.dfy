/** What the prompt loop does with a line read by getline before it reaches the
    dispatcher: numArguments, checkEmptyLine, the rule that rejects over-long,
    over-wide and comment lines, the newline cut and the index of the last
    argument. A getline line is a string that may end in one newline; the C
    string functions stop at a NUL byte, and the model's strings hold none. */
module LineInput {
  import opened Tokens

  const MAX_CHARS := 2048
  const MAX_ARGS := 512

  /** C isspace in the "C" locale: space, and tab through carriage return. */
  predicate IsSpace(c: char) {
    c == ' ' || '\t' <= c <= '\r'
  }

  predicate Blank(s: string) {
    forall i :: 0 <= i < |s| ==> IsSpace(s[i])
  }

  /** The number of isspace characters in s. */
  function CountSpaces(s: string): nat {
    if s == [] then 0
    else CountSpaces(s[..|s| - 1]) + (if IsSpace(s[|s| - 1]) then 1 else 0)
  }

  /** numArguments: count the whitespace characters, then subtract one for the
      newline that getline leaves at the end. */
  method NumArguments(userString: string) returns (count: int)
    ensures count == CountSpaces(userString) - 1
    ensures count >= -1
  {
    var i := 0;
    var totalArguments := 0;
    while i < |userString|
      invariant 0 <= i <= |userString|
      invariant totalArguments == CountSpaces(userString[..i])
    {
      assert userString[..i + 1][..i] == userString[..i];
      if IsSpace(userString[i]) {
        totalArguments := totalArguments + 1;
      }
      i := i + 1;
    }
    assert userString[..i] == userString;
    count := totalArguments - 1;
  }

  /** checkEmptyLine: the line is blank unless some character is not isspace.
      The C function clears the global askInput in that case; here the result is
      returned instead. */
  method CheckEmptyLine(lineEntered: string) returns (blank: bool)
    ensures blank <==> Blank(lineEntered)
  {
    blank := true;
    var i := 0;
    while i < |lineEntered|
      invariant 0 <= i <= |lineEntered|
      invariant blank
      invariant forall k :: 0 <= k < i ==> IsSpace(lineEntered[k])
    {
      var currentChar := lineEntered[i];
      i := i + 1;
      if !IsSpace(currentChar) {
        blank := false;
        break;
      }
    }
  }

  /** The reject rule: more than MAX_CHARS characters, more than MAX_ARGS
      arguments, or a '#' in the first column. */
  predicate Rejected(lineEntered: string, numCharsEntered: int, numArgs: int) {
    numCharsEntered > MAX_CHARS || numArgs > MAX_ARGS
    || (|lineEntered| > 0 && lineEntered[0] == '#')
  }

  /** A line is handed to the dispatcher when it is not blank and not rejected. */
  predicate Accepted(lineEntered: string, numCharsEntered: int, numArgs: int) {
    !Blank(lineEntered) && !Rejected(lineEntered, numCharsEntered, numArgs)
  }

  /** lineEntered[strcspn(lineEntered, "\n")] = '\0': cut at the first newline. */
  function StripNewline(s: string): (r: string)
    ensures |r| <= |s| && r == s[..|r|]
    ensures '\n' !in r
    ensures |r| < |s| ==> s[|r|] == '\n'
  {
    if s == [] || s[0] == '\n' then []
    else
      var r := [s[0]] + StripNewline(s[1..]);
      assert s[..|r|] == [s[0]] + s[1..][..|r| - 1];
      r
  }

  /** A shape getline produces: a newline, if any, only at the end. */
  predicate OneLine(s: string) {
    forall i :: 0 <= i < |s| - 1 ==> s[i] != '\n'
  }

  lemma {:induction false} NonBlankHasToken(s: string)
    requires !Blank(s)
    ensures Tokenize(s) != []
    decreases |s|
  {
    if IsDelimiter(s[0]) {
      assert !Blank(s[1..]) by {
        var k :| 0 <= k < |s| && !IsSpace(s[k]);
        assert k > 0;
        assert s[1..][k - 1] == s[k];
      }
      NonBlankHasToken(s[1..]);
    }
  }

  lemma {:induction false} CountSpacesAppend(a: string, b: string)
    ensures CountSpaces(a + b) == CountSpaces(a) + CountSpaces(b)
    decreases |b|
  {
    if b == [] {
      assert a + b == a;
    } else {
      var b' := b[..|b| - 1];
      assert (a + b)[..|a + b| - 1] == a + b';
      CountSpacesAppend(a, b');
    }
  }

  predicate SpaceFree(t: string) {
    forall i :: 0 <= i < |t| ==> !IsSpace(t[i])
  }

  lemma {:induction false} CountSpacesJoin(ts: seq<string>)
    requires forall k :: 0 <= k < |ts| ==> SpaceFree(ts[k])
    ensures CountSpaces(JoinSpaces(ts)) == if ts == [] then 0 else |ts| - 1
    decreases |ts|
  {
    if |ts| == 1 {
      SpaceFreeCount(ts[0]);
    } else if |ts| > 1 {
      SpaceFreeCount(ts[0]);
      CountSpacesJoin(ts[1..]);
      CountSpacesAppend(ts[0], " ");
      CountSpacesAppend(ts[0] + " ", JoinSpaces(ts[1..]));
      assert CountSpaces(" ") == 1 by {
        assert " "[..0] == [];
      }
    }
  }

  lemma {:induction false} SpaceFreeCount(t: string)
    requires SpaceFree(t)
    ensures CountSpaces(t) == 0
    decreases |t|
  {
    if t != [] {
      SpaceFreeCount(t[..|t| - 1]);
    }
  }

  /** The last index the prompt loop passes on (numArguments of the line) is
      the index of the last token when the words are separated by single
      spaces and the line ends with its newline: the vector slot there holds
      the last word typed, which is where a trailing "&" sits. */
  lemma LastIndexOfTypedLine(ts: seq<string>)
    requires ts != []
    requires forall k :: 0 <= k < |ts| ==> |ts[k]| > 0 && SpaceFree(ts[k])
    ensures CountSpaces(JoinSpaces(ts) + "\n") - 1 == |ts| - 1
    ensures Tokenize(StripNewline(JoinSpaces(ts) + "\n")) == ts
  {
    forall k | 0 <= k < |ts| ensures DelimiterFree(ts[k]) {
      assert forall i :: 0 <= i < |ts[k]| ==> !IsSpace(ts[k][i]);
    }
    CountSpacesJoin(ts);
    CountSpacesAppend(JoinSpaces(ts), "\n");
    assert CountSpaces("\n") == 1 by {
      assert "\n"[..0] == [];
    }
    JoinSpacesFree(ts);
    assert StripNewline(JoinSpaces(ts) + "\n") == JoinSpaces(ts) by {
      StripAtNewline(JoinSpaces(ts));
    }
    TokenizeJoinSpaces(ts);
  }

  lemma {:induction false} JoinSpacesFree(ts: seq<string>)
    requires forall k :: 0 <= k < |ts| ==> DelimiterFree(ts[k])
    ensures '\n' !in JoinSpaces(ts)
    decreases |ts|
  {
    if |ts| > 1 {
      JoinSpacesFree(ts[1..]);
    }
  }

  lemma {:induction false} StripAtNewline(s: string)
    requires '\n' !in s
    ensures StripNewline(s + "\n") == s
    decreases |s|
  {
    if s == [] {
      assert s + "\n" == "\n";
    } else {
      assert (s + "\n")[1..] == s[1..] + "\n";
      StripAtNewline(s[1..]);
    }
  }

  lemma StripWithoutNewline(s: string)
    requires '\n' !in s
    ensures StripNewline(s) == s
  {
  }

  /** As written, the prompt loop uses numArguments as the index of the last
      argument. One space before the newline is enough to break that: for
      "ls \n" the index is 1, and slot 1 of the vector is the NULL terminator,
      which isBackgroundProcess then hands to strcmp. */
  lemma TrailingSpaceMisplacesLastIndex()
    ensures CountSpaces("ls \n") - 1 == 1
    ensures var a := Argv(Tokenize(StripNewline("ls \n")));
            |a| == 2 && a[1] == Null
  {
    assert "ls \n"[..3] == "ls ";
    assert "ls \n"[..3][..2] == "ls";
    assert "ls \n"[..3][..2][..1] == "l";
    assert "ls \n"[..3][..2][..1][..0] == [];
    assert StripNewline("ls \n") == "ls ";
    assert RunLength("ls ") == 2;
    assert "ls "[2..] == " " && " "[1..] == [];
    assert Tokenize("ls ") == ["ls"];
  }

  /** The index of the last argument counted in tokens, which is what the
      prompt loop needs to find a trailing "&". */
  function LastArgIndex(commandLine: string): int {
    |Tokenize(commandLine)| - 1
  }

  /** For every line with a command, LastArgIndex names the slot of the last
      token: a real token, directly followed by the NULL terminator. */
  lemma LastArgIndexIsLastToken(commandLine: string)
    requires !Blank(commandLine)
    ensures var a := Argv(Tokenize(commandLine)); var k := LastArgIndex(commandLine);
            0 <= k && k + 1 < |a| && a[k].Tok? && a[k + 1] == Null
  {
    NonBlankHasToken(commandLine);
  }

  /** On a line typed with single spaces the corrected index agrees with the
      one the prompt loop computes. */
  lemma LastArgIndexAgreesOnTypedLine(ts: seq<string>)
    requires ts != []
    requires forall k :: 0 <= k < |ts| ==> |ts[k]| > 0 && SpaceFree(ts[k])
    ensures LastArgIndex(StripNewline(JoinSpaces(ts) + "\n"))
            == CountSpaces(JoinSpaces(ts) + "\n") - 1
  {
    LastIndexOfTypedLine(ts);
  }
}
