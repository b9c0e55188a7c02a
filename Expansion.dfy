/** variableExpansion: every "$$" of the entered line, left to right, becomes the
    shell's pid in decimal, for as long as a running length counter stays
    within MAX_CHARS. The counter starts at the line's length and grows by the
    pid's length for each replacement (not by the pid's length minus two); the
    first "$$" that would take it past MAX_CHARS stops the expansion, and it and
    every later "$$" stay in the line as they are. */
module Expansion {
  import opened Wrappers
  import opened Decimal
  import opened LineInput

  predicate PairAt(s: string, i: int) {
    0 <= i && i + 1 < |s| && s[i] == '$' && s[i + 1] == '$'
  }

  /** strstr(s, "$$"): where the first "$$" of s starts. */
  function FindPair(s: string): (r: Option<nat>)
    ensures r.Some? ==> PairAt(s, r.value)
  {
    if |s| < 2 then None
    else if s[0] == '$' && s[1] == '$' then Some(0)
    else
      match FindPair(s[1..])
      case None => None
      case Some(k) => Some(k + 1)
  }

  /** The pair FindPair reports is the first one, and None means there is
      none at all. */
  lemma {:induction false} FindPairFirst(s: string)
    ensures FindPair(s).Some? ==> forall j :: 0 <= j < FindPair(s).value ==> !PairAt(s, j)
    ensures FindPair(s).None? ==> forall j :: !PairAt(s, j)
    decreases |s|
  {
    if |s| >= 2 && !(s[0] == '$' && s[1] == '$') {
      FindPairFirst(s[1..]);
      assert forall j :: 0 < j ==> (PairAt(s, j) ==> PairAt(s[1..], j - 1));
    }
  }

  /** The line after expansion with `budget` characters of room left: the
      first "$$" is replaced when the pid still fits, and the search goes on
      after the inserted pid. */
  function Expand(s: string, pid: string, budget: int): string
    decreases |s|
  {
    match FindPair(s)
    case None => s
    case Some(i) =>
      if budget < |pid| then s
      else s[..i] + pid + Expand(s[i + 2..], pid, budget - |pid|)
  }

  /** Whether the expansion stopped at a "$$" for lack of room (the C code
      prints its "exceeded the allowable size" warning then). */
  predicate Overflows(s: string, pid: string, budget: int)
    decreases |s|
  {
    match FindPair(s)
    case None => false
    case Some(i) => budget < |pid| || Overflows(s[i + 2..], pid, budget - |pid|)
  }

  /** The loop's invariant: the part of the line before `start` is final, and
      expanding the rest with `room` characters left gives the same line, and
      the same warning, as expanding the entered line from the start. */
  ghost predicate Progress(entered: string, pid: string, budget: int,
                           line: string, start: int, room: int)
  {
    && 0 <= start <= |line|
    && line[..start] + Expand(line[start..], pid, room) == Expand(entered, pid, budget)
    && Overflows(line[start..], pid, room) == Overflows(entered, pid, budget)
  }

  /** variableExpansion. The line is returned instead of rewritten in its C
      buffer; numChars is the new value of *numCharsEntered, which the C code
      sets to strlen(line) - 1 whenever the line held a "$$"; overflowed says
      whether the warning was printed. */
  method VariableExpansion(lineEntered: string, numCharsEntered: int, shellPid: int)
    returns (line: string, numChars: int, overflowed: bool)
    ensures FindPair(lineEntered).None? ==>
      line == lineEntered && numChars == numCharsEntered && !overflowed
    ensures FindPair(lineEntered).Some? ==>
      var budget := MAX_CHARS - |lineEntered|;
      && line == Expand(lineEntered, IntToString(shellPid), budget)
      && numChars == |line| - 1
      && overflowed == Overflows(lineEntered, IntToString(shellPid), budget)
  {
    line, numChars, overflowed := lineEntered, numCharsEntered, false;
    var expChk := FindPair(line);
    if expChk.Some? {
      var pidString := IntToString(shellPid);
      PidHasNoDollar(shellPid);
      ghost var budget0 := MAX_CHARS - |lineEntered|;
      var charPtr := 0;
      var buffSizeTrack := |line|;
      var found := FindPair(line[charPtr..]);
      ProgressStart(lineEntered, pidString, budget0);
      while found.Some?
        invariant Progress(lineEntered, pidString, budget0, line, charPtr, MAX_CHARS - buffSizeTrack)
        invariant found == FindPair(line[charPtr..])
        invariant !overflowed
        decreases if buffSizeTrack <= MAX_CHARS then MAX_CHARS + 1 - buffSizeTrack else 0
      {
        ghost var previous := line;
        ghost var start := charPtr;
        ghost var room := MAX_CHARS - buffSizeTrack;
        charPtr := charPtr + found.value;
        buffSizeTrack := buffSizeTrack + |pidString|;
        if buffSizeTrack > MAX_CHARS {
          ProgressDone(lineEntered, pidString, budget0, line, start, room);
          overflowed := true;
          break;
        }
        line := line[..charPtr] + pidString + line[charPtr + 2..];
        ProgressStep(lineEntered, pidString, budget0, previous, start, found.value, room,
                     line, charPtr, MAX_CHARS - buffSizeTrack);
        found := FindPair(line[charPtr..]);
      }
      if !overflowed {
        ProgressDone(lineEntered, pidString, budget0, line, charPtr, MAX_CHARS - buffSizeTrack);
      }
      numChars := |line| - 1;
    }
  }

  lemma PidHasNoDollar(n: int)
    ensures '$' !in IntToString(n)
  {
    var s := IntToString(n);
    assert forall i :: 0 <= i < |s| ==> s[i] != '$';
  }

  lemma ProgressStart(entered: string, pid: string, budget: int)
    ensures Progress(entered, pid, budget, entered, 0, budget)
  {
    assert entered[..0] == [] && entered[0..] == entered;
  }

  lemma ProgressStep(entered: string, pid: string, budget: int,
                     line: string, start: nat, j: nat, room: int,
                     next: string, p: int, nextRoom: int)
    requires Progress(entered, pid, budget, line, start, room)
    requires FindPair(line[start..]) == Some(j)
    requires room >= |pid| && '$' !in pid
    requires p == start + j && nextRoom == room - |pid|
    requires p + 2 <= |line| && next == line[..p] + pid + line[p + 2..]
    ensures Progress(entered, pid, budget, next, p, nextRoom)
  {
    ReplaceStep(line, start, j, pid, room);
  }

  lemma ProgressDone(entered: string, pid: string, budget: int,
                     line: string, start: int, room: int)
    requires Progress(entered, pid, budget, line, start, room)
    requires FindPair(line[start..]).Some? ==> room < |pid|
    ensures line == Expand(entered, pid, budget)
    ensures Overflows(entered, pid, budget) == FindPair(line[start..]).Some?
  {
    RestKept(line, start, pid, room);
  }

  /** When no "$$" is left, or the next one does not fit, the rest of the line
      stays as it is. */
  lemma RestKept(line: string, start: nat, pid: string, budget: int)
    requires start <= |line|
    requires FindPair(line[start..]).Some? ==> budget < |pid|
    ensures line[..start] + Expand(line[start..], pid, budget) == line
    ensures Overflows(line[start..], pid, budget) == FindPair(line[start..]).Some?
  {
    assert line == line[..start] + line[start..];
  }

  /** One pass of the loop: replacing the "$$" found from `start` keeps the
      expansion still to come equal to the expansion of the whole line. */
  lemma ReplaceStep(line: string, start: nat, j: nat, pid: string, budget: int)
    requires start <= |line| && FindPair(line[start..]) == Some(j)
    requires budget >= |pid| && '$' !in pid
    ensures start + j + 2 <= |line|
    ensures var p := start + j;
            var next := line[..p] + pid + line[p + 2..];
            && next[..p] + Expand(next[p..], pid, budget - |pid|)
               == line[..start] + Expand(line[start..], pid, budget)
            && Overflows(next[p..], pid, budget - |pid|)
               == Overflows(line[start..], pid, budget)
  {
    var p := start + j;
    var rest := line[p + 2..];
    var next := line[..p] + pid + rest;
    SplicePieces(line, start, p, pid);
    ExpandSplit(line[start..], j, pid, budget, line[start..p], rest);
    SkipPrefix(next[p..], pid, rest, pid, budget - |pid|);
    Regroup(line[..start], line[start..p], pid, Expand(rest, pid, budget - |pid|));
  }

  /** ExpandSkip and OverflowsSkip for a line the caller has split. */
  lemma SkipPrefix(whole: string, p: string, r: string, pid: string, budget: int)
    requires whole == p + r && '$' !in p
    ensures Expand(whole, pid, budget) == p + Expand(r, pid, budget)
    ensures Overflows(whole, pid, budget) == Overflows(r, pid, budget)
  {
    ExpandSkip(p, r, pid, budget);
    OverflowsSkip(p, r, pid, budget);
  }

  lemma ExpandAtPair(s: string, i: nat, pid: string, budget: int)
    requires FindPair(s) == Some(i) && budget >= |pid|
    ensures Expand(s, pid, budget) == s[..i] + pid + Expand(s[i + 2..], pid, budget - |pid|)
    ensures Overflows(s, pid, budget) == Overflows(s[i + 2..], pid, budget - |pid|)
  {
  }

  lemma SplicePieces(line: string, start: nat, p: nat, pid: string)
    requires start <= p && p + 2 <= |line|
    ensures var next := line[..p] + pid + line[p + 2..];
            && next[..p] == line[..start] + line[start..p]
            && next[p..] == pid + line[p + 2..]
            && line[start..][..p - start] == line[start..p]
            && line[start..][p - start + 2..] == line[p + 2..]
  {
  }

  lemma Regroup(a: string, b: string, c: string, d: string)
    ensures (a + b) + (c + d) == a + (b + c + d)
  {
  }

  lemma {:induction false} FindPairSkip(p: string, r: string)
    requires '$' !in p
    ensures FindPair(p + r) == match FindPair(r) case None => None case Some(j) => Some(|p| + j)
    decreases |p|
  {
    if p == [] {
      assert p + r == r;
    } else {
      assert (p + r)[1..] == p[1..] + r;
      FindPairSkip(p[1..], r);
    }
  }

  /** Text without '$' in front of the rest of the line is kept as it is, and
      the rest is expanded with the same room. */
  lemma ExpandSkip(p: string, r: string, pid: string, budget: int)
    requires '$' !in p
    ensures Expand(p + r, pid, budget) == p + Expand(r, pid, budget)
  {
    FindPairSkip(p, r);
    match FindPair(r)
    case None =>
      ExpandStops(r, pid, budget);
      ExpandStops(p + r, pid, budget);
    case Some(j) =>
      if budget >= |pid| {
        SliceAppend(p, r, j);
        SliceAppend(p, r, j + 2);
        ExpandSplit(p + r, |p| + j, pid, budget, p + r[..j], r[j + 2..]);
        ExpandSplit(r, j, pid, budget, r[..j], r[j + 2..]);
        Regroup3(p, r[..j], pid, Expand(r[j + 2..], pid, budget - |pid|));
      } else {
        ExpandStops(r, pid, budget);
        ExpandStops(p + r, pid, budget);
      }
  }

  /** ExpandAtPair with the two sides of the pair named by the caller. */
  lemma ExpandSplit(s: string, i: nat, pid: string, budget: int, head: string, tail: string)
    requires FindPair(s) == Some(i) && budget >= |pid|
    requires head == s[..i] && tail == s[i + 2..]
    ensures Expand(s, pid, budget) == head + pid + Expand(tail, pid, budget - |pid|)
    ensures Overflows(s, pid, budget) == Overflows(tail, pid, budget - |pid|)
  {
  }

  /** Without a "$$", or without room for the pid, the line stays as it is. */
  lemma ExpandStops(s: string, pid: string, budget: int)
    requires FindPair(s).None? || budget < |pid|
    ensures Expand(s, pid, budget) == s
  {
  }

  lemma SliceAppend(p: string, r: string, k: nat)
    requires k <= |r|
    ensures (p + r)[..|p| + k] == p + r[..k]
    ensures (p + r)[|p| + k..] == r[k..]
  {
  }

  lemma Regroup3(a: string, b: string, c: string, d: string)
    ensures (a + b) + c + d == a + (b + c + d)
  {
  }

  lemma OverflowsSkip(p: string, r: string, pid: string, budget: int)
    requires '$' !in p
    ensures Overflows(p + r, pid, budget) == Overflows(r, pid, budget)
  {
    FindPairSkip(p, r);
    match FindPair(r)
    case None =>
    case Some(j) =>
      SliceAppend(p, r, j + 2);
      if budget >= |pid| {
        ExpandSplit(p + r, |p| + j, pid, budget, (p + r)[..|p| + j], r[j + 2..]);
        ExpandSplit(r, j, pid, budget, r[..j], r[j + 2..]);
      }
  }

  /** A last character other than '$' cannot be part of a pair. */
  lemma FindPairAppend(s: string, c: char)
    requires c != '$'
    ensures FindPair(s + [c]) == FindPair(s)
  {
    forall j ensures PairAt(s + [c], j) <==> PairAt(s, j) {
    }
    FindPairFirst(s + [c]);
    FindPairFirst(s);
  }

  /** The newline at the end of an entered line stays at the end. */
  lemma {:induction false} ExpandAppend(s: string, c: char, pid: string, budget: int)
    requires c != '$'
    ensures Expand(s + [c], pid, budget) == Expand(s, pid, budget) + [c]
    decreases |s|
  {
    FindPairAppend(s, c);
    match FindPair(s)
    case None =>
    case Some(i) =>
      if budget >= |pid| {
        assert (s + [c])[..i] == s[..i];
        assert (s + [c])[i + 2..] == s[i + 2..] + [c];
        ExpandAppend(s[i + 2..], c, pid, budget - |pid|);
      }
  }

  /** Every character of the expanded line comes from the line or the pid. */
  lemma {:induction false} ExpandDrawsFrom(s: string, pid: string, budget: int)
    ensures forall c :: c in Expand(s, pid, budget) ==> c in s || c in pid
    decreases |s|
  {
    match FindPair(s)
    case None =>
    case Some(i) =>
      if budget >= |pid| {
        ExpandDrawsFrom(s[i + 2..], pid, budget - |pid|);
        var rest := Expand(s[i + 2..], pid, budget - |pid|);
        forall c | c in s[..i] + pid + rest ensures c in s || c in pid {
          if c in s[..i] {
            var k :| 0 <= k < i && s[..i][k] == c;
            assert s[k] == c;
          } else if c in rest && c !in pid {
            var k :| 0 <= k < |s[i + 2..]| && s[i + 2..][k] == c;
            assert s[i + 2 + k] == c;
          }
        }
      }
  }

  /** A line with a character that is not isspace keeps one after expansion:
      a replaced "$$" gives way to the pid, which starts with a non-space. */
  lemma {:induction false} ExpandKeepsNonBlank(s: string, pid: string, budget: int)
    requires !Blank(s) && pid != [] && !IsSpace(pid[0])
    ensures !Blank(Expand(s, pid, budget))
    decreases |s|
  {
    match FindPair(s)
    case None =>
    case Some(i) =>
      if budget >= |pid| {
        var rest := Expand(s[i + 2..], pid, budget - |pid|);
        var e := s[..i] + pid + rest;
        var k :| 0 <= k < |s| && !IsSpace(s[k]);
        if k < i {
          assert e[k] == s[k];
        } else if k < i + 2 {
          assert e[i] == pid[0];
        } else {
          assert !Blank(s[i + 2..]) by {
            assert s[i + 2..][k - i - 2] == s[k];
          }
          ExpandKeepsNonBlank(s[i + 2..], pid, budget - |pid|);
          var m :| 0 <= m < |rest| && !IsSpace(rest[m]);
          assert e[i + |pid| + m] == rest[m];
        }
      }
  }

  // ---------------------------------------------------------------------------
  // An independent description: cut the line at its "$$" occurrences (found
  // left to right, without overlap), then glue the pieces back together with
  // the pid in the first k gaps and "$$" in the others.

  /** The pieces of s between its non-overlapping "$$" occurrences. */
  function Segments(s: string): (segs: seq<string>)
    ensures |segs| > 0
    decreases |s|
  {
    match FindPair(s)
    case None => [s]
    case Some(i) => [s[..i]] + Segments(s[i + 2..])
  }

  function JoinWith(segs: seq<string>, sep: string): string
    requires |segs| > 0
  {
    if |segs| == 1 then segs[0] else segs[0] + sep + JoinWith(segs[1..], sep)
  }

  /** The pieces joined with the pid in the first k gaps and "$$" in the rest. */
  function Substitute(segs: seq<string>, pid: string, k: nat): string
    requires |segs| > 0
  {
    if |segs| == 1 then segs[0]
    else if k > 0 then segs[0] + pid + Substitute(segs[1..], pid, k - 1)
    else segs[0] + "$$" + Substitute(segs[1..], pid, 0)
  }

  /** How many of n occurrences are replaced when each takes p characters of
      room out of `budget`. */
  function Replacements(n: nat, p: nat, budget: int): nat {
    if n == 0 || budget < p then 0 else 1 + Replacements(n - 1, p, budget - p)
  }

  /** The pieces glued back with "$$" give the line again, and no piece holds
      a "$$" of its own. */
  lemma {:induction false} SegmentsJoin(s: string)
    ensures JoinWith(Segments(s), "$$") == s
    ensures forall k :: 0 <= k < |Segments(s)| ==> FindPair(Segments(s)[k]).None?
    decreases |s|
  {
    match FindPair(s)
    case None =>
    case Some(i) =>
      var head, tail := s[..i], s[i + 2..];
      var rest := Segments(tail);
      SegmentsJoin(tail);
      assert Segments(s) == [head] + rest;
      assert ([head] + rest)[1..] == rest;
      assert JoinWith(Segments(s), "$$") == head + "$$" + JoinWith(rest, "$$");
      assert s == head + "$$" + tail;
      FindPairFirst(s);
      assert FindPair(head).None? by {
        forall j | PairAt(head, j) ensures false {
          assert PairAt(s, j);
        }
      }
      forall k | 0 <= k < |Segments(s)| ensures FindPair(Segments(s)[k]).None? {
        if k > 0 {
          assert Segments(s)[k] == rest[k - 1];
        }
      }
  }

  lemma {:induction false} SubstituteNothing(segs: seq<string>, pid: string)
    requires |segs| > 0
    ensures Substitute(segs, pid, 0) == JoinWith(segs, "$$")
    decreases |segs|
  {
    if |segs| > 1 {
      SubstituteNothing(segs[1..], pid);
    }
  }

  /** The expansion equals the pieces of the line with the pid in the first k
      gaps and "$$" left in the others, where k is the number of occurrences
      for which there was room. */
  lemma {:induction false} ExpandIsSubstitution(s: string, pid: string, budget: int)
    ensures Expand(s, pid, budget)
            == Substitute(Segments(s), pid, Replacements(|Segments(s)| - 1, |pid|, budget))
    decreases |s|
  {
    match FindPair(s)
    case None =>
    case Some(i) =>
      var segs := Segments(s);
      assert segs[1..] == Segments(s[i + 2..]);
      if budget < |pid| {
        SubstituteNothing(segs, pid);
        SegmentsJoin(s);
      } else {
        ExpandIsSubstitution(s[i + 2..], pid, budget - |pid|);
      }
  }

  /** k is the largest count, up to the number n of occurrences, whose
      replacements all fit: len + k * |pid| <= MAX_CHARS, and one more would
      not fit. */
  lemma {:induction false} ReplacementsMaximal(n: nat, p: nat, budget: int)
    requires p > 0
    ensures var k := Replacements(n, p, budget);
            && k <= n
            && (k > 0 ==> k * p <= budget)
            && (k < n ==> budget < (k + 1) * p)
    decreases n
  {
    if n > 0 && budget >= p {
      ReplacementsMaximal(n - 1, p, budget - p);
      var k' := Replacements(n - 1, p, budget - p);
      assert (k' + 1) * p == k' * p + p;
      assert (k' + 2) * p == (k' + 1) * p + p;
    }
  }

  /** The warning is printed exactly when some "$$" was left unreplaced. */
  lemma {:induction false} OverflowsIffUnreplaced(s: string, pid: string, budget: int)
    ensures Overflows(s, pid, budget)
            <==> Replacements(|Segments(s)| - 1, |pid|, budget) < |Segments(s)| - 1
    decreases |s|
  {
    match FindPair(s)
    case None =>
    case Some(i) =>
      assert Segments(s)[1..] == Segments(s[i + 2..]);
      OverflowsIffUnreplaced(s[i + 2..], pid, budget - |pid|);
  }

  /** A line without "$$" is left as it is. */
  lemma NoPairUnchanged(s: string, pid: string, budget: int)
    requires forall j :: !PairAt(s, j)
    ensures Expand(s, pid, budget) == s && !Overflows(s, pid, budget)
  {
  }
}
