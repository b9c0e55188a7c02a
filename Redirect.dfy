/** ioRedirect, run in the child before exec. A background job first gets
    /dev/null on descriptors 1 and 0; then every ">" or "<" in the argument
    vector, left to right up to the NULL terminator, opens the slot after it
    and rebinds descriptor 1 or 0 to that file, and the marker itself is set to
    NULL so that exec sees the vector only up to the first marker. A failed
    open ends the child with exit status 1.

    The open(2) calls are an oracle `canOpen` that says whether opening a path
    in a given mode succeeds; the descriptor table is reduced to the name of
    the file each of descriptors 0 and 1 refers to. */
module Redirect {
  import opened Wrappers
  import opened Tokens

  const DEV_NULL := "/dev/null"

  /** The flags of the four open calls. */
  datatype OpenMode =
    | WriteOnly            // O_WRONLY: /dev/null as a background job's output
    | WriteCreateTruncate  // O_WRONLY | O_CREAT | O_TRUNC: the target of ">"
    | ReadOnly             // O_RDONLY: the target of "<", and /dev/null as input

  /** The file descriptor 0 (stdin) and descriptor 1 (stdout) refer to. */
  datatype Fds = Fds(stdin: string, stdout: string)

  /** The child either goes on to exec with these descriptors or exits. */
  datatype Outcome = Proceed(fds: Fds) | ExitStatus(code: int)

  predicate IsMarkerText(t: string) {
    t == ">" || t == "<"
  }

  /** A vector slot holding ">" or "<". */
  predicate IsMarker(x: Arg) {
    x.Tok? && IsMarkerText(x.text)
  }

  /** The loop of ioRedirect over the tokens before the terminator. The slot
      after a marker is its target; after the last token that slot is the
      NULL terminator, on which open fails. The scan then goes on at the
      target's slot, so a target spelled ">" or "<" is itself a marker. */
  function Scan(ts: seq<string>, fds: Fds, canOpen: (string, OpenMode) -> bool): (r: Outcome)
    ensures r.ExitStatus? ==> r.code == 1
    decreases |ts|
  {
    if ts == [] then Proceed(fds)
    else if ts[0] == ">" then
      if |ts| > 1 && canOpen(ts[1], WriteCreateTruncate)
      then Scan(ts[1..], Fds(fds.stdin, ts[1]), canOpen)
      else ExitStatus(1)
    else if ts[0] == "<" then
      if |ts| > 1 && canOpen(ts[1], ReadOnly)
      then Scan(ts[1..], Fds(ts[1], fds.stdout), canOpen)
      else ExitStatus(1)
    else Scan(ts[1..], fds, canOpen)
  }

  /** All of ioRedirect on a vector `a`: /dev/null for output, then for input,
      when the job runs in the background; then the loop. */
  function Redirection(a: seq<Arg>, runBackground: bool, fds: Fds,
                       canOpen: (string, OpenMode) -> bool): Outcome
  {
    if !runBackground then Scan(Prefix(a), fds, canOpen)
    else if !canOpen(DEV_NULL, WriteOnly) then ExitStatus(1)
    else if !canOpen(DEV_NULL, ReadOnly) then ExitStatus(1)
    else Scan(Prefix(a), Fds(DEV_NULL, DEV_NULL), canOpen)
  }

  /** The vector after the loop: every marker before the terminator is NULL. */
  function NullMarkers(a: seq<Arg>): (r: seq<Arg>)
    ensures |r| == |a|
    ensures forall k :: 0 <= k < |a| ==>
      r[k] == if k < |Prefix(a)| && IsMarker(a[k]) then Null else a[k]
  {
    var n := |Prefix(a)|;
    seq(|a|, k requires 0 <= k < |a| => if k < n && IsMarker(a[k]) then Null else a[k])
  }

  /** The vector once the loop has passed the first n slots. */
  function NullMarkersUpTo(a: seq<Arg>, n: int): (r: seq<Arg>)
    ensures |r| == |a|
  {
    seq(|a|, k requires 0 <= k < |a| => if k < n && IsMarker(a[k]) then Null else a[k])
  }

  /** Passing slot i nulls it exactly when it holds a marker. */
  lemma MarkStep(a: seq<Arg>, i: nat)
    requires i < |a|
    ensures NullMarkersUpTo(a, i)[i] == a[i]
    ensures NullMarkersUpTo(a, i + 1) ==
      if IsMarker(a[i]) then NullMarkersUpTo(a, i)[i := Null] else NullMarkersUpTo(a, i)
  {
  }

  /** ioRedirect. The outcome is returned instead of calling exit(1); the
      descriptors are those passed in, rebound as open and dup2 would. */
  method IoRedirect(commandLine: array<Arg>, runBackground: bool, fds: Fds,
                    canOpen: (string, OpenMode) -> bool)
    returns (outcome: Outcome)
    requires Null in commandLine[..]
    modifies commandLine
    ensures outcome == Redirection(old(commandLine[..]), runBackground, fds, canOpen)
    ensures outcome.Proceed? ==> commandLine[..] == NullMarkers(old(commandLine[..]))
    ensures forall k :: 0 <= k < commandLine.Length ==>
      commandLine[k] == old(commandLine[k]) || (commandLine[k] == Null && IsMarker(old(commandLine[k])))
  {
    ghost var a0 := commandLine[..];
    ghost var ts := Prefix(a0);
    var current := fds;
    if runBackground {
      if !canOpen(DEV_NULL, WriteOnly) {
        return ExitStatus(1);
      }
      current := current.(stdout := DEV_NULL);
      if !canOpen(DEV_NULL, ReadOnly) {
        return ExitStatus(1);
      }
      current := current.(stdin := DEV_NULL);
    }
    ghost var start := current;
    assert commandLine[..] == NullMarkersUpTo(a0, 0);
    assert Redirection(a0, runBackground, fds, canOpen) == Scan(ts, start, canOpen);
    var i := 0;
    while commandLine[i] != Null
      invariant 0 <= i <= |ts| < commandLine.Length
      invariant commandLine[..] == NullMarkersUpTo(a0, i)
      invariant Scan(ts[i..], current, canOpen) == Scan(ts, start, canOpen)
      decreases |ts| - i
    {
      ScanAt(ts, i, current, canOpen);
      MarkStep(a0, i);
      ghost var before := commandLine[..];
      var token := commandLine[i];
      if token == Tok(">") {
        var target := commandLine[i + 1];
        if target == Null || !canOpen(target.text, WriteCreateTruncate) {
          return ExitStatus(1);
        }
        current := current.(stdout := target.text);
        commandLine[i] := Null;
        assert commandLine[..] == before[i := Null];
      } else if token == Tok("<") {
        var target := commandLine[i + 1];
        if target == Null || !canOpen(target.text, ReadOnly) {
          return ExitStatus(1);
        }
        current := current.(stdin := target.text);
        commandLine[i] := Null;
        assert commandLine[..] == before[i := Null];
      }
      i := i + 1;
    }
    assert NullMarkersUpTo(a0, i) == NullMarkers(a0);
    outcome := Proceed(current);
  }

  /** One step of the scan, at slot i. */
  lemma ScanAt(ts: seq<string>, i: nat, fds: Fds, canOpen: (string, OpenMode) -> bool)
    requires i < |ts|
    ensures Scan(ts[i..], fds, canOpen) ==
      if ts[i] == ">" then
        if i + 1 < |ts| && canOpen(ts[i + 1], WriteCreateTruncate)
        then Scan(ts[i + 1..], Fds(fds.stdin, ts[i + 1]), canOpen)
        else ExitStatus(1)
      else if ts[i] == "<" then
        if i + 1 < |ts| && canOpen(ts[i + 1], ReadOnly)
        then Scan(ts[i + 1..], Fds(ts[i + 1], fds.stdout), canOpen)
        else ExitStatus(1)
      else Scan(ts[i + 1..], fds, canOpen)
  {
    assert ts[i..][1..] == ts[i + 1..];
  }

  // ---------------------------------------------------------------------------
  // What exec sees.

  /** The index of the first marker among the tokens, or their number. */
  function FirstMarker(ts: seq<string>): (f: nat)
    ensures f <= |ts|
    ensures forall k :: 0 <= k < f ==> !IsMarkerText(ts[k])
    ensures f < |ts| ==> IsMarkerText(ts[f])
    decreases |ts|
  {
    if ts == [] || IsMarkerText(ts[0]) then 0
    else
      var f := 1 + FirstMarker(ts[1..]);
      assert forall k :: 1 <= k < f ==> ts[k] == ts[1..][k - 1];
      f
  }

  /** A vector with tokens at 0..m-1 and NULL at m (or no slot m) hands exec
      exactly those m tokens. */
  lemma PrefixUpTo(b: seq<Arg>, m: nat)
    requires m <= |b|
    requires forall k :: 0 <= k < m ==> b[k].Tok?
    requires m < |b| ==> b[m] == Null
    ensures |Prefix(b)| == m
    ensures forall k :: 0 <= k < m ==> Prefix(b)[k] == b[k].text
  {
  }

  /** After the loop, exec sees exactly the tokens before the first ">" or
      "<": the markers and everything after the first of them are cut off. */
  lemma ExecSeesTokensBeforeMarker(a: seq<Arg>)
    ensures var ts := Prefix(a);
            Prefix(NullMarkers(a)) == ts[..FirstMarker(ts)]
  {
    var ts := Prefix(a);
    var f := FirstMarker(ts);
    var b := NullMarkers(a);
    forall k | 0 <= k < f
      ensures b[k] == Tok(ts[k])
    {
      assert a[k] == Tok(ts[k]);
    }
    if f < |ts| {
      assert a[f] == Tok(ts[f]);
    }
    PrefixUpTo(b, f);
  }

  // ---------------------------------------------------------------------------
  // Where the descriptors end up.

  /** The target of the last `sym` marker that has a target, reading the
      tokens left to right. */
  function LastTarget(ts: seq<string>, sym: string): Option<string>
    decreases |ts|
  {
    if |ts| < 2 then None
    else
      var later := LastTarget(ts[1..], sym);
      if later.Some? then later
      else if ts[0] == sym then Some(ts[1])
      else None
  }

  /** No `sym` sits between slot k and the last token. */
  predicate NoneAfter(ts: seq<string>, k: nat, sym: string) {
    forall k' :: k < k' < |ts| - 1 ==> ts[k'] != sym
  }

  /** LastTarget names the token after the last `sym` that is not the last
      token, and is None when there is no such `sym`. */
  lemma {:induction false} LastTargetIsLast(ts: seq<string>, sym: string)
    ensures LastTarget(ts, sym).None? ==> forall k :: 0 <= k < |ts| - 1 ==> ts[k] != sym
    ensures LastTarget(ts, sym).Some? ==>
              exists k :: 0 <= k < |ts| - 1 && ts[k] == sym && ts[k + 1] == LastTarget(ts, sym).value
                          && NoneAfter(ts, k, sym)
    decreases |ts|
  {
    if |ts| >= 2 {
      var tail := ts[1..];
      LastTargetIsLast(tail, sym);
      assert forall k :: 1 <= k < |ts| ==> ts[k] == tail[k - 1];
      if LastTarget(tail, sym).Some? {
        var t := LastTarget(tail, sym).value;
        var j :| 0 <= j < |tail| - 1 && tail[j] == sym && tail[j + 1] == t && NoneAfter(tail, j, sym);
        assert ts[j + 1] == sym && ts[j + 2] == t;
        assert NoneAfter(ts, j + 1, sym);
      } else if ts[0] == sym {
        assert NoneAfter(ts, 0, sym);
      }
    }
  }

  function OrElse(o: Option<string>, d: string): string {
    match o
    case Some(v) => v
    case None => d
  }

  lemma {:induction false} ScanStdout(ts: seq<string>, fds: Fds, canOpen: (string, OpenMode) -> bool)
    ensures Scan(ts, fds, canOpen).Proceed? ==>
            Scan(ts, fds, canOpen).fds.stdout == OrElse(LastTarget(ts, ">"), fds.stdout)
    decreases |ts|
  {
    if ts != [] {
      if ts[0] == ">" {
        if |ts| > 1 && canOpen(ts[1], WriteCreateTruncate) {
          ScanStdout(ts[1..], Fds(fds.stdin, ts[1]), canOpen);
        }
      } else if ts[0] == "<" {
        if |ts| > 1 && canOpen(ts[1], ReadOnly) {
          ScanStdout(ts[1..], Fds(ts[1], fds.stdout), canOpen);
        }
      } else {
        ScanStdout(ts[1..], fds, canOpen);
      }
    }
  }

  lemma {:induction false} ScanStdin(ts: seq<string>, fds: Fds, canOpen: (string, OpenMode) -> bool)
    ensures Scan(ts, fds, canOpen).Proceed? ==>
            Scan(ts, fds, canOpen).fds.stdin == OrElse(LastTarget(ts, "<"), fds.stdin)
    decreases |ts|
  {
    if ts != [] {
      if ts[0] == ">" {
        if |ts| > 1 && canOpen(ts[1], WriteCreateTruncate) {
          ScanStdin(ts[1..], Fds(fds.stdin, ts[1]), canOpen);
        }
      } else if ts[0] == "<" {
        if |ts| > 1 && canOpen(ts[1], ReadOnly) {
          ScanStdin(ts[1..], Fds(ts[1], fds.stdout), canOpen);
        }
      } else {
        ScanStdin(ts[1..], fds, canOpen);
      }
    }
  }

  /** Descriptor 1 ends on the target of the last ">"; without one it is
      /dev/null for a background job and left as it was for a foreground one.
      Descriptor 0 follows the same rule with "<". */
  lemma DescriptorsFollowLastMarker(a: seq<Arg>, runBackground: bool, fds: Fds,
                                    canOpen: (string, OpenMode) -> bool)
    ensures var r := Redirection(a, runBackground, fds, canOpen);
            var ts := Prefix(a);
            r.Proceed? ==>
              && r.fds.stdout == OrElse(LastTarget(ts, ">"), if runBackground then DEV_NULL else fds.stdout)
              && r.fds.stdin == OrElse(LastTarget(ts, "<"), if runBackground then DEV_NULL else fds.stdin)
  {
    var start := if runBackground then Fds(DEV_NULL, DEV_NULL) else fds;
    ScanStdout(Prefix(a), start, canOpen);
    ScanStdin(Prefix(a), start, canOpen);
  }

  // ---------------------------------------------------------------------------
  // When the child exits.

  /** Every marker has a target that opens in the marker's mode. */
  predicate AllOpen(ts: seq<string>, canOpen: (string, OpenMode) -> bool) {
    && (forall k :: 0 <= k < |ts| && ts[k] == ">" ==>
          k + 1 < |ts| && canOpen(ts[k + 1], WriteCreateTruncate))
    && (forall k :: 0 <= k < |ts| && ts[k] == "<" ==>
          k + 1 < |ts| && canOpen(ts[k + 1], ReadOnly))
  }

  lemma {:induction false} ScanProceedsIffAllOpen(ts: seq<string>, fds: Fds,
                                                   canOpen: (string, OpenMode) -> bool)
    ensures Scan(ts, fds, canOpen).Proceed? <==> AllOpen(ts, canOpen)
    decreases |ts|
  {
    if ts != [] {
      var next := if ts[0] == ">" then fds.(stdout := if |ts| > 1 then ts[1] else "")
                  else if ts[0] == "<" then fds.(stdin := if |ts| > 1 then ts[1] else "")
                  else fds;
      ScanProceedsIffAllOpen(ts[1..], next, canOpen);
      assert forall k :: 1 <= k < |ts| ==> ts[k] == ts[1..][k - 1];
      if AllOpen(ts[1..], canOpen) && (ts[0] == ">" ==> |ts| > 1 && canOpen(ts[1], WriteCreateTruncate))
         && (ts[0] == "<" ==> |ts| > 1 && canOpen(ts[1], ReadOnly)) {
        forall k | 0 <= k < |ts| && ts[k] == ">"
          ensures k + 1 < |ts| && canOpen(ts[k + 1], WriteCreateTruncate)
        {
          if k > 0 {
            assert ts[1..][k - 1] == ">";
          }
        }
        forall k | 0 <= k < |ts| && ts[k] == "<"
          ensures k + 1 < |ts| && canOpen(ts[k + 1], ReadOnly)
        {
          if k > 0 {
            assert ts[1..][k - 1] == "<";
          }
        }
      }
    }
  }

  /** The child goes on to exec exactly when every open it attempts succeeds;
      otherwise it ends with exit status 1. */
  lemma RedirectionProceedsIffOpensSucceed(a: seq<Arg>, runBackground: bool, fds: Fds,
                                           canOpen: (string, OpenMode) -> bool)
    ensures var r := Redirection(a, runBackground, fds, canOpen);
            && (r.Proceed? <==>
                  (runBackground ==> canOpen(DEV_NULL, WriteOnly) && canOpen(DEV_NULL, ReadOnly))
                  && AllOpen(Prefix(a), canOpen))
            && (r.ExitStatus? ==> r.code == 1)
  {
    var start := if runBackground then Fds(DEV_NULL, DEV_NULL) else fds;
    ScanProceedsIffAllOpen(Prefix(a), start, canOpen);
  }
}
