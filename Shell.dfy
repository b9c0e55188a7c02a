/** The shell's global state and the operations that change it: the
    background-job table (pidArray, pidIndex), the foreground-only flag that
    SIGTSTP flips, and the status word of the last collected child
    (childExitMethod). fork, waitpid, open, exec and kill are oracles: their
    answers are parameters, and what they would do is returned. */
module Shell {
  import opened Wrappers
  import opened Decimal
  import opened Status
  import opened Tokens
  import opened LineInput
  import opened Expansion
  import opened Redirect
  import opened Jobs

  const FOREGROUND_ON := "Entering foreground-only mode (& is now ignored)\n"
  const FOREGROUND_OFF := "Exiting foreground-only mode\n"

  /** catchSIGTSTP as a transition: the new flag and the bytes written. */
  function Toggle(foregroundOnly: bool): (r: (bool, string))
    ensures r.0 == !foregroundOnly
    ensures |r.1| == if foregroundOnly then 29 else 49
  {
    if !foregroundOnly then (true, FOREGROUND_ON) else (false, FOREGROUND_OFF)
  }

  /** Two deliveries of SIGTSTP restore the flag and write the two messages,
      the one for the current mode first. */
  lemma TwoTogglesRestore(foregroundOnly: bool)
    ensures var first := Toggle(foregroundOnly);
            var second := Toggle(first.0);
            && second.0 == foregroundOnly
            && first.1 + second.1 ==
                 if foregroundOnly then FOREGROUND_OFF + FOREGROUND_ON else FOREGROUND_ON + FOREGROUND_OFF
  {
  }

  /** isBackgroundProcess on the vector: whether the job goes to the
      background, and the vector afterwards. */
  function BackgroundDecision(a: seq<Arg>, lastIndex: int, foregroundOnly: bool): (r: (bool, seq<Arg>))
    requires 0 <= lastIndex < |a| && a[lastIndex].Tok?
    ensures r.0 <==> a[lastIndex] == Tok("&") && !foregroundOnly
    ensures a[lastIndex] == Tok("&") ==> r.1 == a[lastIndex := Null]
    ensures a[lastIndex] != Tok("&") ==> r.1 == a
  {
    if a[lastIndex].text == "&" then (!foregroundOnly, a[lastIndex := Null]) else (false, a)
  }

  /** For a freshly split line whose last token is "&", the command run is
      the line without the "&", in either mode. */
  lemma AmpersandNotPassedOn(tokens: seq<string>, foregroundOnly: bool)
    requires tokens != [] && tokens[|tokens| - 1] == "&"
    ensures var d := BackgroundDecision(Argv(tokens), |tokens| - 1, foregroundOnly);
            Prefix(d.1) == tokens[..|tokens| - 1]
  {
    var last := |tokens| - 1;
    var b := Argv(tokens)[last := Null];
    PrefixUpTo(b, last);
  }

  datatype ForkResult = ForkFailed | InChild | InParent(pid: int)

  /** The answers of the operating system to one command's launch. */
  datatype World = World(
    fork: ForkResult,                        // what fork() returned in this process
    canOpen: (string, OpenMode) -> bool,     // whether open() succeeds
    canExec: string -> bool,                 // whether execvp() finds the program
    launchProbe: Probe,                      // waitpid(pid, WNOHANG) right after a background launch
    foregroundWait: Probe)                   // the blocking waitpid on a foreground child

  datatype ForkOutcome =
    | ForkError                              // fork failed: the shell prints an error and exits with 1
    | ChildExec(argv: seq<string>, fds: Fds) // the child becomes the program, with these descriptors
    | ChildExit(code: int)                   // the child exits before or instead of exec
    | Launched(output: seq<string>)          // the shell goes on, having printed these lines

  datatype CdAction = GoHome | StayPut | ChangeTo(path: string)

  datatype Dispatch =
    | ShellExit(code: int, kills: seq<Kill>)
    | ChangeDirectory(action: CdAction)
    | StatusReport(line: string)
    | Forked(outcome: ForkOutcome)

  /** changeDirectory's three-way branch on the argument: no argument means
      HOME, "." means nothing, anything else is passed to chdir. */
  function CdTarget(a: seq<Arg>): (c: CdAction)
    requires |a| >= 2
    ensures c == GoHome <==> a[1] == Null
    ensures c == StayPut <==> a[1] == Tok(".")
    ensures c.ChangeTo? ==> a[1] == Tok(c.path) && c.path != "."
  {
    if a[1].Null? then GoHome
    else if a[1].text == "." then StayPut
    else ChangeTo(a[1].text)
  }

  /** What the child does: redirect, then exec the vector up to its first
      NULL, or exit with 1 when exec fails (execError). */
  function ChildResult(a: seq<Arg>, background: bool, fds: Fds, world: World): ForkOutcome {
    var r := Redirection(a, background, fds, world.canOpen);
    if r.ExitStatus? then ChildExit(r.code)
    else
      var argv := Prefix(NullMarkers(a));
      if argv != [] && world.canExec(argv[0]) then ChildExec(argv, r.fds) else ChildExit(1)
  }

  /** The child of a line typed as tokens runs the tokens before the first
      redirection marker, without a trailing "&", and every child that does
      not exec ends with status 1. */
  lemma ChildRunsCommandPart(tokens: seq<string>, foregroundOnly: bool, fds: Fds, world: World)
    requires tokens != []
    ensures var last := |tokens| - 1;
            var d := BackgroundDecision(Argv(tokens), last, foregroundOnly);
            var ts := if tokens[last] == "&" then tokens[..last] else tokens;
            var c := ChildResult(d.1, d.0, fds, world);
            && (c.ChildExec? ==> c.argv == ts[..FirstMarker(ts)])
            && (c.ChildExit? ==> c.code == 1)
  {
    var last := |tokens| - 1;
    var d := BackgroundDecision(Argv(tokens), last, foregroundOnly);
    if tokens[last] == "&" {
      AmpersandNotPassedOn(tokens, foregroundOnly);
    } else {
      PrefixOfArgv(tokens);
    }
    ExecSeesTokensBeforeMarker(d.1);
    RedirectionProceedsIffOpensSucceed(d.1, d.0, fds, world.canOpen);
  }

  /** The lines the foreground path prints after its waitpid. */
  function ForegroundLines(probe: Probe): seq<string> {
    if probe.Reaped? && probe.status.Signaled? then [StatusMessage(probe.status)] else []
  }

  /** childExitMethod after a waitpid: overwritten only when a child was
      collected. */
  function Collected(probe: Probe, prior: WaitStatus): WaitStatus {
    if probe.Reaped? then probe.status else prior
  }

  /** The part of the shell's state a command launch can change. */
  datatype JobState = JobState(table: seq<int>, pidIndex: nat, status: WaitStatus)

  /** createFork, in the process that continues after fork() returns: the
      outcome and the shell's job state afterwards. */
  function Launch(a: seq<Arg>, lastIndex: int, foregroundOnly: bool, s: JobState,
                  world: World, fds: Fds): (ForkOutcome, JobState)
    requires 0 <= lastIndex < |a| && a[lastIndex].Tok?
    requires world.fork.InParent? && BackgroundDecision(a, lastIndex, foregroundOnly).0 ==>
      s.pidIndex < |s.table|
  {
    var d := BackgroundDecision(a, lastIndex, foregroundOnly);
    match world.fork
    case ForkFailed => (ForkError, s)
    case InChild => (ChildResult(d.1, d.0, fds, world), s)
    case InParent(pid) =>
      if d.0 then
        (Launched([BackgroundPidMessage(pid)]),
         JobState(s.table[s.pidIndex := pid], s.pidIndex + 1, Collected(world.launchProbe, s.status)))
      else
        (Launched(ForegroundLines(world.foregroundWait)),
         JobState(s.table, s.pidIndex, Collected(world.foregroundWait, s.status)))
  }

  /** A launch changes the job table only in the parent of a background job,
      and then only the slot at pidIndex, which receives the child's pid; the
      shell itself exits only when fork fails. */
  lemma LaunchTouchesOnlyNextSlot(a: seq<Arg>, lastIndex: int, foregroundOnly: bool, s: JobState,
                                  world: World, fds: Fds)
    requires 0 <= lastIndex < |a| && a[lastIndex].Tok?
    requires world.fork.InParent? && BackgroundDecision(a, lastIndex, foregroundOnly).0 ==>
      s.pidIndex < |s.table|
    ensures var r := Launch(a, lastIndex, foregroundOnly, s, world, fds);
            var background := world.fork.InParent? && a[lastIndex] == Tok("&") && !foregroundOnly;
            && |r.1.table| == |s.table|
            && (forall k :: 0 <= k < |s.table| && k != s.pidIndex ==> r.1.table[k] == s.table[k])
            && (background <==> r.1.pidIndex == s.pidIndex + 1)
            && (background ==> r.1.table[s.pidIndex] == world.fork.pid)
            && (!background ==> r.1.table == s.table && r.1.pidIndex == s.pidIndex)
            && (r.0 == ForkError <==> world.fork.ForkFailed?)
            && (world.fork.InChild? ==> r.1 == s && (r.0.ChildExec? || r.0.ChildExit?))
  {
  }

  /** A background job launched from a shell whose table was valid is
      tracked: the exit built-in will send it SIGKILL. */
  lemma BackgroundJobKilledAtExit(a: seq<Arg>, lastIndex: int, foregroundOnly: bool, s: JobState,
                                  world: World, fds: Fds)
    requires 0 <= lastIndex < |a| && a[lastIndex] == Tok("&") && !foregroundOnly
    requires world.fork.InParent? && world.fork.pid > 0
    requires s.pidIndex < |s.table|
    ensures Kill(world.fork.pid, SIGKILL) in KillList(Launch(a, lastIndex, foregroundOnly, s, world, fds).1.table)
  {
    var r := Launch(a, lastIndex, foregroundOnly, s, world, fds);
    assert r.1.table[s.pidIndex] == world.fork.pid;
    KillsEveryTrackedJob(r.1.table);
  }

  predicate IsBuiltIn(name: string) {
    name == "exit" || name == "cd" || name == "status"
  }

  /** builtInFunctions on values: the dispatch and the job state after it. */
  function BuiltIn(a: seq<Arg>, lastIndex: int, foregroundOnly: bool, s: JobState,
                   world: World, fds: Fds): (Dispatch, JobState)
    requires Null in a && a[0].Tok?
    requires !IsBuiltIn(a[0].text) ==>
      && 0 <= lastIndex < |a| && a[lastIndex].Tok?
      && (world.fork.InParent? && BackgroundDecision(a, lastIndex, foregroundOnly).0 ==>
            s.pidIndex < |s.table|)
  {
    var name := a[0].text;
    if name == "exit" then (ShellExit(0, KillList(s.table)), s)
    else if name == "cd" then (ChangeDirectory(CdTarget(a)), s)
    else if name == "status" then (StatusReport(StatusMessage(s.status)), s)
    else
      var r := Launch(a, lastIndex, foregroundOnly, s, world, fds);
      (Forked(r.0), r.1)
  }

  /** The three built-ins run inside the shell and leave its jobs alone;
      exit ends the shell with status 0 after sending SIGKILL to exactly the
      tracked jobs; every other name is launched. */
  lemma BuiltInsStayInShell(a: seq<Arg>, lastIndex: int, foregroundOnly: bool, s: JobState,
                            world: World, fds: Fds)
    requires Null in a && a[0].Tok?
    requires !IsBuiltIn(a[0].text) ==>
      && 0 <= lastIndex < |a| && a[lastIndex].Tok?
      && (world.fork.InParent? && BackgroundDecision(a, lastIndex, foregroundOnly).0 ==>
            s.pidIndex < |s.table|)
    ensures var r := BuiltIn(a, lastIndex, foregroundOnly, s, world, fds);
            && (IsBuiltIn(a[0].text) ==> r.1 == s && !r.0.Forked?)
            && (!IsBuiltIn(a[0].text) <==> r.0.Forked?)
            && (a[0].text == "exit" <==> r.0.ShellExit?)
            && (r.0.ShellExit? ==>
                  && r.0.code == 0
                  && forall x: Kill :: x in r.0.kills <==>
                       x.signal == SIGKILL && x.pid != 0 && x.pid in s.table)
  {
    KillsEveryTrackedJob(s.table);
  }

  /** A line typed at the prompt that is not blank still holds a command
      after "$$" expansion and the newline cut: the pid is made of digits and
      a sign, so it brings neither a space nor a newline. */
  lemma ExpandedLineHasCommand(lineEntered: string, shellPid: int, budget: int)
    requires OneLine(lineEntered) && !Blank(lineEntered)
    ensures !Blank(StripNewline(Expand(lineEntered, IntToString(shellPid), budget)))
  {
    var pid := IntToString(shellPid);
    assert !IsSpace(pid[0]);
    assert '\n' !in pid;
    var e := Expand(lineEntered, pid, budget);
    if lineEntered[|lineEntered| - 1] == '\n' {
      var body := lineEntered[..|lineEntered| - 1];
      assert lineEntered == body + ['\n'];
      assert !Blank(body) by {
        var k :| 0 <= k < |lineEntered| && !IsSpace(lineEntered[k]);
        assert body[k] == lineEntered[k];
      }
      ExpandedBodyHasCommand(body, pid, budget);
      ExpandAppend(body, '\n', pid, budget);
      assert e == Expand(body, pid, budget) + "\n";
    } else {
      assert '\n' !in lineEntered;
      ExpandDrawsFrom(lineEntered, pid, budget);
      ExpandKeepsNonBlank(lineEntered, pid, budget);
      assert '\n' !in e;
      StripWithoutNewline(e);
    }
  }

  /** A line with no newline in it, expanded, keeps a command and gains no
      newline. */
  lemma ExpandedBodyHasCommand(body: string, pid: string, budget: int)
    requires '\n' !in body && !Blank(body)
    requires pid != [] && !IsSpace(pid[0]) && '\n' !in pid
    ensures !Blank(StripNewline(Expand(body, pid, budget) + "\n"))
  {
    var e := Expand(body, pid, budget);
    ExpandDrawsFrom(body, pid, budget);
    ExpandKeepsNonBlank(body, pid, budget);
    assert '\n' !in e;
    StripAtNewline(e);
  }

  /** The line after variableExpansion; a line without "$$" is unchanged. */
  function ExpandedLine(lineEntered: string, shellPid: int): string {
    Expand(lineEntered, IntToString(shellPid), MAX_CHARS - |lineEntered|)
  }

  /** numCharsEntered as the reject rule sees it: getline's count, or one
      less than the expanded line's length after an expansion. */
  function CharsAfterExpansion(lineEntered: string, shellPid: int): int {
    if FindPair(lineEntered).Some? then |ExpandedLine(lineEntered, shellPid)| - 1 else |lineEntered|
  }

  /** The prompt loop dispatches a line exactly when it is not blank and the
      reject rule, applied to the expanded line with the argument count of
      the line as typed, lets it through. */
  predicate Dispatches(lineEntered: string, shellPid: int) {
    && !Blank(lineEntered)
    && !Rejected(ExpandedLine(lineEntered, shellPid), CharsAfterExpansion(lineEntered, shellPid),
                 CountSpaces(lineEntered) - 1)
  }

  /** Blank lines, comment lines and lines with more than MAX_ARGS arguments
      are never dispatched, whatever the expansion does ("$$" cannot turn a
      leading '#' into something else); a line without "$$" is dispatched
      exactly when it is not blank, not a comment and within both limits. */
  lemma IgnoredLines(lineEntered: string, shellPid: int)
    ensures Blank(lineEntered) ==> !Dispatches(lineEntered, shellPid)
    ensures |lineEntered| > 0 && lineEntered[0] == '#' ==> !Dispatches(lineEntered, shellPid)
    ensures CountSpaces(lineEntered) - 1 > MAX_ARGS ==> !Dispatches(lineEntered, shellPid)
    ensures FindPair(lineEntered).None? ==>
      (Dispatches(lineEntered, shellPid) <==>
         && !Blank(lineEntered)
         && |lineEntered| <= MAX_CHARS
         && CountSpaces(lineEntered) - 1 <= MAX_ARGS
         && !(|lineEntered| > 0 && lineEntered[0] == '#'))
  {
    var pid := IntToString(shellPid);
    var budget := MAX_CHARS - |lineEntered|;
    if |lineEntered| > 0 && lineEntered[0] == '#' {
      assert lineEntered == "#" + lineEntered[1..];
      ExpandSkip("#", lineEntered[1..], pid, budget);
    }
  }

  /** The checks of the prompt loop on one line, in the loop's order:
      numArguments and checkEmptyLine on the line as typed, variableExpansion
      when it holds "$$", the reject rule, then the newline cut. A line that
      passes still holds a command. */
  method PrepareLine(lineEntered: string, shellPid: int)
    returns (warned: bool, accepted: bool, commandLine: string)
    requires OneLine(lineEntered)
    ensures warned == Overflows(lineEntered, IntToString(shellPid), MAX_CHARS - |lineEntered|)
    ensures accepted == Dispatches(lineEntered, shellPid)
    ensures commandLine == StripNewline(ExpandedLine(lineEntered, shellPid))
    ensures accepted ==> !Blank(commandLine)
  {
    var numArgs := NumArguments(lineEntered);
    var blank := CheckEmptyLine(lineEntered);
    var line := lineEntered;
    var numChars := |lineEntered|;
    warned := false;
    if FindPair(lineEntered).Some? {
      line, numChars, warned := VariableExpansion(lineEntered, numChars, shellPid);
    }
    var askInput := blank;
    if numChars > MAX_CHARS || numArgs > MAX_ARGS || (|line| > 0 && line[0] == '#') {
      askInput := true;
    }
    accepted := !askInput;
    commandLine := StripNewline(line);
    if accepted {
      ExpandedLineHasCommand(lineEntered, shellPid, MAX_CHARS - |lineEntered|);
    }
  }

  /** Every line the prompt loop dispatches gives a vector whose slot 0
      holds a command name, never the NULL terminator. */
  lemma DispatchedLineHasCommand(lineEntered: string, shellPid: int)
    requires OneLine(lineEntered) && Dispatches(lineEntered, shellPid)
    ensures Argv(Tokenize(StripNewline(ExpandedLine(lineEntered, shellPid))))[0].Tok?
  {
    var line := StripNewline(ExpandedLine(lineEntered, shellPid));
    ExpandedLineHasCommand(lineEntered, shellPid, MAX_CHARS - |lineEntered|);
    NonBlankHasToken(line);
  }

  /** getline returns the last line of its input without a newline when the
      input does not end in one. On such a line numArguments counts one
      space fewer than there are words, so the index the prompt loop passes
      on names the word before the last: for "sleep 5 &" it is slot 1, which
      holds "5", and the job runs in the foreground with "&" handed to exec.
      The index of the last token finds the "&". */
  lemma UnterminatedLineMissesAmpersand()
    ensures var line := "sleep 5 &";
            var a := Argv(Tokenize(StripNewline(line)));
            && OneLine(line)
            && CountSpaces(line) - 1 == 1
            && |a| == 4 && a[1] == Tok("5") && a[2] == Tok("&")
            && !BackgroundDecision(a, CountSpaces(line) - 1, false).0
            && LastArgIndex(StripNewline(line)) == 2
            && BackgroundDecision(a, LastArgIndex(StripNewline(line)), false).0
  {
    var words := ["sleep", "5", "&"];
    var line := "sleep 5 &";
    assert JoinSpaces(words[2..]) == "&";
    assert JoinSpaces(words[1..]) == "5" + " " + "&";
    assert JoinSpaces(words) == line;
    assert SpaceFree(words[0]) && SpaceFree(words[1]) && SpaceFree(words[2]);
    assert DelimiterFree(words[0]) && DelimiterFree(words[1]) && DelimiterFree(words[2]);
    CountSpacesJoin(words);
    assert '\n' !in line;
    StripWithoutNewline(line);
    TokenizeJoinSpaces(words);
    assert Tokenize(StripNewline(line)) == words;
    var a := Argv(words);
    assert a[1] == Tok("5") && a[2] == Tok("&");
  }

  class Shell {
    var pidArray: array<int>
    var pidIndex: nat
    var isForegroundOnly: bool
    var childExitMethod: WaitStatus

    /** The job state the class holds, as a value. */
    ghost function Jobs(): JobState
      reads this, pidArray
    {
      JobState(pidArray[..], pidIndex, childExitMethod)
    }

    /** The table has its 100 slots, and no slot at or after pidIndex has ever
        been used: slots are filled in order and never reused. */
    ghost predicate Valid()
      reads this, pidArray
    {
      && pidArray.Length == TABLE_SIZE
      && pidIndex <= TABLE_SIZE
      && forall k :: pidIndex <= k < TABLE_SIZE ==> pidArray[k] == 0
    }

    /** The globals at start-up; the initial status word is a parameter. */
    constructor(initialStatus: WaitStatus)
      ensures Valid() && fresh(pidArray)
      ensures forall k :: 0 <= k < TABLE_SIZE ==> pidArray[k] == 0
      ensures pidIndex == 0 && !isForegroundOnly && childExitMethod == initialStatus
    {
      pidArray := new int[TABLE_SIZE](_ => 0);
      pidIndex := 0;
      isForegroundOnly := false;
      childExitMethod := initialStatus;
    }

    /** catchSIGTSTP: flip the flag and write the message for the new mode. */
    method CatchSIGTSTP() returns (written: string)
      requires Valid()
      modifies this
      ensures Valid()
      ensures (isForegroundOnly, written) == Toggle(old(isForegroundOnly))
      ensures pidArray == old(pidArray) && pidIndex == old(pidIndex)
      ensures childExitMethod == old(childExitMethod)
    {
      if isForegroundOnly == false {
        written := FOREGROUND_ON;
        isForegroundOnly := true;
      } else {
        written := FOREGROUND_OFF;
        isForegroundOnly := false;
      }
    }

    /** isBackgroundProcess: strcmp on the slot at lastIndex, so that slot
        must hold a token. */
    method IsBackgroundProcess(commandLine: array<Arg>, lastIndex: int) returns (background: bool)
      requires 0 <= lastIndex < commandLine.Length && commandLine[lastIndex].Tok?
      modifies commandLine
      ensures (background, commandLine[..])
              == BackgroundDecision(old(commandLine[..]), lastIndex, isForegroundOnly)
    {
      background := false;
      if commandLine[lastIndex].text == "&" {
        commandLine[lastIndex] := Null;
        if isForegroundOnly {
          background := false;
        } else {
          background := true;
        }
      }
    }

    /** The background branch of createFork: announce the pid, store it in
        the next slot (the C code does not check the bound), and probe it once
        with WNOHANG. A child collected by that probe keeps its slot. */
    method RegisterBackground(pid: int, probe: Probe) returns (announcement: string)
      requires Valid() && pidIndex < TABLE_SIZE
      modifies this, pidArray
      ensures Valid() && pidArray == old(pidArray)
      ensures pidArray[..] == old(pidArray[..])[old(pidIndex) := pid]
      ensures pidIndex == old(pidIndex) + 1
      ensures announcement == BackgroundPidMessage(pid)
      ensures childExitMethod == Collected(probe, old(childExitMethod))
      ensures isForegroundOnly == old(isForegroundOnly)
    {
      announcement := BackgroundPidMessage(pid);
      pidArray[pidIndex] := pid;
      pidIndex := pidIndex + 1;
      if probe.Reaped? {
        childExitMethod := probe.status;
      }
    }

    /** The foreground branch of createFork: a successful blocking wait
        stores the status, and a child killed by a signal is reported. */
    method ForegroundWait(probe: Probe) returns (lines: seq<string>)
      requires Valid()
      modifies this
      ensures Valid()
      ensures pidArray == old(pidArray) && pidIndex == old(pidIndex)
      ensures isForegroundOnly == old(isForegroundOnly)
      ensures childExitMethod == Collected(probe, old(childExitMethod))
      ensures lines == ForegroundLines(probe)
    {
      lines := [];
      if probe.Reaped? {
        childExitMethod := probe.status;
        if childExitMethod.Signaled? {
          lines := [StatusMessage(childExitMethod)];
        }
      }
    }

    /** createFork: decide background, then follow the process fork()
        returned into. The child redirects and execs; the parent registers a
        background job or waits for a foreground one. */
    method CreateFork(commandLine: array<Arg>, lastIndex: int, world: World, fds: Fds)
      returns (outcome: ForkOutcome)
      requires Valid()
      requires 0 <= lastIndex < commandLine.Length && commandLine[lastIndex].Tok?
      requires Null in commandLine[..]
      requires world.fork.InParent? && BackgroundDecision(commandLine[..], lastIndex, isForegroundOnly).0 ==>
        pidIndex < TABLE_SIZE
      modifies this, pidArray, commandLine
      ensures Valid() && pidArray == old(pidArray) && isForegroundOnly == old(isForegroundOnly)
      ensures (outcome, Jobs())
              == Launch(old(commandLine[..]), lastIndex, isForegroundOnly, old(Jobs()), world, fds)
      ensures var d := BackgroundDecision(old(commandLine[..]), lastIndex, isForegroundOnly);
              && (!world.fork.InChild? ==> commandLine[..] == d.1)
              && (outcome.ChildExec? ==> commandLine[..] == NullMarkers(d.1))
    {
      ghost var terminator :| 0 <= terminator < commandLine.Length && commandLine[terminator] == Null;
      ghost var s0 := Jobs();
      ghost var d := BackgroundDecision(commandLine[..], lastIndex, isForegroundOnly);
      var background := IsBackgroundProcess(commandLine, lastIndex);
      assert background == d.0 && commandLine[..] == d.1;
      assert Jobs() == s0;
      assert commandLine[..][terminator] == Null;
      match world.fork
      case ForkFailed =>
        outcome := ForkError;
      case InChild =>
        var redirected := IoRedirect(commandLine, background, fds, world.canOpen);
        if redirected.ExitStatus? {
          outcome := ChildExit(redirected.code);
        } else {
          var argv := Prefix(commandLine[..]);
          if argv != [] && world.canExec(argv[0]) {
            outcome := ChildExec(argv, redirected.fds);
          } else {
            outcome := ChildExit(1);
          }
        }
      case InParent(pid) =>
        if background {
          var announcement := RegisterBackground(pid, world.launchProbe);
          outcome := Launched([announcement]);
        } else {
          var lines := ForegroundWait(world.foregroundWait);
          outcome := Launched(lines);
        }
    }

    /** builtInFunctions: exit, cd and status run in the shell; anything else
        is launched. lastIndex matters only to a launch. */
    method BuiltInFunctions(commandLine: array<Arg>, lastIndex: int, world: World, fds: Fds)
      returns (d: Dispatch)
      requires Valid()
      requires Null in commandLine[..] && commandLine[0].Tok?
      requires !IsBuiltIn(commandLine[0].text) ==>
        && 0 <= lastIndex < commandLine.Length && commandLine[lastIndex].Tok?
        && (world.fork.InParent? && BackgroundDecision(commandLine[..], lastIndex, isForegroundOnly).0 ==>
              pidIndex < TABLE_SIZE)
      modifies this, pidArray, commandLine
      ensures Valid() && pidArray == old(pidArray) && isForegroundOnly == old(isForegroundOnly)
      ensures (d, Jobs())
              == BuiltIn(old(commandLine[..]), lastIndex, isForegroundOnly, old(Jobs()), world, fds)
      ensures IsBuiltIn(old(commandLine[0]).text) ==> commandLine[..] == old(commandLine[..])
    {
      var name := commandLine[0].text;
      if name == "exit" {
        var kills := KillBackgroundProcesses();
        d := ShellExit(0, kills);
      } else if name == "cd" {
        d := ChangeDirectory(CdTarget(commandLine[..]));
      } else if name == "status" {
        var line := GetStatus();
        d := StatusReport(line);
      } else {
        var outcome := CreateFork(commandLine, lastIndex, world, fds);
        d := Forked(outcome);
      }
    }

    /** One line read at the prompt, dispatched when the checks let it
        through (see PrepareLine). */
    method ProcessLine(lineEntered: string, shellPid: int, world: World, fds: Fds)
      returns (warned: bool, d: Option<Dispatch>)
      requires Valid() && OneLine(lineEntered)
      requires var line := StripNewline(ExpandedLine(lineEntered, shellPid));
               var a := Argv(Tokenize(line));
               var k := LastArgIndex(line);
               (Dispatches(lineEntered, shellPid) && a[0].Tok? && !IsBuiltIn(a[0].text)
                && world.fork.InParent? && 0 <= k < |a| && a[k].Tok?
                && BackgroundDecision(a, k, isForegroundOnly).0)
               ==> pidIndex < TABLE_SIZE
      modifies this, pidArray
      ensures Valid() && pidArray == old(pidArray) && isForegroundOnly == old(isForegroundOnly)
      ensures warned == Overflows(lineEntered, IntToString(shellPid), MAX_CHARS - |lineEntered|)
      ensures d.Some? <==> Dispatches(lineEntered, shellPid)
      ensures d.None? ==> Jobs() == old(Jobs())
      ensures d.Some? ==>
                var line := StripNewline(ExpandedLine(lineEntered, shellPid));
                var a := Argv(Tokenize(line));
                var k := LastArgIndex(line);
                && 0 <= k && k + 1 < |a| && a[0].Tok? && a[k].Tok? && a[k + 1] == Null
                && (d.value, Jobs()) == BuiltIn(a, k, isForegroundOnly, old(Jobs()), world, fds)
    {
      var accepted, line;
      warned, accepted, line := PrepareLine(lineEntered, shellPid);
      if !accepted {
        d := None;
      } else {
        LastArgIndexIsLastToken(line);
        var lastIndex := LastArgIndex(line);
        var commandLine := TokenizeString(line);
        assert commandLine[..][lastIndex + 1] == Null;
        var dispatch := BuiltInFunctions(commandLine, lastIndex, world, fds);
        d := Some(dispatch);
      }
    }

    /** checkBackgroundStatus, with probes[i] the answer waitpid(WNOHANG)
        gives for slot i. */
    method CheckBackgroundStatus(probes: seq<Probe>) returns (reports: seq<string>)
      requires Valid() && |probes| == TABLE_SIZE
      modifies this, pidArray
      ensures Valid() && pidArray == old(pidArray)
      ensures pidIndex == old(pidIndex) && isForegroundOnly == old(isForegroundOnly)
      ensures pidArray[..] == Reap(old(pidArray[..]), probes)
      ensures reports == ReportLines(old(pidArray[..]), probes, FinishedSlots(old(pidArray[..]), probes))
      ensures childExitMethod
              == StatusAfter(probes, FinishedSlots(old(pidArray[..]), probes), old(childExitMethod))
    {
      ghost var table := pidArray[..];
      ghost var init := childExitMethod;
      reports := [];
      var i := 0;
      while i < TABLE_SIZE
        invariant 0 <= i <= TABLE_SIZE
        invariant pidArray == old(pidArray) && pidIndex == old(pidIndex)
        invariant isForegroundOnly == old(isForegroundOnly)
        invariant Valid()
        invariant Pass(pidArray[..], reports, childExitMethod) == PassUpTo(table, probes, i, init)
      {
        ghost var before := Pass(pidArray[..], reports, childExitMethod);
        var pid := pidArray[i];
        if pid != 0 {
          if probes[i].Reaped? {
            childExitMethod := probes[i].status;
            reports := reports + [BackgroundDoneMessage(pid, childExitMethod)];
            pidArray[i] := 0;
            assert pidArray[..] == before.table[i := 0];
          }
        }
        assert Pass(pidArray[..], reports, childExitMethod) == Visit(before, probes, i);
        i := i + 1;
      }
      PassMeetsSpec(table, probes, TABLE_SIZE, init);
      ReapZeroesFinished(table, probes);
    }

    /** killBackgroundProcesses: the kill calls, in slot order. */
    method KillBackgroundProcesses() returns (kills: seq<Kill>)
      requires Valid()
      ensures kills == KillList(pidArray[..])
    {
      kills := [];
      var i := 0;
      while i < TABLE_SIZE
        invariant 0 <= i <= TABLE_SIZE
        invariant kills == KillsUpTo(pidArray[..], i)
      {
        if pidArray[i] != 0 {
          kills := kills + [Kill(pidArray[i], SIGKILL)];
        }
        i := i + 1;
      }
    }

    /** getStatus: the line the `status` built-in prints. */
    method GetStatus() returns (line: string)
      ensures line == StatusMessage(childExitMethod)
    {
      match childExitMethod
      case Signaled(sig) =>
        line := SIGNAL_PREFIX + Decimal.IntToString(sig) + "\n";
      case Exited(code, _) =>
        line := EXIT_PREFIX + Decimal.IntToString(code) + "\n";
    }
  }
}
