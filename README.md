# customshell in Dafny

A model of the core of `customshell.c`, a small Unix shell with a `:` prompt. The model covers:

- what happens to a line after `getline` returns it:
  - the argument count (`numArguments`);
  - the blank-line test (`checkEmptyLine`);
  - `$$` expansion to the shell's pid (`variableExpansion`);
  - the reject rule for over-long lines, lines with too many arguments and `#` comment lines;
  - the newline cut;
  - the split into a NULL-terminated argument vector (`tokenizeString`);
  - the index of the last argument;
- the dispatch to the three built-ins `exit`, `cd` and `status` (`builtInFunctions`, `changeDirectory`, `getStatus`);
- the launch of any other command (`createFork`), including:
  - the background decision (`isBackgroundProcess`);
  - the child's redirections (`ioRedirect`);
  - the parent's bookkeeping;
- the background-job table of 100 pid slots:
  - registration at launch;
  - the per-prompt reaping pass (`checkBackgroundStatus`);
  - the SIGKILL sweep at `exit` (`killBackgroundProcesses`);
- the foreground-only mode that SIGTSTP toggles (`catchSIGTSTP`).

The shell's globals are the fields of `class Shell` (module `Shell`):

| field | what it holds |
|---|---|
| `pidArray` | the job table, a 100-slot array |
| `pidIndex` | the next free slot |
| `isForegroundOnly` | whether foreground-only mode is on |
| `childExitMethod` | the status word of the last collected child |

Operations that update these fields in place are methods of that class. Each method is proved against a function on values:

| method | specified by |
|---|---|
| `CheckBackgroundStatus` | `Reap`, `ReportLines`, `StatusAfter` |
| `CreateFork` | `Launch` |
| `BuiltInFunctions` | `BuiltIn` |
| `CatchSIGTSTP` | `Toggle` |
| `IsBackgroundProcess` | `BackgroundDecision` |

The lemmas about those functions state what the shell promises.

Loops of the C code are methods with loop invariants, each specified by a function:

| method | loop it models | specified by |
|---|---|---|
| `NumArguments` | numArguments | `CountSpaces` |
| `CheckEmptyLine` | checkEmptyLine | `Blank` |
| `CollectTokens`, `TokenizeString` | the strtok loop | `Tokenize` |
| `VariableExpansion` | the `strstr` loop | `Expand`, `Overflows` |
| `IoRedirect` | the marker loop | `Redirection`, `NullMarkers` |
| `CheckBackgroundStatus` | the reaping loop | see above |
| `KillBackgroundProcesses` | the kill loop | `KillList` |

System calls are oracles passed in as values:

| system call | modelled as |
|---|---|
| `fork` | `World.fork` |
| `open` | `World.canOpen` |
| `execvp` | `World.canExec` |
| each `waitpid` | a `Probe`: the child was collected with a status, or it was not |
| `getpid` | the `shellPid` parameter |

Output written with `printf`/`write` and the `kill` calls are returned as values. Descriptors 0 and 1 are reduced to the name of the file each refers to (`Fds`).

A wait status is the decoded value (`Exited(code, word)` or `Signaled(signal)`) rather than its bit encoding. `word` is the raw status word, because the background report at `customshell.c:654` prints the raw word, not `WEXITSTATUS` of it. The `status` built-in prints the decoded code.

## Model

| member | source | states |
|---|---|---|
| Decimal.IntToString | customshell.c:768 | `%d` text of an integer: non-empty, digits after an optional leading `-`, and the `-` is there exactly when the value is negative |
| Decimal.IntToStringRoundTrip | customshell.c:768 | the text `sprintf("%d")` writes for the pid reads back as the same integer, so formatting loses nothing |
| Status.StatusMessage | customshell.c:203-217 | the `status` line ends in a newline |
| Status.StatusMessageRoundTrip | customshell.c:203-217 | the `status` line says whether the child was killed by a signal, and carries the signal number or the decoded exit value |
| LineInput.NumArguments | customshell.c:99-122 | the count is the number of isspace characters minus one, so it is at least -1 |
| LineInput.CheckEmptyLine | customshell.c:716-731 | reports a blank line exactly when every character is isspace, in both directions |
| LineInput.StripNewline | customshell.c:922 | the cut line is a prefix of the line, holds no newline, and stops only at a newline |
| LineInput.NonBlankHasToken | customshell.c:135-147 | a line with a non-isspace character yields at least one token |
| Shell.DispatchedLineHasCommand | customshell.c:913-928 | every dispatched line, expanded and cut, gives a vector whose slot 0 holds a command name, never the NULL terminator |
| LineInput.LastIndexOfTypedLine | customshell.c:891 | for words separated by single spaces and ended by the newline, numArguments is the index of the last word, and splitting gives the words back |
| LineInput.TrailingSpaceMisplacesLastIndex | customshell.c:919 | for the line `"ls \n"` the index the prompt loop uses is 1, and slot 1 of the vector is the NULL terminator |
| LineInput.LastArgIndexIsLastToken | customshell.c:919 | the corrected last index names a real token, directly followed by the NULL terminator, on every line with a command |
| LineInput.LastArgIndexAgreesOnTypedLine | customshell.c:919 | the corrected index equals numArguments on every newline-terminated line typed with single spaces |
| Shell.UnterminatedLineMissesAmpersand | customshell.c:919 | on `"sleep 5 &"` without a newline the index the prompt loop uses finds `5`, so the job stays in the foreground, while the index of the last token finds the `&` |
| LineInput.CountSpacesJoin | customshell.c:99-122 | words without whitespace joined by single spaces hold one space fewer than there are words |
| Tokens.Argv | customshell.c:143-144 | the vector holds the tokens in order, then one NULL |
| Tokens.TokensWellFormed | customshell.c:135-147 | every token is non-empty and holds no delimiter |
| Tokens.TokensMaximal | customshell.c:143-144 | the tokens are the maximal runs: the line is the tokens with delimiter-only separators around them, and the separator between two tokens is never empty |
| Tokens.TokensCoverLine | customshell.c:135-147 | the tokens, concatenated, are exactly the line's non-delimiter characters in order |
| Tokens.TokenizeJoinSpaces | customshell.c:135-147 | splitting words joined by single spaces gives the words back |
| Tokens.PrefixOfArgv | customshell.c:418 | exec sees exactly the tokens of a freshly built vector |
| Tokens.CollectTokens | customshell.c:143-144 | the strtok loop collects exactly `Tokenize` of the line |
| Tokens.TokenizeString | customshell.c:135-147 | the new array is `Argv(Tokenize(line))` |
| Expansion.FindPairFirst | customshell.c:756 | the position strstr reports is the first `"$$"`, and none means there is none |
| Expansion.VariableExpansion | customshell.c:753-806 | without `"$$"` nothing changes. Otherwise the line is `Expand` of it with `MAX_CHARS - len` of room, the char count becomes its length minus one, and the warning is printed exactly when `Overflows` |
| Expansion.ProgressStep | customshell.c:779-798 | one replacement keeps the loop's invariant: the finished part plus the expansion of the rest is the expansion of the entered line |
| Expansion.ProgressDone | customshell.c:779-798 | when the loop stops, the line is the full expansion, and it stopped early exactly when the line overflows |
| Expansion.ExpandAppend | customshell.c:753-806 | the newline at the end of a line stays at its end after expansion |
| Expansion.ExpandDrawsFrom | customshell.c:753-806 | every character of the expanded line comes from the line or from the pid |
| Expansion.ExpandKeepsNonBlank | customshell.c:753-806 | a line with a non-isspace character keeps one after expansion |
| Expansion.SegmentsJoin | customshell.c:779 | the pieces between non-overlapping `"$$"` rebuild the line, and none of them holds a `"$$"` |
| Expansion.ExpandIsSubstitution | customshell.c:777-798 | the expansion is the line's pieces with the pid in the first k gaps and `"$$"` in the rest |
| Expansion.ReplacementsMaximal | customshell.c:777-790 | k is the largest count, up to the number of occurrences, whose pids all fit within MAX_CHARS: one more would not fit |
| Expansion.OverflowsIffUnreplaced | customshell.c:785-790 | the "exceeded" warning is printed exactly when some `"$$"` was left unreplaced |
| Expansion.NoPairUnchanged | customshell.c:756-759 | a line without `"$$"` is left as it is and gives no warning |
| Redirect.IoRedirect | customshell.c:444-550 | the outcome is `Redirection` of the vector. On success every marker before the terminator is NULL, and no slot changes except a marker that becomes NULL |
| Redirect.Scan | customshell.c:496-549 | a child that stops in the loop exits with status 1 |
| Redirect.NullMarkers | customshell.c:496-549 | exactly the `>` and `<` slots before the terminator become NULL |
| Redirect.ExecSeesTokensBeforeMarker | customshell.c:414-418 | after the loop, exec sees exactly the tokens before the first `>` or `<` |
| Redirect.LastTargetIsLast | customshell.c:496-549 | `LastTarget` names the token after the last marker of its kind that has one, and is None when there is no such marker |
| Redirect.DescriptorsFollowLastMarker | customshell.c:444-550 | descriptor 1 ends on the target of the last `>`, or else `/dev/null` for a background job and unchanged for a foreground one; descriptor 0 the same with `<` |
| Redirect.ScanProceedsIffAllOpen | customshell.c:496-549 | the loop completes exactly when every marker has a target that opens in the marker's mode |
| Redirect.RedirectionProceedsIffOpensSucceed | customshell.c:444-550 | the child goes on to exec exactly when every open succeeds, including both `/dev/null` opens of a background job; otherwise it exits with 1 |
| Jobs.FinishedUpTo | customshell.c:638-660 | the collected slots are in increasing order, each finished, and every finished slot is among them |
| Jobs.PassMeetsSpec | customshell.c:632-662 | the slot-by-slot pass yields: the table with the finished slots zeroed, one line per finished slot in slot order, and the status of the last one collected |
| Jobs.ReapZeroesFinished | customshell.c:658 | a slot changes exactly when it finished, and then it becomes 0 |
| Jobs.QuietPassChangesNothing | customshell.c:632-662 | when no tracked child finished, the table, the output and the status stay as they were |
| Jobs.ReportedOnce | customshell.c:658 | a slot reported in one pass is never reported by a later pass, whatever the later probes say |
| Jobs.StatusIsLastCollected | customshell.c:643 | the status left is that of the highest finished slot, or the old status when none finished |
| Jobs.KillsEveryTrackedJob | customshell.c:232-245 | SIGKILL, and only SIGKILL, goes to every pid in a non-zero slot and to no other pid |
| Shell.Toggle | customshell.c:683-701 | the flag flips, and 49 or 29 bytes are written |
| Shell.TwoTogglesRestore | customshell.c:683-701 | two SIGTSTPs restore the mode and write the two messages in order |
| Shell.BackgroundDecision | customshell.c:569-591 | background exactly when the last slot is `&` and foreground-only mode is off. A trailing `&` is set to NULL in either mode, and nothing else changes |
| Shell.AmpersandNotPassedOn | customshell.c:572-575 | for a line ending in `&`, exec sees the line without the `&` |
| Shell.CdTarget | customshell.c:263-281 | HOME exactly when there is no argument, nothing exactly when the argument is `.`, otherwise chdir to the argument |
| Shell.ChildRunsCommandPart | customshell.c:412-422 | the child execs the tokens before the first marker, without a trailing `&`, and every child that does not exec exits with status 1 |
| Shell.LaunchTouchesOnlyNextSlot | customshell.c:326-396 | a launch changes the table only in the parent of a background job, and only at pidIndex, which receives the child's pid. The shell exits only when fork fails |
| Shell.BackgroundJobKilledAtExit | customshell.c:361 | a registered background job gets SIGKILL from the exit built-in |
| Shell.BuiltInsStayInShell | customshell.c:164-189 | the built-ins leave the jobs alone, and every other name is launched. `exit` ends with status 0 after killing exactly the tracked jobs |
| Shell.ExpandedLineHasCommand | customshell.c:904-928 | a non-blank line is still non-blank after `$$` expansion and the newline cut |
| Shell.IgnoredLines | customshell.c:913-916 | blank lines, `#` lines and lines over MAX_ARGS are never dispatched. A line without `"$$"` is dispatched exactly when it is not blank, within both limits and not a comment |
| Shell.PrepareLine | customshell.c:891-922 | the warning, the accept decision and the cut line are those `Overflows`, `Dispatches` and `StripNewline(Expand(..))` give, and an accepted line is never blank |
| Shell.Shell.constructor | customshell.c:49-53 | the table starts all zero, pidIndex 0, foreground-only off |
| Shell.Shell.CatchSIGTSTP | customshell.c:683-701 | the new flag and the bytes written are `Toggle` of the old flag, and nothing else changes |
| Shell.Shell.IsBackgroundProcess | customshell.c:569-591 | the result and the new vector are `BackgroundDecision` of the old vector |
| Shell.Shell.RegisterBackground | customshell.c:355-364 | the announcement is printed, the pid goes into slot pidIndex, pidIndex grows by one, and the WNOHANG probe may store a status |
| Shell.Shell.ForegroundWait | customshell.c:367-393 | a collected child's status is stored, and a child killed by a signal is reported |
| Shell.Shell.CreateFork | customshell.c:308-398 | the outcome and the new job state are `Launch` of the old ones. The vector is `BackgroundDecision`'s in the parent, with the markers nulled when the child execs |
| Shell.Shell.BuiltInFunctions | customshell.c:164-189 | the dispatch and the new job state are `BuiltIn` of the old ones, and a built-in leaves the vector alone |
| Shell.Shell.ProcessLine | customshell.c:885-928 | a line is dispatched exactly when `Dispatches` holds, on the vector of the cut, expanded line with the corrected last index; an undispatched line leaves the jobs alone; a free job-table slot is demanded only of a line that launches a background job |
| Shell.Shell.CheckBackgroundStatus | customshell.c:632-662 | the new table, the lines printed and the new status are `Reap`, `ReportLines` and `StatusAfter` of the finished slots |
| Shell.Shell.KillBackgroundProcesses | customshell.c:232-245 | the kill calls are `KillList` of the table, in slot order |
| Shell.Shell.GetStatus | customshell.c:203-217 | the line printed is `StatusMessage` of the stored status |

## Left out

- Signal dispositions, `sigaction` set-up, the SIGTSTP mask around the foreground wait, and the failure branches of `sigprocmask` are not modelled. A SIGTSTP is modelled only as a call of `CatchSIGTSTP` between commands; asynchronous delivery is not modelled.
- The bit layout of a wait status and the `WIF*` macros are not modelled. A status is the decoded `WaitStatus`. A stopped child is not a case.
- `childExitMethod`'s initial value is not fixed: the constructor takes it as a parameter.
- The prompt loop itself is not modelled: the prompt, `usleep`, `getline` and its end-of-file branch, `clearerr`, and `free`. `Shell.ProcessLine` handles one line. The reaping pass before the prompt is the separate `CheckBackgroundStatus`.
- C buffer sizes are not modelled:
  - the `MAX_ARGS` pointers `tokenizeString` allocates;
  - the 10-byte `pidString`;
  - the getline buffer that the expansion's `sprintf` writes into.
  Strings are unbounded, so no overrun is modelled.
- NUL bytes inside a line are not modelled. Strings in the model hold none.
- Each character of a model string stands for one byte of the C string. Multi-byte encodings are not modelled. The limits compare byte counts: getline's return value, and `strlen` in the expansion budget and the new count (`customshell.c:888`, `customshell.c:777`, `customshell.c:804`). A line of non-ASCII characters is therefore longer in C than in the model, and the C code rejects it sooner.
- `canOpen` is one fixed function for the whole line. It cannot see that an earlier `>` created a file (`customshell.c:503`) which a later `<` on the same line then opens (`customshell.c:529`). No lemma depends on the order of the opens.
- Shell.Shell.RegisterBackground: requires a free slot (`pidIndex < 100`). The C code stores at `pidArray[pidIndex++]` without a bound check, and a 101st background job writes past the table.
- The WNOHANG probe right after a background launch may collect the child. Its slot then keeps the pid; the model keeps it too, but proves nothing about what a later pass or a later `kill` does with such a reused pid.
- `execvp` on a vector whose slot 0 is NULL, because the first token is a marker (`> out`), is modelled as a failed exec: the child exits with status 1. The real call receives a NULL file name and most likely ends the child with SIGSEGV instead, so the child's real outcome differs from the model.
- `chdir`'s result and the `perror` message are not modelled. `Shell.CdTarget` gives the directory asked for.
- Error messages on standard error (`perror`) are not modelled. Only the exit codes are.
- `fork` failure: the shell exits with 1; this is the `ForkError` outcome.
- The child ignores SIGTSTP and, in the foreground, takes SIGINT's default action. This is not modelled.
- The status variable is also overwritten by `checkBackgroundStatus` and by the WNOHANG probe at launch, as the code does (`customshell.c:364`, `customshell.c:643`). Only the foreground wait is meant to update it, but the model follows the code.

## Findings

| source | as written | input that shows it | evidently intended | confidence | as-written member | corrected member |
|---|---|---|---|---|---|---|
| customshell.c:919 | the index of the last argument is numArguments: the count of whitespace characters minus one | `"ls \n"`: the index is 1, and slot 1 of the vector is the NULL terminator, which `isBackgroundProcess` passes to `strcmp` | the index of the last token: the number of tokens minus one | not executed | LineInput.TrailingSpaceMisplacesLastIndex | LineInput.LastArgIndexIsLastToken |
| customshell.c:919 | the same index on a last line without a newline, which getline returns when the input does not end in one | `"sleep 5 &"`: numArguments is 1, and slot 1 holds `5`. `isBackgroundProcess` compares `5`, so the job runs in the foreground and `&` is passed to exec | the index of the last token, 2, which finds the `&` and runs the job in the background | not executed | Shell.UnterminatedLineMissesAmpersand | LineInput.LastArgIndexIsLastToken |

`Shell.Shell.ProcessLine` uses the corrected index, `LineInput.LastArgIndex`. `LineInput.LastArgIndexAgreesOnTypedLine` shows that the two indexes agree on every newline-terminated line typed with single spaces. On both inputs above, `ProcessLine` therefore behaves differently from the C code.
