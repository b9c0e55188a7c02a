/** How a child process ended, and the lines the shell prints about it.

    The C code keeps one raw wait-status word (childExitMethod) and decodes it
    with the platform's WIFSIGNALED / WTERMSIG / WEXITSTATUS macros. Their bit
    layout is not part of this model: a WaitStatus is the already decoded value,
    and an exited one also carries the raw word, because the background report
    prints that word instead of the exit code. */
module Status {
  import opened Wrappers
  import opened Decimal

  datatype WaitStatus =
    | Exited(code: int, word: int)  // WIFEXITED; code is WEXITSTATUS, word the raw status word
    | Signaled(signal: int)          // WIFSIGNALED; signal is WTERMSIG

  /** What one waitpid call reports about a child: it collected a terminated
      child (return value > 0, status stored), or it did not (0 for a child still
      running under WNOHANG, -1 for an error); in the second case the status
      word is left as it was. */
  datatype Probe = NotReaped | Reaped(status: WaitStatus)

  const SIGNAL_PREFIX := "terminated by signal "
  const EXIT_PREFIX := "exit value "

  /** The line the `status` built-in prints for the last recorded status
      (getStatus); the foreground path prints the same signal line when a
      foreground child is killed by a signal. */
  function StatusMessage(s: WaitStatus): (m: string)
    ensures |m| > 0 && m[|m| - 1] == '\n'
  {
    match s
    case Signaled(sig) => SIGNAL_PREFIX + IntToString(sig) + "\n"
    case Exited(code, _) => EXIT_PREFIX + IntToString(code) + "\n"
  }

  /** Reads a status line back: whether it reports a signal, and the number. */
  function ParseStatusMessage(m: string): Option<(bool, int)> {
    if |m| < 1 || m[|m| - 1] != '\n' then None
    else
      var body := m[..|m| - 1];
      if |body| >= |SIGNAL_PREFIX| && body[..|SIGNAL_PREFIX|] == SIGNAL_PREFIX then
        match ParseInt(body[|SIGNAL_PREFIX|..])
        case Some(n) => Some((true, n))
        case None => None
      else if |body| >= |EXIT_PREFIX| && body[..|EXIT_PREFIX|] == EXIT_PREFIX then
        match ParseInt(body[|EXIT_PREFIX|..])
        case Some(n) => Some((false, n))
        case None => None
      else None
  }

  /** The `status` line says which way the child ended and carries the signal
      number or the decoded exit code, not the raw word. */
  lemma StatusMessageRoundTrip(s: WaitStatus)
    ensures ParseStatusMessage(StatusMessage(s))
            == Some(if s.Signaled? then (true, s.signal) else (false, s.code))
  {
    var m := StatusMessage(s);
    var body := m[..|m| - 1];
    match s
    case Signaled(sig) =>
      assert body == SIGNAL_PREFIX + IntToString(sig);
      assert body[|SIGNAL_PREFIX|..] == IntToString(sig);
      IntToStringRoundTrip(sig);
    case Exited(code, _) =>
      assert body == EXIT_PREFIX + IntToString(code);
      assert !(|body| >= |SIGNAL_PREFIX| && body[..|SIGNAL_PREFIX|] == SIGNAL_PREFIX) by {
        assert body[0] == 'e' && SIGNAL_PREFIX[0] == 't';
      }
      assert body[|EXIT_PREFIX|..] == IntToString(code);
      IntToStringRoundTrip(code);
  }

  /** "background pid is <pid>", printed when a background child is launched. */
  function BackgroundPidMessage(pid: int): string {
    "background pid is " + IntToString(pid) + "\n"
  }

  /** The line printed when a tracked background child is collected. A child
      killed by a signal reports the signal number; one that exited reports the
      raw status word, not WEXITSTATUS of it. */
  function BackgroundDoneMessage(pid: int, s: WaitStatus): string {
    var head := "background pid " + IntToString(pid) + " is done: ";
    match s
    case Signaled(sig) => head + "terminated by signal: " + IntToString(sig) + "\n"
    case Exited(_, word) => head + "exit value: " + IntToString(word) + "\n"
  }
}
