/** The background-job table as values: the 100 pid slots of pidArray, where 0
    marks an empty slot. A pass of checkBackgroundStatus probes every non-zero
    slot with waitpid(WNOHANG); a slot whose probe collected the child is
    reported, its status becomes the shell's last status, and the slot is
    zeroed. killBackgroundProcesses sends SIGKILL to every non-zero slot. */
module Jobs {
  import opened Status

  const TABLE_SIZE := 100
  const SIGKILL := 9

  /** One kill(pid, signal) call. */
  datatype Kill = Kill(pid: int, signal: int)

  /** Slot k holds a job whose probe in this pass collected it. */
  predicate Finished(table: seq<int>, probes: seq<Probe>, k: int)
    requires |probes| == |table|
  {
    0 <= k < |table| && table[k] != 0 && probes[k].Reaped?
  }

  /** The slots a pass collects among the first n, in slot order: each
      finished slot exactly once, and nothing else. */
  function FinishedUpTo(table: seq<int>, probes: seq<Probe>, n: nat): (slots: seq<nat>)
    requires |probes| == |table| && n <= |table|
    ensures forall j :: 0 <= j < |slots| ==> slots[j] < n && Finished(table, probes, slots[j])
    ensures forall j, j' :: 0 <= j < j' < |slots| ==> slots[j] < slots[j']
    ensures forall k :: 0 <= k < n && Finished(table, probes, k) ==> k in slots
  {
    if n == 0 then []
    else FinishedUpTo(table, probes, n - 1) + (if Finished(table, probes, n - 1) then [n - 1] else [])
  }

  function FinishedSlots(table: seq<int>, probes: seq<Probe>): seq<nat>
    requires |probes| == |table|
  {
    FinishedUpTo(table, probes, |table|)
  }

  /** The table after the first n slots have been visited. */
  function ReapUpTo(table: seq<int>, probes: seq<Probe>, n: nat): (r: seq<int>)
    requires |probes| == |table|
    ensures |r| == |table|
  {
    seq(|table|, k requires 0 <= k < |table| =>
      if k < n && Finished(table, probes, k) then 0 else table[k])
  }

  function Reap(table: seq<int>, probes: seq<Probe>): seq<int>
    requires |probes| == |table|
  {
    ReapUpTo(table, probes, |table|)
  }

  /** The shell's status after the collected slots overwrote it in turn. */
  function StatusAfter(probes: seq<Probe>, slots: seq<nat>, init: WaitStatus): WaitStatus
    requires forall j :: 0 <= j < |slots| ==> slots[j] < |probes| && probes[slots[j]].Reaped?
  {
    if slots == [] then init else probes[slots[|slots| - 1]].status
  }

  /** The lines printed for the collected slots, in order. */
  function ReportLines(table: seq<int>, probes: seq<Probe>, slots: seq<nat>): (lines: seq<string>)
    requires |probes| == |table|
    requires forall j :: 0 <= j < |slots| ==> slots[j] < |table| && probes[slots[j]].Reaped?
    ensures |lines| == |slots|
  {
    if slots == [] then []
    else
      var last := slots[|slots| - 1];
      ReportLines(table, probes, slots[..|slots| - 1])
        + [BackgroundDoneMessage(table[last], probes[last].status)]
  }

  /** The state of a pass: the table, the lines printed, the shell's status. */
  datatype Pass = Pass(table: seq<int>, reports: seq<string>, status: WaitStatus)

  /** The pass as the loop runs it, slot by slot over the table as it stands
      so far. */
  function PassUpTo(table: seq<int>, probes: seq<Probe>, n: nat, init: WaitStatus): (p: Pass)
    requires |probes| == |table| && n <= |table|
    ensures |p.table| == |table|
  {
    if n == 0 then Pass(table, [], init)
    else Visit(PassUpTo(table, probes, n - 1, init), probes, n - 1)
  }

  /** One iteration of the loop, at slot k. */
  function Visit(p: Pass, probes: seq<Probe>, k: nat): (q: Pass)
    requires k < |p.table| && k < |probes|
    ensures |q.table| == |p.table|
  {
    if p.table[k] != 0 && probes[k].Reaped? then
      Pass(p.table[k := 0], p.reports + [BackgroundDoneMessage(p.table[k], probes[k].status)],
           probes[k].status)
    else p
  }

  /** The kill calls of killBackgroundProcesses for the first n slots. */
  function KillsUpTo(table: seq<int>, n: nat): seq<Kill>
    requires n <= |table|
  {
    if n == 0 then []
    else KillsUpTo(table, n - 1) + (if table[n - 1] != 0 then [Kill(table[n - 1], SIGKILL)] else [])
  }

  function KillList(table: seq<int>): seq<Kill> {
    KillsUpTo(table, |table|)
  }

  /** One slot of a pass: visiting slot i extends each of the pass's results
      by what that slot contributes. */
  lemma PassStep(table: seq<int>, probes: seq<Probe>, i: nat, init: WaitStatus)
    requires |probes| == |table| && i < |table|
    ensures Finished(table, probes, i) ==>
      && ReapUpTo(table, probes, i + 1) == ReapUpTo(table, probes, i)[i := 0]
      && ReportLines(table, probes, FinishedUpTo(table, probes, i + 1))
         == ReportLines(table, probes, FinishedUpTo(table, probes, i))
            + [BackgroundDoneMessage(table[i], probes[i].status)]
      && StatusAfter(probes, FinishedUpTo(table, probes, i + 1), init) == probes[i].status
    ensures !Finished(table, probes, i) ==>
      && ReapUpTo(table, probes, i + 1) == ReapUpTo(table, probes, i)
      && FinishedUpTo(table, probes, i + 1) == FinishedUpTo(table, probes, i)
  {
    var before := FinishedUpTo(table, probes, i);
    if Finished(table, probes, i) {
      assert (before + [i])[..|before|] == before;
    }
  }

  /** The slot-by-slot pass computes the table, lines and status the
      specification gives: finished slots zeroed, one line per finished slot
      in slot order, the status of the last one collected. */
  lemma {:induction false} PassMeetsSpec(table: seq<int>, probes: seq<Probe>, n: nat, init: WaitStatus)
    requires |probes| == |table| && n <= |table|
    ensures PassUpTo(table, probes, n, init) == Pass(
      ReapUpTo(table, probes, n),
      ReportLines(table, probes, FinishedUpTo(table, probes, n)),
      StatusAfter(probes, FinishedUpTo(table, probes, n), init))
    decreases n
  {
    if n > 0 {
      var k := n - 1;
      PassMeetsSpec(table, probes, k, init);
      PassStep(table, probes, k, init);
      var p := PassUpTo(table, probes, k, init);
      assert p.table[k] == table[k];
      if Finished(table, probes, k) {
        assert PassUpTo(table, probes, n, init)
          == Pass(p.table[k := 0], p.reports + [BackgroundDoneMessage(table[k], probes[k].status)],
                  probes[k].status);
      } else {
        assert PassUpTo(table, probes, n, init) == p;
      }
    }
  }

  // ---------------------------------------------------------------------------

  /** Exactly the finished slots are zeroed; empty slots and slots whose
      child is still running keep their value. */
  lemma ReapZeroesFinished(table: seq<int>, probes: seq<Probe>)
    requires |probes| == |table|
    ensures |Reap(table, probes)| == |table|
    ensures forall k :: 0 <= k < |table| ==>
      (Reap(table, probes)[k] != table[k] <==> k in FinishedSlots(table, probes))
    ensures forall k :: 0 <= k < |table| && k in FinishedSlots(table, probes) ==>
      Reap(table, probes)[k] == 0
  {
    var slots := FinishedSlots(table, probes);
    forall k | 0 <= k < |table| && k in slots
      ensures Finished(table, probes, k)
    {
      var j :| 0 <= j < |slots| && slots[j] == k;
    }
  }

  /** A pass in which no tracked child has finished changes nothing: the
      table, the printed lines and the last status stay as they were. */
  lemma QuietPassChangesNothing(table: seq<int>, probes: seq<Probe>, init: WaitStatus)
    requires |probes| == |table|
    requires forall k :: 0 <= k < |table| && table[k] != 0 ==> probes[k].NotReaped?
    ensures Reap(table, probes) == table
    ensures FinishedSlots(table, probes) == []
    ensures StatusAfter(probes, FinishedSlots(table, probes), init) == init
  {
    NoneFinishedUpTo(table, probes, |table|);
  }

  lemma {:induction false} NoneFinishedUpTo(table: seq<int>, probes: seq<Probe>, n: nat)
    requires |probes| == |table| && n <= |table|
    requires forall k :: 0 <= k < |table| && table[k] != 0 ==> probes[k].NotReaped?
    ensures FinishedUpTo(table, probes, n) == []
    decreases n
  {
    if n > 0 {
      NoneFinishedUpTo(table, probes, n - 1);
    }
  }

  /** A slot reported in one pass is never reported by a later pass, whatever
      the later probes say: its pid was zeroed. */
  lemma ReportedOnce(table: seq<int>, probes: seq<Probe>, later: seq<Probe>)
    requires |probes| == |table| && |later| == |table|
    ensures forall k :: k in FinishedSlots(table, probes) ==>
      k !in FinishedSlots(Reap(table, probes), later)
  {
    ReapZeroesFinished(table, probes);
    var next := Reap(table, probes);
    forall k | k in FinishedSlots(table, probes)
      ensures k !in FinishedSlots(next, later)
    {
      assert !Finished(next, later, k);
    }
  }

  /** The status left behind is that of the highest finished slot, which is
      the last one the loop collected, or the old status when none finished. */
  lemma StatusIsLastCollected(table: seq<int>, probes: seq<Probe>, init: WaitStatus)
    requires |probes| == |table|
    ensures var slots := FinishedSlots(table, probes);
            var s := StatusAfter(probes, slots, init);
            && (slots == [] <==> forall k :: !Finished(table, probes, k))
            && (slots == [] ==> s == init)
            && (slots != [] ==>
                  var last := slots[|slots| - 1];
                  && Finished(table, probes, last)
                  && (forall k :: Finished(table, probes, k) ==> k <= last)
                  && s == probes[last].status)
  {
    var slots := FinishedSlots(table, probes);
    if slots != [] {
      var last := slots[|slots| - 1];
      forall k | Finished(table, probes, k) ensures k <= last {
        var j :| 0 <= j < |slots| && slots[j] == k;
        if j < |slots| - 1 {
          assert slots[j] < slots[|slots| - 1];
        }
      }
    } else {
      forall k | Finished(table, probes, k) ensures k in slots {
      }
    }
  }

  lemma {:induction false} KillsUpToExact(table: seq<int>, n: nat)
    requires n <= |table|
    ensures forall x: Kill :: x in KillsUpTo(table, n) <==>
      x.signal == SIGKILL && exists k :: 0 <= k < n && table[k] != 0 && table[k] == x.pid
    decreases n
  {
    if n > 0 {
      KillsUpToExact(table, n - 1);
      forall x: Kill | x.signal == SIGKILL && exists k :: 0 <= k < n && table[k] != 0 && table[k] == x.pid
        ensures x in KillsUpTo(table, n)
      {
        var k :| 0 <= k < n && table[k] != 0 && table[k] == x.pid;
        if k == n - 1 {
          assert x == Kill(table[n - 1], SIGKILL);
        }
      }
    }
  }

  /** killBackgroundProcesses sends SIGKILL, and only SIGKILL, to every pid
      held in a non-zero slot, and to no other pid. */
  lemma KillsEveryTrackedJob(table: seq<int>)
    ensures forall x: Kill :: x in KillList(table) <==>
      x.signal == SIGKILL && x.pid != 0 && x.pid in table
  {
    KillsUpToExact(table, |table|);
    forall x: Kill | x.signal == SIGKILL && x.pid != 0 && x.pid in table
      ensures exists k :: 0 <= k < |table| && table[k] != 0 && table[k] == x.pid
    {
      var k :| 0 <= k < |table| && table[k] == x.pid;
    }
  }
}
