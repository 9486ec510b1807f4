/**
 * The poll-until-terminal loop `pollStreampotJob` (index.js:44-54). The remote
 * `checkStatus` calls are replaced by the finite sequence of statuses they
 * would return, one per call; the delay between calls is not modelled.
 */
module JobPoller {

  import opened Wrappers

  const CompletedStatus: string := "completed"
  const FailedStatus: string := "failed"

  /** Where a wait stands: still waiting, or one of the two terminal outcomes. */
  datatype JobState = Waiting | Completed | Failed

  /** Only these two labels stop the loop; every other label keeps it polling. */
  predicate IsTerminal(status: string)
  {
    status == CompletedStatus || status == FailedStatus
  }

  // ---------------------------------------------------------------------
  // Reference definition: the wait as a state machine

  /** One observed status moves a waiting job on; a terminal state never changes. */
  function Step(state: JobState, status: string): JobState
  {
    if state != Waiting then state
    else if status == CompletedStatus then Completed
    else if status == FailedStatus then Failed
    else Waiting
  }

  /** The state reached from `state` after the statuses in `observed`, in order. */
  function Run(state: JobState, observed: seq<string>): JobState
    decreases observed
  {
    if observed == [] then state else Run(Step(state, observed[0]), observed[1..])
  }

  /** Completed and failed are final: later statuses change nothing. */
  lemma {:induction false} TerminalStateIsFinal(state: JobState, observed: seq<string>)
    requires state != Waiting
    ensures Run(state, observed) == state
    decreases observed
  {
    if observed != [] {
      TerminalStateIsFinal(state, observed[1..]);
    }
  }

  /** Running over two stretches of statuses is running over their concatenation. */
  lemma {:induction false} RunConcat(state: JobState, first: seq<string>, rest: seq<string>)
    ensures Run(state, first + rest) == Run(Run(state, first), rest)
    decreases first
  {
    if first == [] {
      assert first + rest == rest;
    } else {
      assert (first + rest)[1..] == first[1..] + rest;
      RunConcat(Step(state, first[0]), first[1..], rest);
    }
  }

  // ---------------------------------------------------------------------
  // The loop's own view: the first terminal status

  /** Index of the first terminal status at `from` or later. */
  function FirstTerminalFrom(observed: seq<string>, from: nat): (r: Option<nat>)
    requires from <= |observed|
    ensures r.Some? ==> from <= r.value < |observed| && IsTerminal(observed[r.value])
    ensures r.Some? ==> forall m | from <= m < r.value :: !IsTerminal(observed[m])
    ensures r.None? ==> forall m | from <= m < |observed| :: !IsTerminal(observed[m])
    decreases |observed| - from
  {
    if from == |observed| then None
    else if IsTerminal(observed[from]) then Some(from)
    else FirstTerminalFrom(observed, from + 1)
  }

  function FirstTerminal(observed: seq<string>): Option<nat>
  {
    FirstTerminalFrom(observed, 0)
  }

  /**
   * The state machine and the first terminal status agree: the wait ends in
   * the state named by the first terminal status, and is still waiting when
   * there is none.
   */
  lemma {:induction false} RunAgreesWithFirstTerminal(observed: seq<string>)
    ensures Run(Waiting, observed) ==
      match FirstTerminal(observed)
      case None => Waiting
      case Some(k) => if observed[k] == CompletedStatus then Completed else Failed
  {
    RunFromWaiting(observed, 0);
  }

  /** Generalisation of RunAgreesWithFirstTerminal to the suffix starting at `from`. */
  lemma {:induction false} RunFromWaiting(observed: seq<string>, from: nat)
    requires from <= |observed|
    ensures Run(Waiting, observed[from..]) ==
      match FirstTerminalFrom(observed, from)
      case None => Waiting
      case Some(k) => if observed[k] == CompletedStatus then Completed else Failed
    decreases |observed| - from
  {
    if from < |observed| {
      assert observed[from..][1..] == observed[from + 1..];
      var next := Step(Waiting, observed[from]);
      if next == Waiting {
        RunFromWaiting(observed, from + 1);
      } else {
        TerminalStateIsFinal(next, observed[from + 1..]);
      }
    }
  }

  /**
   * Nothing observed after a terminal status matters: once the statuses seen
   * so far end the wait, further statuses leave the outcome unchanged.
   */
  lemma NoEffectAfterTerminal(observed: seq<string>, later: seq<string>)
    requires Run(Waiting, observed) != Waiting
    ensures Run(Waiting, observed + later) == Run(Waiting, observed)
  {
    RunConcat(Waiting, observed, later);
    TerminalStateIsFinal(Run(Waiting, observed), later);
  }

  // ---------------------------------------------------------------------
  // The source's loop

  /**
   * `pollStreampotJob(jobId)` over the statuses `observed` that successive
   * `checkStatus` calls return. `checks` is the number of calls made. A
   * `Completed` result is the returned job, `Failed` the thrown error, and
   * `Waiting` means the statuses ran out while the job was still pending.
   */
  method PollStreampotJob(observed: seq<string>) returns (state: JobState, checks: nat)
    ensures checks <= |observed|
    ensures forall m | 0 <= m < checks - 1 :: !IsTerminal(observed[m])
    ensures match FirstTerminal(observed)
      case None => state == Waiting && checks == |observed|
      case Some(k) => checks == k + 1 && state == (if observed[k] == CompletedStatus then Completed else Failed)
    ensures state == Run(Waiting, observed)
  {
    RunAgreesWithFirstTerminal(observed);
    checks := 0;
    while checks < |observed|
      invariant checks <= |observed|
      invariant forall m | 0 <= m < checks :: !IsTerminal(observed[m])
    {
      var status := observed[checks];
      checks := checks + 1;
      if status == CompletedStatus {
        return Completed, checks;
      } else if status == FailedStatus {
        return Failed, checks;
      }
    }
    return Waiting, checks;
  }

  /** `queued`, `running`, `completed`: the wait succeeds on the third status. */
  lemma QueuedRunningCompletedExample()
    ensures FirstTerminal(["queued", "running", "completed"]) == Some(2)
    ensures Run(Waiting, ["queued", "running", "completed"]) == Completed
  {
  }
}
