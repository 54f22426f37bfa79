/**
 What the passes of the asynchronous miner loop achieve: jobs are started when they should be, and stopped when
 they should be.  AsyncJobs says what every run keeps; a machine that never starts a job would keep it too.

 The drivers here are the two usual kinds: one that has no call for results, and one that reports them fetched
 when it is asked for them.  Both make their transition when they are asked to start a job.
 */
module AsyncEffects {
  import opened Options
  import opened Works
  import opened AsyncJobs

  const TRANSITION := Then(Transition, NO_RESPONSES, Done)

  /** The driver starts the job at once when it is asked to, and does nothing when it is asked for results to be
      processed or told that it is disabled. */
  const STARTER := Responses(TRANSITION, Done, Done)

  const NO_FETCHING := Calls(Done, None, STARTER)
  const FETCHING := Calls(Done, Some(Then(ResultsFetched, STARTER, Done)), STARTER)

  predicate Starts(calls: Calls) {
    calls == NO_FETCHING || calls == FETCHING
  }

  /** The processor should run, and its poll timer has not passed. */
  predicate ShouldRun(s: State, p: Pass) {
    s.enabled && !p.pause && !p.pollPassed
  }

  predicate ShouldStop(s: State, p: Pass) {
    !(s.enabled && !p.pause) && !p.pollPassed
  }

  /** A restart, or the time for more work. */
  predicate WantsWork(s: State, p: Pass) {
    s.workRestart || (s.morework && p.moreworkPassed)
  }

  lemma {:induction false} TransitionRuns(s: State)
    ensures Drive(s, TRANSITION) == MtJobTransition(s)
  {
    assert Drive(s, TRANSITION) == Drive(Act(s, Transition, NO_RESPONSES), Done);
  }

  lemma {:induction false} ResultsReported(s: State)
    ensures Drive(s, Then(ResultsFetched, STARTER, Done)) == JobResultsFetched(s, STARTER)
  {
    assert Drive(s, Then(ResultsFetched, STARTER, Done)) == Drive(Act(s, ResultsFetched, STARTER), Done);
  }

  /** With either driver, results that are wanted for a new job start it, and results that are wanted for
      stopping stop the processor. */
  lemma ResultsLead(s: State, proceed: bool, calls: Calls)
    requires Starts(calls)
    ensures var t := s.(inTransition := true, proceed := proceed);
      DoGetResults(s, proceed, calls) == if proceed then MtJobTransition(t) else Disable(t)
  {
    var t := s.(inTransition := true, proceed := proceed);
    TransitionRuns(t);
    ResultsReported(t);
  }

  /** A processor that runs a work which is not worth going on with goes over to a new one in one pass. */
  lemma NewJobStarts(s: State, p: Pass)
    requires Inv(s) && ShouldRun(s, p) && s.busy == TbsIdle && s.work.Work? && WantsWork(s, p)
    requires p.abandon && p.fetch == Prepared && Starts(p.calls)
    ensures var t := AsyncPass(s, p);
      t.work == Work(s.fetched) && t.prev == s.work && t.next == Null && !t.inTransition && !t.workRestart && !t.morework &&
      t.fetched == s.fetched + 1 && t.enabled && t.disableCalled == s.disableCalled && t.proceed &&
      t.ledger.freed == Enter(Enter(s.ledger.freed, s.next), s.prev) && t.ledger.dropped == s.ledger.dropped
  {
    var chosen := Choose(s.(morework := false, inTransition := true), true, Prepared);
    assert JobPrepareComplete(chosen, p.calls) == DoGetResults(chosen, true, p.calls);
    ResultsLead(chosen, true, p.calls);
  }

  /** A processor without a work is woken, gets one, and starts it. */
  lemma IdleStarts(s: State, p: Pass)
    requires Inv(s) && ShouldRun(s, p) && s.busy == TbsIdle && s.work.Null? && !s.inTransition
    requires p.fetch == Prepared && Starts(p.calls)
    ensures var t := AsyncPass(s, p);
      t.work == Work(s.fetched) && t.prev == Null && t.next == Null && !t.inTransition && !t.disableCalled &&
      t.fetched == s.fetched + 1 && !t.workRestart && t.ledger.freed == Enter(Enter(s.ledger.freed, s.next), s.prev)
  {
    var chosen := Choose(s.(disableCalled := false, morework := false, inTransition := true), p.abandon, Prepared);
    TransitionRuns(chosen);
    assert JobPrepareComplete(chosen, p.calls) == MtJobTransition(chosen);
  }

  /** A work that is worth going on with is prepared and started again; no other is fetched. */
  lemma SameJobGoesOn(s: State, p: Pass)
    requires Inv(s) && ShouldRun(s, p) && s.busy == TbsIdle && s.work.Work? && WantsWork(s, p)
    requires !p.abandon && Starts(p.calls)
    ensures var t := AsyncPass(s, p);
      t.work == s.work && t.prev == s.prev && t.next == s.next && t.fetched == s.fetched && !t.inTransition &&
      !t.morework && t.workRestart == s.workRestart && t.ledger.freed == s.ledger.freed
  {
    var chosen := Choose(s.(morework := false, inTransition := true), false, p.fetch);
    assert JobPrepareComplete(chosen, p.calls) == DoGetResults(chosen, true, p.calls);
    ResultsLead(chosen, true, p.calls);
  }

  /** While results are being fetched, a new work is only prepared ... */
  lemma PreparedDuringResults(s: State, p: Pass)
    requires Inv(s) && ShouldRun(s, p) && s.busy == TbsGettingResults && s.work.Work? && WantsWork(s, p)
    requires p.abandon && p.fetch == Prepared && Starts(p.calls)
    ensures var t := AsyncPass(s, p);
      t.work == s.work && t.prev == s.prev && t.next == Work(s.fetched) && t.startingNext && t.inTransition &&
      t.busy == s.busy && t.proceed == s.proceed && t.ledger.freed == Enter(s.ledger.freed, s.next)
  {
    var chosen := Choose(s.(morework := false, inTransition := true), true, Prepared);
    assert Drive(chosen, p.calls.onPrepare) == chosen;
    assert PrepareOrDisable(s, p) == chosen;
  }

  /** ... and it is started when they have come in, unless the processor was told to stop meanwhile. */
  lemma {:induction false} StartedAfterResults(s: State)
    requires Inv(s) && s.startingNext && s.next.Work?
    ensures var t := Act(s, ResultsFetched, STARTER);
      if s.proceed then t.work == s.next && t.prev == s.work && t.next == Null && t.disableCalled == s.disableCalled
      else t.work == Null && t.prev == s.work && t.next == s.next && t.disableCalled
  {
    TransitionRuns(s);
  }

  /** A processor that should not run, and runs a work, stops in one pass: it starts nothing and fetches nothing. */
  lemma RunningStops(s: State, p: Pass)
    requires Inv(s) && ShouldStop(s, p) && s.busy == TbsIdle && s.work.Work? && Starts(p.calls)
    requires !s.inTransition || s.morework
    ensures var t := AsyncPass(s, p);
      t.work == Null && t.prev == s.work && t.next == s.next && t.fetched == s.fetched && t.disableCalled &&
      !t.inTransition && !t.morework && !t.proceed && t.ledger.freed == Enter(s.ledger.freed, s.prev)
  {
    ResultsLead(s.(inTransition := false), false, p.calls);
  }

  /** If results are being fetched already, the pass only sees to it that they start no job. */
  lemma StopsAfterResults(s: State, p: Pass)
    requires Inv(s) && ShouldStop(s, p) && s.busy == TbsGettingResults && s.work.Work? && !s.inTransition
    ensures AsyncPass(s, p) == s.(proceed := false, morework := false)
  {
  }

  /** A processor that should not run and has no work is told once. */
  lemma IdleStops(s: State, p: Pass)
    requires Inv(s) && ShouldStop(s, p) && s.busy != TbsStartingJob && s.work.Null? && !s.inTransition
    requires p.calls.responses.onDisable == Done
    ensures var t := AsyncPass(s, p);
      (if s.disableCalled then t == s.(morework := false)
       else t.work == Null && t.prev == Null && t.next == s.next && t.disableCalled && t.fetched == s.fetched &&
            t.ledger.freed == Enter(s.ledger.freed, s.prev))
  {
  }

  /** A transition that is under way is waited for, unless the timer says that it never began. */
  lemma StopWaitsForTransition(s: State, p: Pass)
    requires ShouldStop(s, p) && s.busy != TbsStartingJob && s.inTransition && !s.morework
    ensures AsyncPass(s, p) == s
  {
  }

  /** When the driver cannot prepare the new work, the processor is disabled and stops: no job is started, and the
      works are freed that nothing will come of. */
  lemma FailedPrepareStops(s: State, p: Pass)
    requires Inv(s) && ShouldRun(s, p) && s.busy == TbsIdle && s.work.Work? && WantsWork(s, p)
    requires p.abandon && p.fetch == Unprepared && Starts(p.calls)
    ensures var t := AsyncPass(s, p);
      !t.enabled && t.work == Null && t.prev == s.work && t.next == Null && t.disableCalled && t.fetched == s.fetched + 1 &&
      t.ledger.freed == Enter(Entry(Enter(s.ledger.freed, s.next), s.fetched), s.prev)
  {
    var chosen := Choose(s.(morework := false, inTransition := true), true, Unprepared);
    ResultsLead(chosen, false, p.calls);
  }

  /** A start that fails disables the processor, and the next pass stops it for good: whatever that pass brings,
      nothing is fetched. */
  lemma FailedStartStops(s: State, p: Pass)
    requires Inv(s) && s.busy == TbsIdle && !p.pollPassed && p.calls.responses.onDisable == Done
    ensures var aborted := JobStartAbort(s, true);
      aborted.work == Null && aborted.next == s.next && aborted.prev == s.prev &&
      aborted.ledger.dropped == Enter(s.ledger.dropped, s.work) && aborted.ledger.freed == s.ledger.freed
    ensures var t := AsyncPass(JobStartAbort(s, true), p);
      !t.enabled && t.work == Null && t.disableCalled && t.fetched == s.fetched
  {
  }

  /** A start that is put off leaves the processor enabled, so that the next pass tries again. */
  lemma AbortedStartRetries(s: State, p: Pass)
    requires Inv(s) && s.enabled && s.busy == TbsIdle && ShouldRun(s, p) && p.fetch == Prepared && Starts(p.calls)
    ensures AsyncPass(JobStartAbort(s, false), p).work == Work(s.fetched)
  {
    AbortKeepsInv(s, false);
    IdleStarts(JobStartAbort(s, false), p);
  }

  /** Nothing happens between jobs: no restart and no timer, or a job that is just being started. */
  lemma QuietPass(s: State, p: Pass)
    requires !p.pollPassed
    requires s.busy == TbsStartingJob || (ShouldRun(s, p) && (s.work.Work? || s.inTransition) && !WantsWork(s, p))
    ensures AsyncPass(s, p) == s
  {
  }

  /** A driver that takes its time over the start keeps the machine waiting: the new work is next, and passes do
      nothing until the driver has made its transition. */
  lemma SlowStartWaits(s: State, p: Pass, later: Pass)
    requires Inv(s) && ShouldRun(s, p) && s.busy == TbsIdle && s.work.Work? && WantsWork(s, p)
    requires p.abandon && p.fetch == Prepared && !later.pollPassed
    requires p.calls == Calls(Done, None, Responses(Then(SetBusy(TbsStartingJob), NO_RESPONSES, Done), Done, Done))
    ensures var t := AsyncPass(s, p);
      t.work == s.work && t.next == Work(s.fetched) && t.inTransition && t.busy == TbsStartingJob && AsyncPass(t, later) == t
      && MtJobTransition(t).work == Work(s.fetched)
  {
    var chosen := Choose(s.(morework := false, inTransition := true), true, Prepared).(proceed := true);
    OneActionRuns(chosen, SetBusy(TbsStartingJob));
  }

  lemma {:induction false} OneActionRuns(s: State, a: Action)
    ensures Drive(s, Then(a, NO_RESPONSES, Done)) == Act(s, a, NO_RESPONSES)
  {
    assert Drive(s, Then(a, NO_RESPONSES, Done)) == Drive(Act(s, a, NO_RESPONSES), Done);
  }

  /** A poll that asks for more work makes the next pass prepare it. */
  lemma PollAsksForWork(s: State, p: Pass, later: Pass)
    requires Inv(s) && s.enabled && !p.pause && s.busy == TbsIdle && s.work.Work? && !WantsWork(s, p)
    requires p.pollPassed && p.onPoll == Then(SetMorework(true), NO_RESPONSES, Done)
    requires ShouldRun(s, later) && later.moreworkPassed && later.abandon && later.fetch == Prepared && Starts(later.calls)
    ensures AsyncPass(AsyncPass(s, p), later).work == Work(s.fetched)
  {
    OneActionRuns(s, SetMorework(true));
    ActKeepsInv(s, SetMorework(true), NO_RESPONSES);
    NewJobStarts(s.(morework := true), later);
  }

  /** A poll that disables the processor makes the next pass stop it. */
  lemma PollDisables(s: State, p: Pass, later: Pass)
    requires Inv(s) && s.enabled && !p.pause && s.busy == TbsIdle && s.work.Work? && !WantsWork(s, p) && !s.inTransition
    requires p.pollPassed && p.onPoll == Then(SetEnabled(false), NO_RESPONSES, Done)
    requires !later.pollPassed && Starts(later.calls)
    ensures AsyncPass(AsyncPass(s, p), later).work == Null && AsyncPass(AsyncPass(s, p), later).disableCalled
  {
    OneActionRuns(s, SetEnabled(false));
    ActKeepsInv(s, SetEnabled(false), NO_RESPONSES);
    RunningStops(s.(enabled := false), later);
  }

  // ----- the driver is called -----

  /** What a driver does so that it can be told that it was called. */
  const MARK := Then(RequestRestart, NO_RESPONSES, Done)

  lemma {:induction false} MarkRuns(s: State)
    ensures Drive(s, MARK) == s.(workRestart := true)
  {
    assert Drive(s, MARK) == Drive(Act(s, RequestRestart, NO_RESPONSES), Done);
  }

  /** The driver processes the results of the previous work exactly when there is one, at a completed start ... */
  lemma {:induction false} StartCompleteProcesses(s: State)
    requires !s.workRestart
    ensures Act(s, StartComplete, Responses(Done, MARK, Done)).workRestart == s.prev.Work?
  {
    MarkRuns(s);
  }

  /** ... and before it stops; and it is told whenever it stops. */
  lemma {:induction false} StopProcesses(s: State)
    requires !s.workRestart && !s.proceed
    ensures Act(s, ResultsFetched, Responses(Done, MARK, Done)).workRestart == s.prev.Work?
    ensures Act(s, ResultsFetched, Responses(Done, Done, MARK)).workRestart
    ensures Act(s, DisableStartAsync, Responses(Done, Done, MARK)).workRestart
    ensures !Act(s, ResultsFetched, Responses(MARK, Done, Done)).workRestart
  {
    MarkRuns(s);
  }

  /** A job is prepared before it is started. */
  lemma PrepareIsCalled(s: State, p: Pass)
    requires Inv(s) && ShouldRun(s, p) && s.busy == TbsIdle && s.work.Null? && !s.inTransition && p.fetch == Prepared
    requires p.calls == Calls(MARK, None, STARTER)
    ensures AsyncPass(s, p).workRestart && AsyncPass(s, p).work == Work(s.fetched)
  {
    var chosen := Choose(s.(disableCalled := false, morework := false, inTransition := true), p.abandon, Prepared);
    MarkRuns(chosen);
    TransitionRuns(chosen.(workRestart := true));
  }

  /** The poll comes last, after whatever else the pass did. */
  lemma PollComesLast(s: State, p: Pass)
    requires !p.pollPassed
    ensures AsyncPass(s, p.(pollPassed := true, onPoll := MARK)) == AsyncPass(s, p).(workRestart := true)
  {
    hide RunningPass, StoppedPass;
    MarkRuns(AsyncPass(s, p));
    SamePass(s, p);
  }

  lemma SamePass(s: State, p: Pass)
    ensures var q := p.(pollPassed := true, onPoll := MARK);
      RunningPass(s, q) == RunningPass(s, p) && StoppedPass(s, q) == StoppedPass(s, p)
  {
  }
}
