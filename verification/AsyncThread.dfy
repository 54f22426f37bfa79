/**
 The asynchronous miner loop as the code runs it: the fields of struct thr_info, updated in place by the
 functions of deviceapi.c.  Each method does what the function of the same name in AsyncJobs says.
 */
module AsyncThread {
  import opened Works
  import opened AsyncJobs

  class Thread {
    var nextWork: WorkPtr
    var work: WorkPtr
    var prevWork: WorkPtr
    var startingNextWork: bool
    var jobTransitionInProgress: bool
    var proceedWithNewJob: bool
    var busyState: BusyState
    var moreworkSet: bool
    var enabled: bool
    var mtDisableCalled: bool
    var workRestart: bool
    var fetched: nat  // numbers the works; stands for their addresses
    ghost var ledger: Ledger

    ghost function View(): State
      reads this
    {
      State(nextWork, work, prevWork, startingNextWork, jobTransitionInProgress, proceedWithNewJob, busyState,
            moreworkSet, enabled, mtDisableCalled, workRestart, fetched, ledger)
    }

    constructor ()
      ensures View() == INITIAL
    {
      nextWork, work, prevWork := Null, Null, Null;
      startingNextWork, jobTransitionInProgress, proceedWithNewJob, busyState := false, false, false, TbsIdle;
      moreworkSet, enabled, mtDisableCalled, workRestart, fetched := false, true, false, false, 0;
      ledger := INITIAL.ledger;
    }

    /** mt_disable_start tells the driver first; then the works move along. */
    method MtDisableStartAsync(onDisable: Script)
      modifies this
      ensures View() == AsyncJobs.MtDisableStartAsync(old(View()), onDisable)
      decreases onDisable, 1
    {
      CallDriver(onDisable);
      mtDisableCalled := true;
      ledger := Freed(ledger, prevWork);
      prevWork := work;
      work := Null;
      jobTransitionInProgress := false;
    }

    method MtJobTransition()
      modifies this
      ensures View() == AsyncJobs.MtJobTransition(old(View()))
    {
      if startingNextWork {
        StartNextWork();
      } else {
        jobTransitionInProgress := false;
        ledger := ledger.(armed := false);
      }
    }

    /** The code has no test for a null next_work; `fault` records that it would have followed one. */
    method StartNextWork()
      requires startingNextWork
      modifies this
      ensures View() == AsyncJobs.MtJobTransition(old(View()))
    {
      ledger := Started(ledger);
      if nextWork.Null? {
        ledger := ledger.(fault := true);
      } else {
        ledger := Freed(ledger, prevWork);
        prevWork := work;
        work := nextWork;
        nextWork := Null;
        jobTransitionInProgress := false;
      }
    }

    method JobStartAbort(failure: bool)
      modifies this
      ensures View() == AsyncJobs.JobStartAbort(old(View()), failure)
    {
      if failure {
        enabled := false;
      }
      ledger := ledger.(dropped := Enter(ledger.dropped, work));
      work := Null;
      jobTransitionInProgress := false;
    }

    /** do_process_results on the previous work, if there is one. */
    method ProcessResults(onProcess: Script)
      modifies this
      ensures View() == AsyncJobs.ProcessResults(old(View()), onProcess)
      decreases onProcess, 1
    {
      if prevWork.Work? {
        CallDriver(onProcess);
      }
    }

    method JobResultsFetched(r: Responses)
      modifies this
      ensures View() == AsyncJobs.JobResultsFetched(old(View()), r)
      decreases r, 2
    {
      if proceedWithNewJob {
        DoJobStart(r.onStart);
      } else {
        ProcessResults(r.onProcess);
        MtDisableStartAsync(r.onDisable);
      }
    }

    method DoJobStart(onStart: Script)
      modifies this
      ensures View() == AsyncJobs.Drive(old(View()), onStart)
      decreases onStart, 1
    {
      CallDriver(onStart);
    }

    method JobStartComplete(onProcess: Script)
      modifies this
      ensures View() == AsyncJobs.ProcessResults(old(View()), onProcess)
      decreases onProcess, 2
    {
      if prevWork.Null? {
        return;
      }
      ProcessResults(onProcess);
    }

    /** The driver, doing what the script says. */
    method CallDriver(script: Script)
      modifies this
      ensures View() == AsyncJobs.Drive(old(View()), script)
      decreases script, 0
    {
      hide AsyncJobs.Act;
      var left := script;
      while left.Then?
        invariant left == script || left < script
        invariant AsyncJobs.Drive(View(), left) == AsyncJobs.Drive(old(View()), script)
        decreases left
      {
        CallMachine(left.action, left.nested);
        left := left.rest;
      }
    }

    method CallMachine(action: Action, nested: Responses)
      modifies this
      ensures View() == AsyncJobs.Act(old(View()), action, nested)
      decreases nested, 3
    {
      hide AsyncJobs.MtJobTransition, AsyncJobs.JobStartAbort, AsyncJobs.JobResultsFetched, AsyncJobs.MtDisableStartAsync,
           AsyncJobs.ProcessResults;
      match action {
        case Transition => MtJobTransition();
        case StartComplete => JobStartComplete(nested.onProcess);
        case StartAbort(failure) => JobStartAbort(failure);
        case ResultsFetched => JobResultsFetched(nested);
        case DisableStartAsync => MtDisableStartAsync(nested.onDisable);
        case SetBusy(b) => busyState := b;
        case SetMorework(b) => moreworkSet := b;
        case SetEnabled(b) => enabled := b;
        case RequestRestart => workRestart := true;
      }
    }

    method DoGetResults(proceed: bool, calls: Calls)
      modifies this
      ensures View() == AsyncJobs.DoGetResults(old(View()), proceed, calls)
    {
      jobTransitionInProgress := true;
      proceedWithNewJob := proceed;
      if calls.onGetResults.Some? {
        CallDriver(calls.onGetResults.value);
      } else {
        JobResultsFetched(calls.responses);
      }
    }

    method JobPrepareComplete(calls: Calls)
      modifies this
      ensures View() == AsyncJobs.JobPrepareComplete(old(View()), calls)
    {
      if busyState == TbsGettingResults {
        return;
      }
      if work.Work? {
        DoGetResults(true, calls);
      } else {
        DoJobStart(calls.responses.onStart);
      }
    }

    /** get_work and the driver's prepare_work; a work that the driver cannot prepare is freed at once. */
    method GetAndPrepareWork(fetch: Fetch)
      requires nextWork.Null?
      modifies this
      ensures View() == AsyncJobs.GetAndPrepareWork(old(View()), fetch)
    {
      ledger := ledger.(armed := fetch == Prepared);
      if fetch != NoWork {
        var got := fetched;
        fetched := fetched + 1;
        if fetch == Unprepared {
          ledger := Freed(ledger, Work(got));
          enabled := false;
        } else {
          nextWork := Work(got);
          startingNextWork := true;
        }
      }
    }

    method FetchNext(fetch: Fetch)
      modifies this
      ensures View() == AsyncJobs.GetAndPrepareWork(AsyncJobs.FreeNext(old(View()).(workRestart := false)), fetch)
    {
      hide AsyncJobs.GetAndPrepareWork;
      workRestart := false;
      ledger := Freed(ledger, nextWork);
      nextWork := Null;
      GetAndPrepareWork(fetch);
    }

    /** Chooses the work to prepare. */
    method Choose(abandon: bool, fetch: Fetch) returns (ok: bool)
      modifies this
      ensures View() == AsyncJobs.Choose(old(View()), abandon, fetch)
      ensures ok == !((old(work).Null? || abandon) && nextWork.Null?)
    {
      hide AsyncJobs.GetAndPrepareWork, AsyncJobs.FreeNext;
      if work.Null? || abandon {
        FetchNext(fetch);
        return nextWork.Work?;
      }
      startingNextWork := false;
      ledger := ledger.(armed := true);
      return true;
    }

    method DoJobPrepare(abandon: bool, fetch: Fetch, calls: Calls) returns (ok: bool)
      modifies this
      ensures (View(), ok) == AsyncJobs.DoJobPrepare(old(View()), abandon, fetch, calls)
    {
      hide AsyncJobs.Choose, AsyncJobs.JobPrepareComplete, AsyncJobs.Drive;
      moreworkSet := false;
      jobTransitionInProgress := true;
      ok := Choose(abandon, fetch);
      if ok {
        CallDriver(calls.onPrepare);
        JobPrepareComplete(calls);
      }
    }

    method Disabled(isRunning: bool, calls: Calls)
      requires isRunning == work.Work?
      modifies this
      ensures View() == AsyncJobs.Disabled(old(View()), calls)
    {
      if isRunning {
        if busyState != TbsGettingResults {
          DoGetResults(false, calls);
        } else {
          proceedWithNewJob := false;
        }
      } else {
        MtDisableStartAsync(calls.responses.onDisable);
      }
    }

    method PrepareOrDisable(isRunning: bool, p: Pass)
      requires isRunning == work.Work?
      modifies this
      ensures View() == AsyncJobs.PrepareOrDisable(old(View()), p)
    {
      hide AsyncJobs.DoJobPrepare, AsyncJobs.Disabled;
      PrepareFailsInPlace(View(), p);
      var ok := DoJobPrepare(p.abandon, p.fetch, p.calls);
      if !ok {
        Disabled(isRunning, p.calls);
        moreworkSet := false;
      }
    }

    method RunningPass(p: Pass)
      modifies this
      ensures View() == AsyncJobs.RunningPass(old(View()), p)
    {
      hide AsyncJobs.PrepareOrDisable;
      var isRunning := work.Work?;
      if !(isRunning || jobTransitionInProgress) {
        mtDisableCalled := false;
        PrepareOrDisable(isRunning, p);
      } else if workRestart || (moreworkSet && p.moreworkPassed) {
        PrepareOrDisable(isRunning, p);
      }
    }

    method StoppedPass(p: Pass)
      modifies this
      ensures View() == AsyncJobs.StoppedPass(old(View()), p)
    {
      hide AsyncJobs.Disabled;
      var isRunning := work.Work?;
      if jobTransitionInProgress && moreworkSet {
        jobTransitionInProgress := false;
      }
      if (isRunning || !mtDisableCalled) && !jobTransitionInProgress {
        Disabled(isRunning, p.calls);
      }
      moreworkSet := false;
    }

    method AsyncPass(p: Pass)
      modifies this
      ensures View() == AsyncJobs.AsyncPass(old(View()), p)
    {
      hide AsyncJobs.RunningPass, AsyncJobs.StoppedPass, AsyncJobs.Drive;
      if busyState != TbsStartingJob {
        if enabled && !p.pause {
          RunningPass(p);
        } else {
          StoppedPass(p);
        }
      }
      if p.pollPassed {
        CallDriver(p.onPoll);
      }
    }

    /** The loop, until shutdown. */
    method MinerloopAsync(passes: seq<Pass>)
      requires View() == INITIAL
      modifies this
      ensures View() == Run(passes) && Inv(View())
    {
      for i := 0 to |passes|
        invariant View() == Run(passes[..i])
      {
        assert passes[..i + 1][..i] == passes[..i];
        AsyncPass(passes[i]);
      }
      assert passes[..|passes|] == passes;
      EveryRun(passes);
    }
  }

  /** A prepare that fails leaves the current work as it was. */
  lemma PrepareFailsInPlace(s: State, p: Pass)
    ensures var (s', ok) := AsyncJobs.DoJobPrepare(s, p.abandon, p.fetch, p.calls);
            !ok ==> s'.work == s.work
  {
    hide AsyncJobs.JobPrepareComplete, AsyncJobs.Drive, Works.Enter;
  }
}
