/**
 The asynchronous job machine of deviceapi.c: how works move through next_work, work and prev_work.

 A driver is called back when a job is to be prepared or started, when results are to be fetched or processed,
 when it is to be disabled, and when its poll timer passes; a call back may call the machine again, which may
 call the driver again.  What a driver does in a call back is an input, a finite script.  Works are numbered in
 the order they are fetched.
 */
module AsyncJobs {
  import opened Options
  import opened Works

  datatype BusyState = TbsIdle | TbsGettingResults | TbsStartingJob

  /**
   The fields of thr_info the machine uses, and a ledger: how many works were fetched, which were freed,
   and which were dropped without being freed.  `armed` says that a prepare has succeeded since the last
   transition and that none has failed since; `unarmed` says that a driver made a transition to a new work
   while the machine was not armed.  No code reads these two.  `fault` says that a transition found
   next_work null, which the code dereferences.
   */
  datatype State = State(
    next: WorkPtr, work: WorkPtr, prev: WorkPtr,
    startingNext: bool, inTransition: bool, proceed: bool, busy: BusyState,
    morework: bool, enabled: bool, disableCalled: bool, workRestart: bool,
    fetched: nat, ledger: Ledger)

  datatype Ledger = Ledger(freed: Log, dropped: Log, armed: bool, unarmed: bool, fault: bool)

  const INITIAL := State(Null, Null, Null, false, false, false, TbsIdle, false, true, false, false, 0,
                          Ledger(Nothing, Nothing, false, false, false))

  /** What a driver may do to the machine, and what may change around it. */
  datatype Action =
    | Transition
    | StartComplete
    | StartAbort(failure: bool)
    | ResultsFetched
    | DisableStartAsync
    | SetBusy(busy: BusyState)
    | SetMorework(isSet: bool)
    | SetEnabled(enabled: bool)
    | RequestRestart

  /** An action, with what the driver does when the action calls it back, and what it does afterwards. */
  datatype Script = Done | Then(action: Action, nested: Responses, rest: Script)

  /** What the driver does when it is called to start the job, to process results, and to be disabled. */
  datatype Responses = Responses(onStart: Script, onProcess: Script, onDisable: Script)

  function Freed(l: Ledger, w: WorkPtr): Ledger {
    l.(freed := Enter(l.freed, w))
  }

  /** A transition to a new work was made. */
  function Started(l: Ledger): Ledger {
    l.(armed := false, unarmed := l.unarmed || !l.armed)
  }

  /** The end of mt_disable_start, and what follows it: the works move along. */
  function Disable(s: State): State {
    s.(disableCalled := true, ledger := Freed(s.ledger, s.prev), prev := s.work, work := Null, inTransition := false)
  }

  /** The driver is told first. */
  function MtDisableStartAsync(s: State, onDisable: Script): State
    decreases onDisable, 1
  {
    Disable(Drive(s, onDisable))
  }

  function MtJobTransition(s: State): State {
    if !s.startingNext then s.(inTransition := false, ledger := s.ledger.(armed := false))
    else if s.next.Null? then s.(ledger := Started(s.ledger).(fault := true))
    else s.(prev := s.work, work := s.next, next := Null, inTransition := false,
            ledger := Freed(Started(s.ledger), s.prev))
  }

  function JobStartAbort(s: State, failure: bool): State {
    s.(enabled := s.enabled && !failure, ledger := s.ledger.(dropped := Enter(s.ledger.dropped, s.work)), work := Null, inTransition := false)
  }

  function Drive(s: State, script: Script): State
    decreases script, 0
  {
    match script
    case Done => s
    case Then(a, nested, rest) => Drive(Act(s, a, nested), rest)
  }

  function Act(s: State, a: Action, nested: Responses): State
    decreases nested, 2
  {
    match a
    case Transition => MtJobTransition(s)
    case StartComplete => ProcessResults(s, nested.onProcess)
    case StartAbort(failure) => JobStartAbort(s, failure)
    case ResultsFetched => JobResultsFetched(s, nested)
    case DisableStartAsync => MtDisableStartAsync(s, nested.onDisable)
    case SetBusy(b) => s.(busy := b)
    case SetMorework(b) => s.(morework := b)
    case SetEnabled(b) => s.(enabled := b)
    case RequestRestart => s.(workRestart := true)
  }

  /** Results of the previous work, if there is one; job_start_complete is no more than that. */
  function ProcessResults(s: State, onProcess: Script): State
    decreases onProcess, 1
  {
    if s.prev.Work? then Drive(s, onProcess) else s
  }

  function JobResultsFetched(s: State, r: Responses): State
    decreases r, 1
  {
    if s.proceed then Drive(s, r.onStart) else MtDisableStartAsync(ProcessResults(s, r.onProcess), r.onDisable)
  }

  /** What the driver does when it is called in a pass: when a job is prepared, when results are wanted (None when
      the driver has no such call), and in response to what follows. */
  datatype Calls = Calls(onPrepare: Script, onGetResults: Option<Script>, responses: Responses)

  function DoGetResults(s: State, proceed: bool, calls: Calls): State {
    var s' := s.(inTransition := true, proceed := proceed);
    if calls.onGetResults.Some? then Drive(s', calls.onGetResults.value) else JobResultsFetched(s', calls.responses)
  }

  function JobPrepareComplete(s: State, calls: Calls): State {
    if s.busy == TbsGettingResults then s
    else if s.work.Work? then DoGetResults(s, true, calls)
    else Drive(s, calls.responses.onStart)
  }

  function FreeNext(s: State): State {
    s.(ledger := Freed(s.ledger, s.next), next := Null)
  }

  function GetAndPrepareWork(s: State, fetch: Fetch): State {
    match fetch
    case NoWork => s.(ledger := s.ledger.(armed := false))
    case Unprepared =>
      s.(fetched := s.fetched + 1, ledger := Freed(s.ledger.(armed := false), Work(s.fetched)), enabled := false)
    case Prepared =>
      s.(fetched := s.fetched + 1, next := Work(s.fetched), startingNext := true, ledger := s.ledger.(armed := true))
  }

  /** The work to prepare: a new one, or the current one again.  `abandon` says that the current work is
      not worth going on with. */
  function Choose(s: State, abandon: bool, fetch: Fetch): State {
    if s.work.Null? || abandon then GetAndPrepareWork(FreeNext(s.(workRestart := false)), fetch)
    else s.(startingNext := false, ledger := s.ledger.(armed := true))
  }

  function DoJobPrepare(s: State, abandon: bool, fetch: Fetch, calls: Calls): (State, bool) {
    var chosen := Choose(s.(morework := false, inTransition := true), abandon, fetch);
    if (s.work.Null? || abandon) && chosen.next.Null? then (chosen, false)
    else (JobPrepareComplete(Drive(chosen, calls.onPrepare), calls), true)
  }

  /** One pass of minerloop_async over a processor. */
  datatype Pass = Pass(pause: bool, moreworkPassed: bool, pollPassed: bool, abandon: bool, fetch: Fetch, calls: Calls, onPoll: Script)

  /** The processor should not be running, or its prepare failed. */
  function Disabled(s: State, calls: Calls): State {
    if s.work.Work? then
      if s.busy != TbsGettingResults then DoGetResults(s, false, calls) else s.(proceed := false)
    else MtDisableStartAsync(s, calls.responses.onDisable)
  }

  function PrepareOrDisable(s: State, p: Pass): State {
    var (s', ok) := DoJobPrepare(s, p.abandon, p.fetch, p.calls);
    if ok then s' else Disabled(s', p.calls).(morework := false)
  }

  function RunningPass(s: State, p: Pass): State {
    if s.work.Null? && !s.inTransition then PrepareOrDisable(s.(disableCalled := false), p)
    else if s.workRestart || (s.morework && p.moreworkPassed) then PrepareOrDisable(s, p)
    else s
  }

  function MaybeDisabled(s: State, p: Pass): State {
    if (s.work.Work? || !s.disableCalled) && !s.inTransition then Disabled(s, p.calls) else s
  }

  function StoppedPass(s: State, p: Pass): State {
    MaybeDisabled(if s.inTransition && s.morework then s.(inTransition := false) else s, p).(morework := false)
  }

  function AsyncPass(s: State, p: Pass): State {
    var s' := if s.busy == TbsStartingJob then s
              else if s.enabled && !p.pause then RunningPass(s, p)
              else StoppedPass(s, p);
    if p.pollPassed then Drive(s', p.onPoll) else s'
  }

  function Run(passes: seq<Pass>): State {
    if passes == [] then INITIAL else AsyncPass(Run(passes[..|passes| - 1]), passes[|passes| - 1])
  }

  // ----- ownership -----

  /** In how many places a work is. */
  function Places(s: State, x: nat): nat {
    Held(s.next, x) + Held(s.work, x) + Held(s.prev, x) + Times(s.ledger.freed, x) + Times(s.ledger.dropped, x)
  }

  /** Every work that was fetched is in exactly one place: a slot, freed once, or dropped once. */
  ghost predicate Owned(s: State) {
    forall x: nat :: Places(s, x) == if x < s.fetched then 1 else 0
  }

  /** Works move from next to work to prev, so older works are further along; in particular the slots
      hold different works. */
  predicate Ordered(s: State) {
    && (s.prev.Work? && s.work.Work? ==> s.prev.id < s.work.id)
    && (s.work.Work? && s.next.Work? ==> s.work.id < s.next.id)
    && (s.prev.Work? && s.next.Work? ==> s.prev.id < s.next.id)
  }

  /** While a new work is to be started, it is there exactly when the machine is armed; so a transition has
      found next_work null exactly when one was made unarmed. */
  predicate ArmedExact(s: State) {
    (s.startingNext ==> (s.ledger.armed <==> s.next.Work?)) && (s.ledger.fault <==> s.ledger.unarmed)
  }

  ghost predicate Inv(s: State) {
    Owned(s) && Ordered(s) && ArmedExact(s)
  }

  lemma ShiftKeepsInv(s: State)
    requires Inv(s)
    ensures Inv(Disable(s))
  {
    forall x: nat ensures Places(Disable(s), x) == Places(s, x) {}
  }

  lemma TransitionKeepsPlaces(s: State, x: nat)
    ensures Places(MtJobTransition(s), x) == Places(s, x)
    ensures MtJobTransition(s).fetched == s.fetched
  {
    hide Times, Enter;
    EnterTimes(s.ledger.freed, s.prev, x);
    var t := MtJobTransition(s);
    if s.startingNext && s.next.Work? {
      assert t.ledger.freed == Enter(s.ledger.freed, s.prev) && t.ledger.dropped == s.ledger.dropped;
      assert t.prev == s.work && t.work == s.next && Held(t.next, x) == 0;
    } else {
      assert t.ledger.freed == s.ledger.freed && t.ledger.dropped == s.ledger.dropped;
    }
  }

  lemma TransitionKeepsInv(s: State)
    requires Inv(s)
    ensures Inv(MtJobTransition(s))
  {
    assert Owned(MtJobTransition(s)) by {
      hide MtJobTransition, Places;
      forall x: nat ensures Places(MtJobTransition(s), x) == Places(s, x) && MtJobTransition(s).fetched == s.fetched {
        TransitionKeepsPlaces(s, x);
      }
    }
    hide Owned;
  }

  lemma AbortKeepsInv(s: State, failure: bool)
    requires Inv(s)
    ensures Inv(JobStartAbort(s, failure))
  {
    forall x: nat ensures Places(JobStartAbort(s, failure), x) == Places(s, x) {}
  }

  lemma FreeNextKeepsOwned(s: State)
    requires Owned(s)
    ensures Owned(FreeNext(s))
  {
    forall x: nat ensures Places(FreeNext(s), x) == Places(s, x) {}
  }

  lemma FetchAddsOne(s: State, fetch: Fetch, x: nat)
    requires s.next.Null?
    ensures Places(GetAndPrepareWork(s, fetch), x) == Places(s, x) + if fetch != NoWork && x == s.fetched then 1 else 0
  {
  }

  lemma FetchKeepsOwned(s: State, fetch: Fetch)
    requires Owned(s) && s.next.Null?
    ensures Owned(GetAndPrepareWork(s, fetch))
  {
    forall x: nat ensures Places(GetAndPrepareWork(s, fetch), x) == if x < GetAndPrepareWork(s, fetch).fetched then 1 else 0 {
      FetchOwnedAt(s, fetch, x);
    }
  }

  lemma FetchOwnedAt(s: State, fetch: Fetch, x: nat)
    requires Owned(s) && s.next.Null?
    ensures Places(GetAndPrepareWork(s, fetch), x) == if x < GetAndPrepareWork(s, fetch).fetched then 1 else 0
  {
    hide Places, Owned;
    OwnedAt(s, x);
    FetchAddsOne(s, fetch, x);
  }

  lemma OwnedAt(s: State, x: nat)
    requires Owned(s)
    ensures Places(s, x) == if x < s.fetched then 1 else 0
  {
  }

  lemma FetchKeepsInv(s: State, fetch: Fetch)
    requires Inv(s)
    ensures Inv(GetAndPrepareWork(FreeNext(s), fetch))
  {
    FreeNextKeepsOwned(s);
    FetchKeepsOwned(FreeNext(s), fetch);
    OlderThanFetched(s);
    hide Owned, Places;
  }

  lemma OlderThanFetched(s: State)
    requires Owned(s)
    ensures s.next.Work? ==> s.next.id < s.fetched
    ensures s.work.Work? ==> s.work.id < s.fetched
    ensures s.prev.Work? ==> s.prev.id < s.fetched
  {
    if s.next.Work? { assert Places(s, s.next.id) >= 1; }
    if s.work.Work? { assert Places(s, s.work.id) >= 1; }
    if s.prev.Work? { assert Places(s, s.prev.id) >= 1; }
  }

  lemma SameSlotsKeepInv(s: State, t: State)
    requires Inv(s) && t.next == s.next && t.work == s.work && t.prev == s.prev
    requires t.ledger.freed == s.ledger.freed && t.ledger.dropped == s.ledger.dropped && t.fetched == s.fetched && ArmedExact(t)
    ensures Inv(t)
  {
    forall x: nat ensures Places(t, x) == Places(s, x) {}
  }

  /** Whatever a driver does, and however deep its calls go. */
  lemma {:induction false} DriveKeepsInv(s: State, script: Script)
    requires Inv(s)
    ensures Inv(Drive(s, script))
    decreases script, 0
  {
    if script.Then? {
      ActKeepsInv(s, script.action, script.nested);
      DriveKeepsInv(Act(s, script.action, script.nested), script.rest);
    }
  }

  lemma {:induction false} ActKeepsInv(s: State, a: Action, nested: Responses)
    requires Inv(s)
    ensures Inv(Act(s, a, nested))
    decreases nested, 2
  {
    match a
    case Transition => TransitionKeepsInv(s);
    case StartComplete => ProcessKeepsInv(s, nested.onProcess);
    case StartAbort(failure) => AbortKeepsInv(s, failure);
    case ResultsFetched => ResultsKeepInv(s, nested);
    case DisableStartAsync => DisableKeepsInv(s, nested.onDisable);
    case _ => SameSlotsKeepInv(s, Act(s, a, nested));
  }

  lemma {:induction false} DisableKeepsInv(s: State, onDisable: Script)
    requires Inv(s)
    ensures Inv(MtDisableStartAsync(s, onDisable))
    decreases onDisable, 1
  {
    DriveKeepsInv(s, onDisable);
    ShiftKeepsInv(Drive(s, onDisable));
  }

  lemma {:induction false} ProcessKeepsInv(s: State, onProcess: Script)
    requires Inv(s)
    ensures Inv(ProcessResults(s, onProcess))
    decreases onProcess, 1
  {
    DriveKeepsInv(s, onProcess);
  }

  lemma {:induction false} ResultsKeepInv(s: State, r: Responses)
    requires Inv(s)
    ensures Inv(JobResultsFetched(s, r))
    decreases r, 1
  {
    if s.proceed {
      DriveKeepsInv(s, r.onStart);
    } else {
      ProcessKeepsInv(s, r.onProcess);
      DisableKeepsInv(ProcessResults(s, r.onProcess), r.onDisable);
    }
  }

  lemma GetResultsKeepsInv(s: State, proceed: bool, calls: Calls)
    requires Inv(s)
    ensures Inv(DoGetResults(s, proceed, calls))
  {
    var s' := s.(inTransition := true, proceed := proceed);
    SameSlotsKeepInv(s, s');
    if calls.onGetResults.Some? {
      DriveKeepsInv(s', calls.onGetResults.value);
    } else {
      ResultsKeepInv(s', calls.responses);
    }
  }

  lemma PrepareCompleteKeepsInv(s: State, calls: Calls)
    requires Inv(s)
    ensures Inv(JobPrepareComplete(s, calls))
  {
    GetResultsKeepsInv(s, true, calls);
    DriveKeepsInv(s, calls.responses.onStart);
  }

  lemma ChooseKeepsInv(s: State, abandon: bool, fetch: Fetch)
    requires Inv(s)
    ensures Inv(Choose(s, abandon, fetch))
  {
    if s.work.Null? || abandon {
      SameSlotsKeepInv(s, s.(workRestart := false));
      FetchKeepsInv(s.(workRestart := false), fetch);
    } else {
      SameSlotsKeepInv(s, s.(startingNext := false, ledger := s.ledger.(armed := true)));
    }
  }

  lemma PrepareKeepsInv(s: State, abandon: bool, fetch: Fetch, calls: Calls)
    requires Inv(s)
    ensures Inv(DoJobPrepare(s, abandon, fetch, calls).0)
  {
    var s' := s.(morework := false, inTransition := true);
    SameSlotsKeepInv(s, s');
    ChooseKeepsInv(s', abandon, fetch);
    var chosen := Choose(s', abandon, fetch);
    DriveKeepsInv(chosen, calls.onPrepare);
    PrepareCompleteKeepsInv(Drive(chosen, calls.onPrepare), calls);
  }

  lemma DisabledKeepsInv(s: State, calls: Calls)
    requires Inv(s)
    ensures Inv(Disabled(s, calls))
  {
    GetResultsKeepsInv(s, false, calls);
    SameSlotsKeepInv(s, s.(proceed := false));
    DisableKeepsInv(s, calls.responses.onDisable);
  }

  lemma PrepareOrDisableKeepsInv(s: State, p: Pass)
    requires Inv(s)
    ensures Inv(PrepareOrDisable(s, p))
  {
    var (s', ok) := DoJobPrepare(s, p.abandon, p.fetch, p.calls);
    PrepareKeepsInv(s, p.abandon, p.fetch, p.calls);
    DisabledKeepsInv(s', p.calls);
    SameSlotsKeepInv(Disabled(s', p.calls), Disabled(s', p.calls).(morework := false));
  }

  lemma PassKeepsInv(s: State, p: Pass)
    requires Inv(s)
    ensures Inv(AsyncPass(s, p))
  {
    SameSlotsKeepInv(s, s.(disableCalled := false));
    PrepareOrDisableKeepsInv(s.(disableCalled := false), p);
    PrepareOrDisableKeepsInv(s, p);
    assert Inv(RunningPass(s, p));
    StoppedPassKeepsInv(s, p);
    var s' := if s.busy == TbsStartingJob then s
              else if s.enabled && !p.pause then RunningPass(s, p)
              else StoppedPass(s, p);
    DriveKeepsInv(s', p.onPoll);
  }

  lemma StoppedPassKeepsInv(s: State, p: Pass)
    requires Inv(s)
    ensures Inv(StoppedPass(s, p))
  {
    var s' := if s.inTransition && s.morework then s.(inTransition := false) else s;
    SameSlotsKeepInv(s, s');
    DisabledKeepsInv(s', p.calls);
    SameSlotsKeepInv(MaybeDisabled(s', p), StoppedPass(s, p));
  }

  /**
   After every run, whatever the driver did: every work ever fetched is in exactly one slot, freed exactly
   once, or dropped exactly once by an aborted start; the slots hold different works, older ones further
   along.
   */
  lemma {:induction false} EveryRun(passes: seq<Pass>)
    ensures Inv(Run(passes))
  {
    if passes != [] {
      EveryRun(passes[..|passes| - 1]);
      PassKeepsInv(Run(passes[..|passes| - 1]), passes[|passes| - 1]);
    }
  }

  // ----- transitions -----

  /** A transition makes the next work current and the current work previous, and needs the next work only
      when a new work is to be started.  It finds it exactly when the machine is armed. */
  lemma TransitionFindsItsWork(s: State)
    requires Inv(s) && !s.ledger.fault
    ensures !MtJobTransition(s).ledger.fault <==> !s.startingNext || s.ledger.armed
    ensures s.startingNext && s.ledger.armed ==>
      MtJobTransition(s).work == s.next && MtJobTransition(s).prev == s.work && MtJobTransition(s).next == Null
    ensures !s.startingNext ==>
      MtJobTransition(s).work == s.work && MtJobTransition(s).prev == s.prev && MtJobTransition(s).next == s.next
  {
  }

  /** A run dereferences a null next_work if and only if a driver makes a transition to a new work without a
      prepare that succeeded since the last transition and was not followed by one that failed. */
  lemma {:induction false} RunFaultsIffUnarmed(passes: seq<Pass>)
    ensures Run(passes).ledger.fault <==> Run(passes).ledger.unarmed
  {
    EveryRun(passes);
  }

  const NO_RESPONSES := Responses(Done, Done, Done)
  const NO_CALLS := Calls(Done, Some(Done), NO_RESPONSES)
  const RESTART_ON_POLL := Then(RequestRestart, NO_RESPONSES, Done)
  const TRANSITION_ON_POLL := Then(Transition, NO_RESPONSES, Done)

  /** The machine prepares a work, and then a restart is wanted. */
  const PREPARED := Pass(false, false, true, false, Prepared, NO_CALLS, RESTART_ON_POLL)
  /** For the restart the driver's prepare_work fails on the next work, and then the driver makes its transition. */
  const RESTARTED := Pass(false, false, true, false, Unprepared, NO_CALLS, TRANSITION_ON_POLL)

  const AFTER_PREPARE := INITIAL.(next := Work(0), fetched := 1, startingNext := true, inTransition := true, workRestart := true,
                                  ledger := INITIAL.ledger.(armed := true))

  /** Both works are freed: the one prepared before, and the one that could not be prepared. */
  const BOTH_FREED := Entry(Entry(Nothing, 0), 1)

  lemma FirstPass()
    ensures AsyncPass(INITIAL, PREPARED) == AFTER_PREPARE
  {
    var chosen := INITIAL.(next := Work(0), fetched := 1, startingNext := true, inTransition := true,
                          ledger := INITIAL.ledger.(armed := true));
    assert Choose(INITIAL.(inTransition := true), false, Prepared) == chosen;
    assert JobPrepareComplete(chosen, NO_CALLS) == chosen;
    assert RunningPass(INITIAL, PREPARED) == chosen;
    assert Drive(chosen, RESTART_ON_POLL) == AFTER_PREPARE;
  }

  lemma SecondPass()
    ensures AsyncPass(AFTER_PREPARE, RESTARTED).ledger.fault && AsyncPass(AFTER_PREPARE, RESTARTED).ledger.freed == BOTH_FREED
  {
    var chosen := Choose(AFTER_PREPARE, false, Unprepared);
    assert chosen.next == Null && chosen.ledger.freed == BOTH_FREED && chosen.startingNext && !chosen.ledger.armed;
    var stopped := RunningPass(AFTER_PREPARE, RESTARTED);
    assert stopped == Disable(chosen).(morework := false);
    assert Drive(stopped, TRANSITION_ON_POLL) == MtJobTransition(stopped);
  }

  /** One successful prepare and one transition are not enough: when a restart makes the machine prepare
      again before the transition, and the driver cannot prepare the work it gets then, the work prepared
      before is gone.  It takes a driver whose prepare_work can fail. */
  lemma OneTransitionPerPrepareCanFault()
    ensures !Run([PREPARED]).ledger.fault && Run([PREPARED]).next == Work(0)
    ensures Run([PREPARED, RESTARTED]).ledger.fault && Run([PREPARED, RESTARTED]).ledger.freed == BOTH_FREED
  {
    hide AsyncPass;
    var one, two := [PREPARED], [PREPARED, RESTARTED];
    assert one[..0] == [] && two[..1] == one;
    FirstPass();
    SecondPass();
  }
}
