/**
 The control handshake of deviceapi.c: a thread that wants to drive the device itself asks the
 miner thread to step aside.  One mutex, one condition variable and one wake-up pipe are shared by
 the miner thread and any number of requesting threads.

 The protocol is a state machine over the steps between two synchronisation operations.  A signal
 wakes exactly one waiter when there is one; waiters are never woken otherwise.  Which waiter is
 woken, and how the threads interleave, is chosen by the run.
 */
module ControlHandshake {
  import opened Options

  /** Where the miner thread is: do_notifier_select, or anywhere else in the loop and the driver. */
  datatype MinerPc =
    | Running      // outside the request branch
    | SawRequest   // select reported the request pipe readable
    | Locking      // the pipe has been read, the mutex is wanted
    | Signalling   // holds the mutex, about to signal
    | AboutToWait  // holds the mutex, has signalled
    | Waiting      // inside the condition wait, mutex released
    | Woken        // inside the condition wait, signalled, wants the mutex back
    | Unlocking    // out of the condition wait, holds the mutex

  /** Where a requesting thread is: cgpu_request_control, its own device access, cgpu_release_control. */
  datatype RequesterPc =
    | Idle
    | WantsLock     // has called request
    | Waking        // holds the mutex, about to write to the pipe
    | ReadyToWait   // holds the mutex, has written to the pipe
    | Blocked       // inside the condition wait, mutex released
    | Granted       // inside the condition wait, signalled, wants the mutex back
    | InControl     // between the return of request and the call of release
    | Leaving       // has signalled, about to unlock

  datatype Owner = Free | Miner | Requester(id: nat)

  datatype State = State(miner: MinerPc, requesters: seq<RequesterPc>, mutex: Owner, pending: nat)

  /** The waiter a signal picks; nobody is picked only when nobody waits. */
  datatype Wakeup = Nobody | WakeMiner | WakeRequester(id: nat)

  datatype Action =
    | Poll                          // select, with or without a request pending
    | ReadPipe
    | MinerLock
    | MinerSignal(woken: Wakeup)
    | MinerWait
    | MinerRelock
    | MinerUnlock
    | Request(id: nat)
    | RequesterLock(id: nat)
    | WakePipe(id: nat)
    | RequesterWait(id: nat)
    | RequesterRelock(id: nat)
    | Release(id: nat, woken: Wakeup)
    | RequesterUnlock(id: nat)

  /** notifier_read takes at most this many bytes from the pipe. */
  const NOTIFIER_BUFFER := 0x10

  function Init(n: nat): State {
    State(Running, seq(n, _ => Idle), Free, 0)
  }

  predicate At(s: State, i: nat, pc: RequesterPc) {
    i < |s.requesters| && s.requesters[i] == pc
  }

  ghost predicate SomeRequesterBlocked(s: State) {
    exists i :: At(s, i, Blocked)
  }

  ghost predicate MayWake(s: State, w: Wakeup) {
    match w
    case Nobody => s.miner != Waiting && !SomeRequesterBlocked(s)
    case WakeMiner => s.miner == Waiting
    case WakeRequester(i) => At(s, i, Blocked)
  }

  ghost predicate Enabled(s: State, a: Action) {
    match a
    case Poll => s.miner == Running
    case ReadPipe => s.miner == SawRequest
    case MinerLock => s.miner == Locking && s.mutex == Free
    case MinerSignal(w) => s.miner == Signalling && MayWake(s, w)
    case MinerWait => s.miner == AboutToWait
    case MinerRelock => s.miner == Woken && s.mutex == Free
    case MinerUnlock => s.miner == Unlocking
    case Request(i) => At(s, i, Idle)
    case RequesterLock(i) => At(s, i, WantsLock) && s.mutex == Free
    case WakePipe(i) => At(s, i, Waking)
    case RequesterWait(i) => At(s, i, ReadyToWait)
    case RequesterRelock(i) => At(s, i, Granted) && s.mutex == Free
    case Release(i, w) => At(s, i, InControl) && MayWake(s, w)
    case RequesterUnlock(i) => At(s, i, Leaving)
  }

  function Move(s: State, i: nat, pc: RequesterPc): State
    requires i < |s.requesters|
  {
    s.(requesters := s.requesters[i := pc])
  }

  ghost function Wake(s: State, w: Wakeup): State
    requires MayWake(s, w)
  {
    match w
    case Nobody => s
    case WakeMiner => s.(miner := Woken)
    case WakeRequester(i) => Move(s, i, Granted)
  }

  ghost function Do(s: State, a: Action): State
    requires Enabled(s, a)
  {
    match a
    case Poll => if s.pending > 0 then s.(miner := SawRequest) else s
    case ReadPipe =>
      s.(miner := Locking, pending := if s.pending <= NOTIFIER_BUFFER then 0 else s.pending - NOTIFIER_BUFFER)
    case MinerLock => s.(miner := Signalling, mutex := Miner)
    case MinerSignal(w) => Wake(s, w).(miner := AboutToWait)
    case MinerWait => s.(miner := Waiting, mutex := Free)
    case MinerRelock => s.(miner := Unlocking, mutex := Miner)
    case MinerUnlock => s.(miner := Running, mutex := Free)
    case Request(i) => Move(s, i, WantsLock)
    case RequesterLock(i) => Move(s, i, Waking).(mutex := Requester(i))
    case WakePipe(i) => Move(s, i, ReadyToWait).(pending := s.pending + 1)
    case RequesterWait(i) => Move(s, i, Blocked).(mutex := Free)
    case RequesterRelock(i) => Move(s, i, InControl).(mutex := Requester(i))
    case Release(i, w) => Move(Wake(s, w), i, Leaving)
    case RequesterUnlock(i) => Move(s, i, Idle).(mutex := Free)
  }

  /** The requesters between the call of request and the end of release. */
  function Outstanding(s: State): (r: set<nat>)
  {
    set i | 0 <= i < |s.requesters| && s.requesters[i] != Idle
  }

  datatype Run = Start | Then(run: Run, action: Action)

  /** The state after a run of n requesting threads in which at most `limit` requests are ever
      outstanding together; None when some action of the run is not possible where it stands. */
  ghost function Exec(n: nat, limit: nat, run: Run): Option<State> {
    match run
    case Start => Some(Init(n))
    case Then(earlier, a) =>
      var before := Exec(n, limit, earlier);
      if before.Some? && Enabled(before.value, a) && |Outstanding(Do(before.value, a))| <= limit
      then Some(Do(before.value, a))
      else None
  }

  ghost predicate Reachable(n: nat, limit: nat, s: State) {
    exists run :: Exec(n, limit, run) == Some(s)
  }

  // ----- mutual exclusion, for any number of requesters -----

  predicate HoldsMutex(pc: RequesterPc) {
    pc.Waking? || pc.ReadyToWait? || pc.InControl? || pc.Leaving?
  }

  /** The right to touch the device belongs to the miner thread ... */
  predicate MinerHasDevice(s: State) {
    s.miner != AboutToWait && s.miner != Waiting
  }

  /** ... or has been passed to a requester. */
  predicate RequesterHasDevice(s: State, i: nat) {
    i < |s.requesters| && (s.requesters[i] == Granted || s.requesters[i] == InControl)
  }

  ghost predicate MutexOwned(s: State) {
    && (s.mutex == Miner <==> s.miner.Signalling? || s.miner.AboutToWait? || s.miner.Unlocking?)
    && (s.mutex.Requester? ==> s.mutex.id < |s.requesters|)
    && (forall i: nat | i < |s.requesters| :: s.mutex == Requester(i) <==> HoldsMutex(s.requesters[i]))
  }

  ghost predicate DeviceOwned(s: State) {
    && (forall i: nat | RequesterHasDevice(s, i) :: !MinerHasDevice(s))
    && (forall i: nat, j: nat | RequesterHasDevice(s, i) && RequesterHasDevice(s, j) :: i == j)
  }

  ghost predicate Inv(s: State) {
    MutexOwned(s) && DeviceOwned(s)
  }

  /** The requester a step hands the device to, or None. */
  ghost predicate HandsDeviceTo(a: Action, i: nat) {
    (a.MinerSignal? || a.Release?) && a.woken == WakeRequester(i)
  }

  lemma MutexHolder(s: State)
    requires MutexOwned(s)
    ensures s.mutex.Requester? ==> HoldsMutex(s.requesters[s.mutex.id])
  {
  }

  lemma StepKeepsInv(s: State, a: Action)
    requires Inv(s) && Enabled(s, a)
    ensures Inv(Do(s, a))
  {
    var t := Do(s, a);
    assert MutexOwned(t);
    forall i: nat | RequesterHasDevice(t, i)
      ensures !MinerHasDevice(t)
      ensures forall j: nat | RequesterHasDevice(t, j) :: j == i
    {
      assert HandsDeviceTo(a, i) || RequesterHasDevice(s, i);
      if a.Release? {
        assert RequesterHasDevice(s, a.id);
      }
      forall j: nat | RequesterHasDevice(t, j) ensures j == i {
        assert HandsDeviceTo(a, j) || RequesterHasDevice(s, j);
      }
    }
  }

  lemma {:induction false} RunKeepsInv(n: nat, limit: nat, run: Run)
    requires Exec(n, limit, run).Some?
    ensures Inv(Exec(n, limit, run).value)
    ensures |Exec(n, limit, run).value.requesters| == n
  {
    match run
    case Start =>
    case Then(earlier, a) =>
      RunKeepsInv(n, limit, earlier);
      StepKeepsInv(Exec(n, limit, earlier).value, a);
      hide Do, Enabled, Inv;
      assert Exec(n, limit, run) == Some(Do(Exec(n, limit, earlier).value, a));
  }

  /** While any requester is in control, the miner thread is asleep in its wait and no other
      requester is in control. */
  lemma MutualExclusion(n: nat, limit: nat, s: State, i: nat)
    requires Reachable(n, limit, s) && At(s, i, InControl)
    ensures s.miner == Waiting
    ensures forall j :: At(s, j, InControl) ==> j == i
  {
    var run :| Exec(n, limit, run) == Some(s);
    RunKeepsInv(n, limit, run);
    assert RequesterHasDevice(s, i) && HoldsMutex(s.requesters[i]);
    forall j | At(s, j, InControl) ensures j == i {
      assert RequesterHasDevice(s, j);
    }
  }

  // ----- losing the device for good -----

  /** Nothing can happen any more, except that threads call request. */
  ghost predicate Stuck(s: State) {
    forall a | Enabled(s, a) :: a.Request?
  }

  /** Nobody has the device: the miner thread sleeps, or is about to, and no requester was woken. */
  ghost predicate DeviceLost(s: State) {
    !MinerHasDevice(s) && forall i: nat :: !RequesterHasDevice(s, i)
  }

  lemma LossPersists(s: State, a: Action)
    requires Inv(s) && DeviceLost(s) && Enabled(s, a)
    ensures DeviceLost(Do(s, a))
  {
    if a.Release? {
      assert RequesterHasDevice(s, a.id);
    }
    forall i: nat ensures !RequesterHasDevice(Do(s, a), i) {
      assert !RequesterHasDevice(s, i);
    }
  }

  ghost predicate Continues(run: Run, start: Run) {
    run == start || (run.Then? && Continues(run.run, start))
  }

  /** Once nobody has the device, nobody ever gets it again, whatever is requested afterwards: the
      miner thread never runs and no requester is ever in control. */
  lemma {:induction false} LostForever(n: nat, limit: nat, start: Run, run: Run)
    requires Exec(n, limit, start).Some? && DeviceLost(Exec(n, limit, start).value)
    requires Continues(run, start) && Exec(n, limit, run).Some?
    ensures DeviceLost(Exec(n, limit, run).value)
  {
    if run != start {
      LostForever(n, limit, start, run.run);
      RunKeepsInv(n, limit, run.run);
      LossPersists(Exec(n, limit, run.run).value, run.action);
    }
  }

  lemma StepReaches(n: nat, limit: nat, s: State, a: Action, t: State)
    requires Reachable(n, limit, s) && Enabled(s, a) && Do(s, a) == t && |Outstanding(t)| <= limit
    ensures Reachable(n, limit, t)
  {
    var run :| Exec(n, limit, run) == Some(s);
    assert Exec(n, limit, Then(run, a)) == Some(t);
  }

  lemma InitReachable(n: nat, limit: nat)
    ensures Reachable(n, limit, Init(n))
  {
    assert Exec(n, limit, Start) == Some(Init(n));
  }

  lemma {:induction false} SubsetSize<T>(a: set<T>, b: set<T>)
    requires a <= b
    ensures |a| <= |b|
  {
    assert b == a + (b - a);
  }

  function Threads(n: nat): (r: set<nat>)
    ensures |r| == n
    ensures forall i: nat :: i in r <==> i < n
  {
    if n == 0 then {} else Threads(n - 1) + {n - 1}
  }

  lemma OutstandingAtMost(s: State)
    ensures |Outstanding(s)| <= |s.requesters|
  {
    SubsetSize(Outstanding(s), Threads(|s.requesters|));
  }

  /** A step of a run of two threads. */
  lemma PairStep(s: State, a: Action, t: State) returns (r: State)
    requires Reachable(2, 2, s) && |t.requesters| == 2
    requires Enabled(s, a) && Do(s, a) == t
    ensures r == t && Reachable(2, 2, t)
  {
    r := t;
    OutstandingAtMost(t);
    StepReaches(2, 2, s, a, t);
  }

  const BOTH_WAITING := State(Locking, [Blocked, Blocked], Free, 1)
  const ONE_BYTE_LEFT := State(Running, [Idle, Idle], Free, 1)
  const ASLEEP := State(Waiting, [Idle, Idle], Free, 0)

  lemma PairStart()
    ensures Reachable(2, 2, State(Running, [Idle, Idle], Free, 0))
  {
    InitReachable(2, 2);
    assert Init(2) == State(Running, [Idle, Idle], Free, 0);
  }

  const FIRST_WRITTEN := State(Running, [Blocked, Idle], Free, 1)

  lemma FirstRequestWritten()
    ensures Reachable(2, 2, FIRST_WRITTEN)
  {
    PairStart();
    var s := State(Running, [Idle, Idle], Free, 0);
    s := PairStep(s, Request(0), State(Running, [WantsLock, Idle], Free, 0));
    s := PairStep(s, RequesterLock(0), State(Running, [Waking, Idle], Requester(0), 0));
    s := PairStep(s, WakePipe(0), State(Running, [ReadyToWait, Idle], Requester(0), 1));
    s := PairStep(s, RequesterWait(0), State(Running, [Blocked, Idle], Free, 1));
  }

  /** The second request writes to the pipe after the miner thread has read it ... */
  lemma SecondRequestAfterRead()
    ensures Reachable(2, 2, BOTH_WAITING)
  {
    FirstRequestWritten();
    var s := FIRST_WRITTEN;
    s := PairStep(s, Poll, State(SawRequest, [Blocked, Idle], Free, 1));
    s := PairStep(s, ReadPipe, State(Locking, [Blocked, Idle], Free, 0));
    s := PairStep(s, Request(1), State(Locking, [Blocked, WantsLock], Free, 0));
    s := PairStep(s, RequesterLock(1), State(Locking, [Blocked, Waking], Requester(1), 0));
    s := PairStep(s, WakePipe(1), State(Locking, [Blocked, ReadyToWait], Requester(1), 1));
    s := PairStep(s, RequesterWait(1), State(Locking, [Blocked, Blocked], Free, 1));
  }

  const SECOND_GRANTED := State(Waiting, [Idle, Granted], Free, 1)

  /** ... but is served by the release of the first one ... */
  lemma FirstReleaseWakesSecond()
    ensures Reachable(2, 2, SECOND_GRANTED)
  {
    SecondRequestAfterRead();
    var s := State(Locking, [Blocked, Blocked], Free, 1);
    s := PairStep(s, MinerLock, State(Signalling, [Blocked, Blocked], Miner, 1));
    s := PairStep(s, MinerSignal(WakeRequester(0)), State(AboutToWait, [Granted, Blocked], Miner, 1));
    s := PairStep(s, MinerWait, State(Waiting, [Granted, Blocked], Free, 1));
    s := PairStep(s, RequesterRelock(0), State(Waiting, [InControl, Blocked], Requester(0), 1));
    s := PairStep(s, Release(0, WakeRequester(1)), State(Waiting, [Leaving, Granted], Requester(0), 1));
    s := PairStep(s, RequesterUnlock(0), SECOND_GRANTED);
  }

  /** ... so its byte is still there when both requests have been served ... */
  lemma ByteOutlivesItsRequest()
    ensures Reachable(2, 2, ONE_BYTE_LEFT)
  {
    FirstReleaseWakesSecond();
    var s := SECOND_GRANTED;
    s := PairStep(s, RequesterRelock(1), State(Waiting, [Idle, InControl], Requester(1), 1));
    s := PairStep(s, Release(1, WakeMiner), State(Woken, [Idle, Leaving], Requester(1), 1));
    s := PairStep(s, RequesterUnlock(1), State(Woken, [Idle, Idle], Free, 1));
    s := PairStep(s, MinerRelock, State(Unlocking, [Idle, Idle], Miner, 1));
    s := PairStep(s, MinerUnlock, State(Running, [Idle, Idle], Free, 1));
  }

  /** ... and the miner thread goes to sleep for a request that does not exist. */
  lemma MinerSleepsForNobody()
    ensures Reachable(2, 2, ASLEEP)
  {
    ByteOutlivesItsRequest();
    var s := State(Running, [Idle, Idle], Free, 1);
    s := PairStep(s, Poll, State(SawRequest, [Idle, Idle], Free, 1));
    s := PairStep(s, ReadPipe, State(Locking, [Idle, Idle], Free, 0));
    s := PairStep(s, MinerLock, State(Signalling, [Idle, Idle], Miner, 0));
    s := PairStep(s, MinerSignal(Nobody), State(AboutToWait, [Idle, Idle], Miner, 0));
    s := PairStep(s, MinerWait, State(Waiting, [Idle, Idle], Free, 0));
  }

  /** The same state with more threads, all of them idle. */
  function WithIdle(s: State, more: nat): State {
    s.(requesters := s.requesters + seq(more, _ => Idle))
  }

  lemma StepWithIdle(s: State, more: nat, a: Action)
    requires Inv(s) && Enabled(s, a)
    ensures Enabled(WithIdle(s, more), a)
    ensures Do(WithIdle(s, more), a) == WithIdle(Do(s, a), more)
    ensures Outstanding(WithIdle(s, more)) == Outstanding(s)
  {
    var t := WithIdle(s, more);
    forall i: nat ensures At(t, i, Blocked) ==> At(s, i, Blocked) {}
    assert forall i: nat, pc :: At(s, i, pc) ==> At(t, i, pc);
    assert Do(t, a).requesters == WithIdle(Do(s, a), more).requesters;
  }

  lemma {:induction false} RunWithIdle(n: nat, limit: nat, more: nat, run: Run)
    requires Exec(n, limit, run).Some?
    ensures Exec(n + more, limit, run) == Some(WithIdle(Exec(n, limit, run).value, more))
  {
    match run
    case Start => assert Init(n + more).requesters == WithIdle(Init(n), more).requesters;
    case Then(earlier, a) =>
      var s := Exec(n, limit, earlier).value;
      RunWithIdle(n, limit, more, earlier);
      RunKeepsInv(n, limit, earlier);
      StepWithIdle(s, more, a);
      assert Outstanding(WithIdle(Do(s, a), more)) == Outstanding(Do(s, a));
  }

  /** With two requests at a time the machine can get stuck: nobody asks, the miner thread sleeps, and
      by LostForever no later request is ever granted. */
  lemma TwoRequestsLoseTheDevice(n: nat, limit: nat) returns (s: State)
    requires n >= 2 && limit >= 2
    ensures Reachable(n, limit, s) && Stuck(s) && DeviceLost(s) && Outstanding(s) == {}
  {
    s := WithIdle(ASLEEP, n - 2);
    AsleepIsStuck(s);
    MinerSleepsForNobody();
    var run :| Exec(2, 2, run) == Some(ASLEEP);
    RunWithIdle(2, 2, n - 2, run);
    LimitOnly(n, 2, limit, run);
    assert Exec(n, limit, run) == Some(s);
  }

  lemma AsleepIsStuck(s: State)
    requires s.miner == Waiting && s.mutex == Free
    requires forall i: nat | i < |s.requesters| :: s.requesters[i] == Idle
    ensures Stuck(s) && DeviceLost(s) && Outstanding(s) == {}
  {
  }

  // ----- one request at a time -----

  ghost predicate OthersIdle(s: State, i: nat) {
    forall j: nat | j < |s.requesters| && j != i :: s.requesters[j] == Idle
  }

  /** All the states in which nobody asks ... */
  ghost predicate NobodyAsks(s: State) {
    && (forall j: nat | j < |s.requesters| :: s.requesters[j] == Idle)
    && s.pending == 0
    && (s.miner.Running? || s.miner.Woken? || s.miner.Unlocking?)
  }

  /** ... and all the states in which only requester i asks. */
  ghost predicate OneAsks(s: State, i: nat) {
    && i < |s.requesters|
    && OthersIdle(s, i)
    && match s.requesters[i]
       case Idle => false
       case WantsLock => s.pending == 0 && (s.miner.Running? || s.miner.Woken? || s.miner.Unlocking?)
       case Waking => s.pending == 0 && (s.miner.Running? || s.miner.Woken?)
       case ReadyToWait => RequestPending(s) && !s.miner.Signalling? && !s.miner.Unlocking?
       case Blocked => RequestPending(s)
       case Granted => s.pending == 0 && (s.miner.AboutToWait? || s.miner.Waiting?)
       case InControl => s.pending == 0 && s.miner.Waiting?
       case Leaving => s.pending == 0 && s.miner.Woken?
  }

  /** The written byte is in the pipe until the miner thread has read it; after that the miner thread
      is on its way to signal. */
  predicate RequestPending(s: State) {
    match s.miner
    case Running => s.pending == 1
    case SawRequest => s.pending == 1
    case Woken => s.pending == 1
    case Unlocking => s.pending == 1
    case Locking => s.pending == 0
    case Signalling => s.pending == 0
    case AboutToWait => false
    case Waiting => false
  }

  ghost predicate SingleInv(s: State) {
    Inv(s) && (NobodyAsks(s) || exists i: nat :: OneAsks(s, i))
  }

  lemma OnlyOneOutstanding(s: State, i: nat, j: nat)
    requires |Outstanding(s)| <= 1 && i in Outstanding(s) && j in Outstanding(s)
    ensures i == j
  {
    SubsetSize({i, j}, Outstanding(s));
  }

  /** While one requester asks, every other step is its own or the miner thread's. */
  lemma StepOfOneAsker(s: State, i: nat, a: Action)
    requires Inv(s) && OneAsks(s, i) && Enabled(s, a) && !a.Request?
    ensures a.RequesterLock? || a.WakePipe? || a.RequesterWait? ==> a.id == i
    ensures a.RequesterRelock? || a.Release? || a.RequesterUnlock? ==> a.id == i
    ensures a.Release? ==> a.woken == WakeMiner
    ensures a.MinerSignal? ==> a.woken == WakeRequester(i)
    ensures HoldsMutex(s.requesters[i]) <==> s.mutex == Requester(i)
  {
    if a.MinerSignal? {
      assert At(s, i, Blocked);
    }
  }

  lemma OneAskerStep(s: State, i: nat, a: Action)
    requires Inv(s) && OneAsks(s, i) && Enabled(s, a) && !a.Request?
    ensures if a.RequesterUnlock? then NobodyAsks(Do(s, a)) else OneAsks(Do(s, a), i)
  {
    StepOfOneAsker(s, i, a);
    assert OthersIdle(Do(s, a), i);
  }

  lemma StepKeepsSingleInv(s: State, a: Action)
    requires SingleInv(s) && Enabled(s, a) && |Outstanding(Do(s, a))| <= 1
    ensures SingleInv(Do(s, a))
  {
    StepKeepsInv(s, a);
    if NobodyAsks(s) {
      assert a.Request? ==> OneAsks(Do(s, a), a.id);
    } else {
      var i: nat :| OneAsks(s, i);
      if a.Request? {
        OnlyOneOutstanding(Do(s, a), i, a.id);
      } else {
        OneAskerStep(s, i, a);
      }
    }
  }

  lemma {:induction false} RunKeepsSingleInv(n: nat, run: Run)
    requires Exec(n, 1, run).Some?
    ensures SingleInv(Exec(n, 1, run).value)
  {
    match run
    case Start => assert NobodyAsks(Init(n));
    case Then(earlier, a) =>
      RunKeepsSingleInv(n, earlier);
      StepKeepsSingleInv(Exec(n, 1, earlier).value, a);
  }

  /** How far a request is from being granted: both threads walk towards it and never back. */
  function MinerRank(pc: MinerPc): nat {
    match pc
    case Woken => 7 case Unlocking => 6 case Running => 5 case SawRequest => 4
    case Locking => 3 case Signalling => 2 case AboutToWait => 1 case Waiting => 0
  }

  function RequesterRank(pc: RequesterPc): nat {
    match pc
    case WantsLock => 5 case Waking => 4 case ReadyToWait => 3 case Blocked => 2 case Granted => 1
    case InControl => 0 case Leaving => 0 case Idle => 0
  }

  function Rank(s: State, i: nat): nat
    requires i < |s.requesters|
  {
    MinerRank(s.miner) + RequesterRank(s.requesters[i])
  }

  predicate Asking(s: State, i: nat) {
    i < |s.requesters| && RequesterRank(s.requesters[i]) > 0
  }

  /** A step that brings the only request closer. */
  ghost function NextStep(s: State, i: nat): (a: Action)
    requires SingleInv(s) && OneAsks(s, i) && Asking(s, i)
    ensures Enabled(s, a) && !a.Request? && (a == Poll ==> s.pending > 0)
  {
    assert HoldsMutex(s.requesters[i]) <==> s.mutex == Requester(i);
    MutexHolder(s);
    match s.requesters[i]
    case Waking => WakePipe(i)
    case ReadyToWait => RequesterWait(i)
    case WantsLock => if s.miner == Unlocking then MinerUnlock else RequesterLock(i)
    case Granted => if s.miner == AboutToWait then MinerWait else RequesterRelock(i)
    case Blocked =>
      assert At(s, i, Blocked);
      match s.miner
      case Running => Poll
      case SawRequest => ReadPipe
      case Locking => MinerLock
      case Signalling => MinerSignal(WakeRequester(i))
      case Woken => MinerRelock
      case Unlocking => MinerUnlock
  }

  lemma StepAdvances(s: State, i: nat, a: Action)
    requires SingleInv(s) && OneAsks(s, i) && Asking(s, i)
    requires Enabled(s, a) && !a.Request?
    ensures (a == Poll && s.pending == 0 && Do(s, a) == s) || Rank(Do(s, a), i) < Rank(s, i)
  {
    StepOfOneAsker(s, i, a);
  }

  /** With one request at a time, a request that has not been granted is never held up: some step is
      possible that brings it closer, and every possible step either brings it closer or is a poll
      that finds nothing to do and changes nothing. */
  lemma RequestAdvances(n: nat, s: State, i: nat)
    requires Reachable(n, 1, s) && Asking(s, i)
    ensures exists a :: Enabled(s, a) && !a.Request? && Rank(Do(s, a), i) < Rank(s, i)
    ensures forall a | Enabled(s, a) && !a.Request? ::
              (a == Poll && Do(s, a) == s) || Rank(Do(s, a), i) < Rank(s, i)
  {
    SingleAsker(n, s, i);
    var next := NextStep(s, i);
    StepAdvances(s, i, next);
    forall a | Enabled(s, a) && !a.Request?
      ensures (a == Poll && Do(s, a) == s) || Rank(Do(s, a), i) < Rank(s, i)
    {
      StepAdvances(s, i, a);
    }
  }

  lemma SingleAsker(n: nat, s: State, i: nat)
    requires Reachable(n, 1, s) && Asking(s, i)
    ensures SingleInv(s) && OneAsks(s, i)
  {
    var run :| Exec(n, 1, run) == Some(s);
    RunKeepsSingleInv(n, run);
  }

  /** With one request at a time no reachable state is stuck. */
  lemma SingleNeverStuck(n: nat, s: State)
    requires Reachable(n, 1, s)
    ensures !Stuck(s)
  {
    var run :| Exec(n, 1, run) == Some(s);
    RunKeepsSingleInv(n, run);
    if NobodyAsks(s) {
      MutexHolder(s);
      assert Enabled(s, Poll) || Enabled(s, MinerRelock) || Enabled(s, MinerUnlock);
    } else {
      var i: nat :| OneAsks(s, i);
      if Asking(s, i) {
        var next := NextStep(s, i);
        assert Enabled(s, next);
      } else if s.requesters[i] == InControl {
        assert Enabled(s, Release(i, WakeMiner));
      } else {
        assert Enabled(s, RequesterUnlock(i));
      }
    }
  }

  /** A run that meets a limit meets every limit that the number of threads cannot exceed. */
  lemma {:induction false} LimitOnly(n: nat, limit: nat, low: nat, run: Run)
    requires Exec(n, limit, run).Some? && (limit <= low || n <= low)
    ensures Exec(n, low, run) == Exec(n, limit, run)
  {
    match run
    case Start =>
    case Then(earlier, a) =>
      LimitOnly(n, limit, low, earlier);
      RunKeepsInv(n, limit, run);
      OutstandingAtMost(Exec(n, limit, run).value);
  }

  /** The exact condition: the machine can get stuck if and only if two requests can be outstanding
      at the same time. */
  lemma StuckIffConcurrentRequests(n: nat, limit: nat)
    ensures (exists s :: Reachable(n, limit, s) && Stuck(s)) <==> n >= 2 && limit >= 2
  {
    if n >= 2 && limit >= 2 {
      var s := TwoRequestsLoseTheDevice(n, limit);
    } else {
      forall s | Reachable(n, limit, s) ensures !Stuck(s) {
        var run :| Exec(n, limit, run) == Some(s);
        LimitOnly(n, limit, 1, run);
        SingleNeverStuck(n, s);
      }
    }
  }

  // ----- a request that is forgotten -----

  /** The miner thread runs, a requester waits, and as long as nobody else asks nothing will ever change. */
  ghost predicate Forgotten(s: State, i: nat) {
    s.miner == Running && At(s, i, Blocked) && forall a | Enabled(s, a) && !a.Request? :: Do(s, a) == s
  }

  const LEFT_WAITING := State(Running, [Idle, Blocked], Free, 0)

  /** Both requests write to the pipe before the miner thread reads it ... */
  lemma BothBytesAtOnce()
    ensures Reachable(2, 2, State(SawRequest, [Blocked, Blocked], Free, 2))
  {
    FirstRequestWritten();
    var s := FIRST_WRITTEN;
    s := PairStep(s, Request(1), State(Running, [Blocked, WantsLock], Free, 1));
    s := PairStep(s, RequesterLock(1), State(Running, [Blocked, Waking], Requester(1), 1));
    s := PairStep(s, WakePipe(1), State(Running, [Blocked, ReadyToWait], Requester(1), 2));
    s := PairStep(s, RequesterWait(1), State(Running, [Blocked, Blocked], Free, 2));
    s := PairStep(s, Poll, State(SawRequest, [Blocked, Blocked], Free, 2));
  }

  /** ... which takes both bytes for one request; the release of the one then wakes the miner thread, and the
      other is left waiting. */
  lemma OneReadForTwo()
    ensures Reachable(2, 2, LEFT_WAITING)
  {
    BothBytesAtOnce();
    var s := State(SawRequest, [Blocked, Blocked], Free, 2);
    s := PairStep(s, ReadPipe, State(Locking, [Blocked, Blocked], Free, 0));
    s := PairStep(s, MinerLock, State(Signalling, [Blocked, Blocked], Miner, 0));
    s := PairStep(s, MinerSignal(WakeRequester(0)), State(AboutToWait, [Granted, Blocked], Miner, 0));
    s := PairStep(s, MinerWait, State(Waiting, [Granted, Blocked], Free, 0));
    s := PairStep(s, RequesterRelock(0), State(Waiting, [InControl, Blocked], Requester(0), 0));
    s := PairStep(s, Release(0, WakeMiner), State(Woken, [Leaving, Blocked], Requester(0), 0));
    s := PairStep(s, RequesterUnlock(0), State(Woken, [Idle, Blocked], Free, 0));
    s := PairStep(s, MinerRelock, State(Unlocking, [Idle, Blocked], Miner, 0));
    s := PairStep(s, MinerUnlock, LEFT_WAITING);
  }

  lemma LeftWaitingIsForgotten(s: State)
    requires s.miner == Running && s.pending == 0 && s.mutex == Free && At(s, 1, Blocked)
    requires forall j: nat | j < |s.requesters| && j != 1 :: s.requesters[j] == Idle
    ensures Forgotten(s, 1)
  {
  }

  lemma OneReadLeavesOneWaiting(n: nat, limit: nat) returns (s: State)
    requires n >= 2 && limit >= 2
    ensures Reachable(n, limit, s) && Forgotten(s, 1)
  {
    hide Forgotten;
    s := WithIdle(LEFT_WAITING, n - 2);
    LeftWaitingIsForgotten(s);
    OneReadForTwo();
    var run :| Exec(2, 2, run) == Some(LEFT_WAITING);
    RunWithIdle(2, 2, n - 2, run);
    LimitOnly(n, 2, limit, run);
    assert Exec(n, limit, run) == Some(s);
  }

  /** With one request at a time none is forgotten. */
  lemma SingleNeverForgotten(n: nat, s: State, i: nat)
    requires Reachable(n, 1, s)
    ensures !Forgotten(s, i)
  {
    hide Reachable, Enabled, Do;
    if At(s, i, Blocked) {
      RequestAdvances(n, s, i);
    }
  }

  /** The exact condition is the same: two requests at the same time. */
  lemma ForgottenIffConcurrentRequests(n: nat, limit: nat)
    ensures (exists s, i :: Reachable(n, limit, s) && Forgotten(s, i)) <==> n >= 2 && limit >= 2
  {
    hide Forgotten;
    if n >= 2 && limit >= 2 {
      var s := OneReadLeavesOneWaiting(n, limit);
    } else {
      forall s, i | Reachable(n, limit, s) ensures !Forgotten(s, i) {
        var run :| Exec(n, limit, run) == Some(s);
        LimitOnly(n, limit, 1, run);
        SingleNeverForgotten(n, s, i);
      }
    }
  }

  // ----- the wake-up pipe -----

  function Writes(run: Run): nat {
    if run.Start? then 0 else Writes(run.run) + if run.action.WakePipe? then 1 else 0
  }

  function Reads(run: Run): nat {
    if run.Start? then 0 else Reads(run.run) + if run.action.ReadPipe? then 1 else 0
  }

  /** No byte is lost or made up: over all runs, the bytes that were written are still there or were read, at least one
      and at most sixteen at a time. */
  lemma {:induction false} PipeKeepsItsBytes(n: nat, limit: nat, run: Run)
    requires Exec(n, limit, run).Some?
    ensures var s := Exec(n, limit, run).value;
      Reads(run) + s.pending <= Writes(run) <= 16 * Reads(run) + s.pending && (s.miner == SawRequest ==> s.pending > 0)
  {
    hide MayWake;
    if run.Then? {
      PipeKeepsItsBytes(n, limit, run.run);
    }
  }
}
