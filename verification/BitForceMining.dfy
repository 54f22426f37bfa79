/**
 The queueing miner loop with the BitForce driver behind it: the loop fetches works and offers them, the
 driver's queue takes or refuses them, sends them, and frees them when the device is done with them.
 */
module BitForceMining {
  import opened Options
  import opened Bytes
  import opened Works
  import opened BitForceFlush
  import Board = BitForceQueue
  import BoardInv = BitForceInvariant
  import Loop = QueueLoop

  datatype System = System(loop: Loop.State, board: Board.Queue)

  const START := System(Loop.INITIAL, BoardInv.EMPTY)

  datatype Event =
    | OfferWork(fetch: Fetch, midstate: seq<byte>, tail: seq<byte>, input: Board.SendInput)
    | FlushBoard(handlesBoard: bool, reply: Board.FlushReply, isOpen: bool, batches: seq<Board.ResultBatch>)
    | PollBoard(isOpen: bool, batches: seq<Board.ResultBatch>, input: Board.SendInput)
    | ReinitialiseBoard
    | SetEnabled(enabled: bool)

  /** What the board is told when a work is offered to it. */
  function AsAppend(e: Event): BoardInv.Event
    requires e.OfferWork?
  {
    BoardInv.Append(e.midstate, e.tail, e.input)
  }

  ghost predicate Possible(c: Board.Config, s: System, e: Event) {
    match e
    case OfferWork(fetch, _, _, _) =>
      !s.board.queueFull && (Loop.NextWork(s.loop, fetch).1.Work? ==> BoardInv.Conforms(c, s.board, AsAppend(e)))
    case FlushBoard(handles, reply, isOpen, batches) =>
      BoardInv.Conforms(c, s.board, BoardInv.Flush(handles, reply, isOpen, batches))
    case PollBoard(isOpen, batches, input) =>
      BoardInv.Conforms(c, s.board, BoardInv.PollDevice(isOpen, batches, input))
    case ReinitialiseBoard => BoardInv.Conforms(c, s.board, BoardInv.Reinitialise)
    case SetEnabled(_) => true
  }

  /** A step of the driver alone; the loop sees its queue_full. */
  function OnlyBoard(s: System, board: Board.Queue): System {
    System(s.loop.(queueFull := board.queueFull), board)
  }

  ghost function Step(c: Board.Config, s: System, e: Event): System
    requires Possible(c, s, e)
  {
    match e
    case OfferWork(fetch, m, t, input) =>
      var (loop, w) := Loop.NextWork(s.loop, fetch);
      if w.Null? then System(loop, s.board)
      else
        var (board, taken) := Board.QueueAppend(c, s.board, m, t, input);
        System(Loop.Answer(loop, w.id, Loop.Offer(fetch, taken, board.queueFull)), board)
    case FlushBoard(handles, reply, isOpen, batches) =>
      var board := BoardInv.Apply(c, s.board, BoardInv.Flush(handles, reply, isOpen, batches));
      System(Loop.DoQueueFlush(s.loop, board.queueFull), board)
    case PollBoard(isOpen, batches, input) =>
      OnlyBoard(s, BoardInv.Apply(c, s.board, BoardInv.PollDevice(isOpen, batches, input)))
    case ReinitialiseBoard => OnlyBoard(s, BoardInv.Apply(c, s.board, BoardInv.Reinitialise))
    case SetEnabled(b) => System(s.loop.(enabled := b), s.board)
  }

  datatype Run = Empty | Then(run: Run, event: Event)

  ghost function Exec(c: Board.Config, run: Run): Option<System> {
    match run
    case Empty => Some(START)
    case Then(earlier, e) =>
      var s := Exec(c, earlier);
      if s.Some? && Possible(c, s.value, e) then Some(Step(c, s.value, e)) else None
  }

  function Length(log: Log): nat {
    if log.Nothing? then 0 else Length(log.earlier) + 1
  }

  /** The driver numbers the works it takes in the order it takes them. */
  ghost predicate Linked(s: System) {
    Length(s.loop.taken) == s.board.appended
  }

  ghost predicate Inv(c: Board.Config, s: System) {
    Loop.Inv(s.loop) && BoardInv.Inv(c, s.board) && Linked(s)
  }

  lemma FlushKeepsAppended(c: Board.Config, q: Board.Queue, reply: Board.FlushReply, isOpen: bool, batches: seq<Board.ResultBatch>)
    requires Board.Counted(q)
    ensures Board.FlushUncorrected(c, q, reply, isOpen, batches).appended == q.appended
  {
    hide Reconcile, Board.TableFrom, Board.QueueDoResults, Board.FlushCount;
    if !reply.BinaryReport? {
      ResultsKeepAppended(c, Board.AfterDelete(c, q, reply), isOpen, batches);
    }
  }

  lemma PollKeepsAppended(c: Board.Config, q: Board.Queue, e: BoardInv.Event)
    requires BoardInv.Conforms(c, q, e) && e.PollDevice?
    ensures BoardInv.Apply(c, q, e).appended == q.appended
  {
    hide Board.QueueDoResults, Board.SendQueue;
    ResultsKeepAppended(c, q, e.isOpen, e.batches);
    var q' := BoardInv.AfterResults(c, q, e.isOpen, e.batches);
    if q'.wantToSend {
      SendKeepsAppended(c, q', e.input);
    }
  }

  lemma OnlyAppendAppends(c: Board.Config, q: Board.Queue, e: BoardInv.Event)
    requires BoardInv.Conforms(c, q, e) && !e.Append?
    ensures BoardInv.Apply(c, q, e).appended == q.appended
  {
    assert Board.Counted(q);
    hide BoardInv.Conforms;
    match e
    case PollDevice(_, _, _) =>
      PollKeepsAppended(c, q, e);
    case Flush(handles, reply, isOpen, batches) =>
      hide Board.FlushUncorrected;
      FlushKeepsAppended(c, q, reply, isOpen, batches);
    case Reinitialise =>
  }

  lemma {:induction false} LinesKeepAppended(c: Board.Config, q: Board.Queue, lines: seq<Board.ResultLine>)
    ensures Board.ProcessLines(c, q, lines).appended == q.appended
  {
    if lines != [] {
      LinesKeepAppended(c, q, lines[..|lines| - 1]);
    }
  }

  lemma {:induction false} ResultsKeepAppended(c: Board.Config, q: Board.Queue, isOpen: bool, batches: seq<Board.ResultBatch>)
    ensures Board.QueueDoResults(c, q, isOpen, batches).0.appended == q.appended
    decreases |batches|
  {
    if isOpen && batches != [] && batches[0].Batch? && batches[0].count > 0 {
      LinesKeepAppended(c, q, batches[0].lines);
      var q' := Board.SetQueueFull(c, Board.ProcessLines(c, q, batches[0].lines));
      ResultsKeepAppended(c, q', isOpen, batches[1..]);
    }
  }

  lemma SendKeepsAppended(c: Board.Config, q: Board.Queue, input: Board.SendInput)
    requires Board.SendDefined(c, q, input)
    ensures Board.SendQueue(c, q, input).0.appended == q.appended
  {
    hide Board.AssignIds, Board.Serials, Board.Slice;
  }

  lemma AppendCounts(c: Board.Config, q: Board.Queue, m: seq<byte>, t: seq<byte>, input: Board.SendInput)
    requires Board.AppendDefined(c, q, m, t, input)
    ensures var (q', taken) := Board.QueueAppend(c, q, m, t, input);
            q'.appended == q.appended + if taken then 1 else 0
  {
    hide Board.SendQueue, Board.SendDefined, Board.WantsToSendNow;
    var q' := Board.AfterAppend(c, q, m, t);
    if Board.WantsToSendNow(c, q') {
      SendKeepsAppended(c, q', input);
    }
  }

  lemma StepKeepsInv(c: Board.Config, s: System, e: Event)
    requires c.maxAtOnce >= 0 && c.queuedMax >= 0 && Inv(c, s) && Possible(c, s, e)
    ensures Inv(c, Step(c, s, e))
  {
    hide Loop.Inv, BoardInv.Inv, BoardInv.Conforms, Board.QueueAppend;
    match e
    case OfferWork(fetch, m, t, input) =>
      OfferKeepsInv(c, s, e);
    case FlushBoard(handles, reply, isOpen, batches) =>
      Loop.FlushKeepsInv(s.loop, Step(c, s, e).board.queueFull);
      BoardInv.EventKeepsInv(c, s.board, BoardInv.Flush(handles, reply, isOpen, batches));
      OnlyAppendAppends(c, s.board, BoardInv.Flush(handles, reply, isOpen, batches));
    case PollBoard(isOpen, batches, input) =>
      BoardStepKeepsInv(c, s, BoardInv.PollDevice(isOpen, batches, input));
    case ReinitialiseBoard =>
      BoardStepKeepsInv(c, s, BoardInv.Reinitialise);
    case SetEnabled(b) =>
      Loop.SameWorksKeepInv(s.loop, s.loop.(enabled := b));
  }

  lemma BoardStepKeepsInv(c: Board.Config, s: System, e: BoardInv.Event)
    requires c.maxAtOnce >= 0 && c.queuedMax >= 0 && Inv(c, s) && BoardInv.Conforms(c, s.board, e) && !e.Append?
    ensures Inv(c, OnlyBoard(s, BoardInv.Apply(c, s.board, e)))
  {
    hide Loop.Inv, BoardInv.Inv, BoardInv.Conforms, BoardInv.Apply;
    var board := BoardInv.Apply(c, s.board, e);
    BoardInv.EventKeepsInv(c, s.board, e);
    OnlyAppendAppends(c, s.board, e);
    Loop.SameWorksKeepInv(s.loop, s.loop.(queueFull := board.queueFull));
  }

  lemma OfferKeepsInv(c: Board.Config, s: System, e: Event)
    requires c.maxAtOnce >= 0 && c.queuedMax >= 0 && Inv(c, s) && e.OfferWork? && Possible(c, s, e)
    ensures Inv(c, Step(c, s, e))
  {
    hide Loop.Inv, BoardInv.Inv, Board.QueueAppend;
    if Loop.NextWork(s.loop, e.fetch).1.Null? {
      Loop.TurnKeepsInv(s.loop, Loop.Offer(e.fetch, true, true));
    } else {
      var (board, taken) := Board.QueueAppend(c, s.board, e.midstate, e.tail, e.input);
      Loop.TurnKeepsInv(s.loop, Loop.Offer(e.fetch, taken, board.queueFull));
      BoardInv.EventKeepsInv(c, s.board, AsAppend(e));
      AppendCounts(c, s.board, e.midstate, e.tail, e.input);
    }
  }

  lemma {:induction false} RunKeepsInv(c: Board.Config, run: Run)
    requires c.maxAtOnce >= 0 && c.queuedMax >= 0 && Exec(c, run).Some?
    ensures Inv(c, Exec(c, run).value)
  {
    match run
    case Empty =>
    case Then(earlier, e) =>
      RunKeepsInv(c, earlier);
      StepKeepsInv(c, Exec(c, earlier).value, e);
  }

  /** The fetch number of the work the driver took n-th, counting from 0. */
  function TakenAt(log: Log, n: nat): nat
    requires n < Length(log)
  {
    if n == Length(log.earlier) then log.id else TakenAt(log.earlier, n)
  }

  /** How often a fetched work is on the board's list or among the works it freed. */
  ghost function OnBoard(s: System, x: nat, n: nat): nat
    requires n <= Length(s.loop.taken)
  {
    if n == 0 then 0
    else if TakenAt(s.loop.taken, n - 1) != x then OnBoard(s, x, n - 1)
    else OnBoard(s, x, n - 1) + Board.Occurs(s.board.list, n - 1) + Board.Occurs(s.board.freed, n - 1)
  }

  lemma {:induction false} OnBoardCounts(c: Board.Config, s: System, x: nat, log: Log)
    requires Inv(c, s) && Length(log) <= Length(s.loop.taken)
    requires forall n: nat | n < Length(log) :: TakenAt(log, n) == TakenAt(s.loop.taken, n)
    ensures OnBoard(s, x, Length(log)) == Times(log, x)
    decreases log
  {
    if log.Entry? {
      var n := Length(log.earlier);
      forall k: nat | k < n ensures TakenAt(log.earlier, k) == TakenAt(s.loop.taken, k) {
        assert TakenAt(log, k) == TakenAt(s.loop.taken, k);
      }
      OnBoardCounts(c, s, x, log.earlier);
      assert TakenAt(log, n) == TakenAt(s.loop.taken, n);
      assert Board.Occurs(s.board.list, n) + Board.Occurs(s.board.freed, n) == 1;
    }
  }

  /**
   Nothing is lost and nothing is freed twice, from the fetch to the device: after every run with a device
   that keeps to its side, each work the loop fetched is in exactly one of four places - parked by the
   loop, freed by the loop, on the driver's list, or freed by the driver - and in it once.
   */
  lemma {:induction false} EveryWorkIsSomewhere(c: Board.Config, run: Run, x: nat)
    requires c.maxAtOnce >= 0 && c.queuedMax >= 0 && Exec(c, run).Some?
    ensures Linked(Exec(c, run).value)
    ensures var s := Exec(c, run).value;
      Held(s.loop.parked, x) + Times(s.loop.freed, x) + OnBoard(s, x, s.board.appended)
        == if x < s.loop.fetched then 1 else 0
  {
    hide Exec, OnBoard, BoardInv.Inv;
    RunKeepsInv(c, run);
    var s := Exec(c, run).value;
    OnBoardCounts(c, s, x, s.loop.taken);
    assert Loop.Places(s.loop, x) == if x < s.loop.fetched then 1 else 0;
  }

  lemma {:induction false} TakenBelow(log: Log, m: nat, bound: nat)
    requires m < Length(log) && Loop.AllBelow(log, bound)
    ensures TakenAt(log, m) < bound
  {
    if m < Length(log.earlier) {
      TakenBelow(log.earlier, m, bound);
    }
  }

  lemma {:induction false} TakenAscends(log: Log, m: nat, n: nat)
    requires m < n < Length(log) && Loop.Ascending(log)
    ensures TakenAt(log, m) < TakenAt(log, n)
  {
    if n == Length(log.earlier) {
      TakenBelow(log.earlier, m, log.id);
    } else {
      TakenAscends(log.earlier, m, n);
    }
  }

  /** The fetch number of the job the device accepted n-th. */
  ghost function AcceptedAt(s: System, n: nat): nat
    requires Linked(s) && n < |s.board.delivered| && s.board.delivered[n] < s.board.appended
  {
    TakenAt(s.loop.taken, s.board.delivered[n])
  }

  /** From the fetch to the device, works are never overtaken: after every run, the jobs that the device has
      accepted are works in the order the loop fetched them, and none was accepted twice. */
  lemma {:induction false} AcceptedInFetchOrder(c: Board.Config, run: Run, m: nat, n: nat)
    requires c.maxAtOnce >= 0 && c.queuedMax >= 0 && Exec(c, run).Some?
    requires m < n < |Exec(c, run).value.board.delivered|
    ensures var s := Exec(c, run).value;
      Linked(s) && s.board.delivered[m] < s.board.appended && s.board.delivered[n] < s.board.appended &&
      AcceptedAt(s, m) < AcceptedAt(s, n) < s.loop.fetched
  {
    hide Exec;
    RunKeepsInv(c, run);
    var s := Exec(c, run).value;
    assert s.board.delivered[m] < s.board.delivered[n] < s.board.appended;
    TakenAscends(s.loop.taken, s.board.delivered[m], s.board.delivered[n]);
    TakenBelow(s.loop.taken, s.board.delivered[n], s.loop.fetched);
  }

  /** The loop always knows whether the board's queue is full. */
  lemma {:induction false} LoopSeesFull(c: Board.Config, run: Run)
    requires Exec(c, run).Some?
    ensures Exec(c, run).value.loop.queueFull == Exec(c, run).value.board.queueFull
  {
    hide BoardInv.Conforms, Board.QueueAppend, BoardInv.Apply;
    if run.Then? {
      LoopSeesFull(c, run.run);
    }
  }

  const ONE_TAKEN := Board.SendInput(true, Board.Queued(1, []), Board.UnknownCommand)

  lemma FirstSend(c: Board.Config, q: Board.Queue)
    requires q.ready == 1 && q.queued == 0 && |q.list| == 1 && q.list[0].serial == 0 && q.delivered == [] && !q.missingZwx
    ensures Board.SendDefined(c, q, ONE_TAKEN) && BoardInv.SendConforms(q, ONE_TAKEN)
    ensures var (t, ok) := Board.SendQueue(c, q, ONE_TAKEN); ok && t.delivered == [0]
  {
    assert Board.Slice(q.list, 0, 1) == q.list;
    assert Board.Serials(q.list) == [0] && q.delivered + [0] == [0];
    hide Board.AssignIds, Board.Serials, Board.Slice;
  }

  lemma FirstAppend(c: Board.Config, q: Board.Queue, midstate: seq<byte>, tail: seq<byte>)
    requires c.maxAtOnce > 0 && c.queuedMax > 0
    requires q.list == [] && q.queued == q.ready == q.appended == 0 && q.delivered == [] && !q.missingZwx
    ensures BoardInv.Conforms(c, q, BoardInv.Append(midstate, tail, ONE_TAKEN))
    ensures var (t, taken) := Board.QueueAppend(c, q, midstate, tail, ONE_TAKEN); taken && t.delivered == [0]
  {
    var q' := Board.AfterAppend(c, q, midstate, tail);
    assert q'.ready == 1 && q'.queued == 0 && |q'.list| == 1 && q'.list[0].serial == 0 && q'.delivered == [] && !q'.missingZwx;
    FirstSend(c, q');
    hide Board.SendQueue, Board.SendDefined, BoardInv.SendConforms, Board.AfterAppend;
  }

  lemma ExecNext(c: Board.Config, run: Run, e: Event)
    requires Exec(c, run).Some?
    ensures var s := Exec(c, run).value;
      Exec(c, Then(run, e)) == if Possible(c, s, e) then Some(Step(c, s, e)) else None
  {
    hide Possible, Step;
  }

  /** The first work that is fetched reaches a board that has room for it and takes it. */
  lemma FirstWorkReachesDevice(c: Board.Config, midstate: seq<byte>, tail: seq<byte>)
    requires c.maxAtOnce > 0 && c.queuedMax > 0
    ensures var s := Exec(c, Then(Empty, OfferWork(Prepared, midstate, tail, ONE_TAKEN)));
      s.Some? && s.value.board.delivered == [0] && s.value.loop.taken == Entry(Nothing, 0) && s.value.loop.fetched == 1
  {
    var s := START;
    FirstOffer(c, s, midstate, tail);
    assert Exec(c, Empty) == Some(s);
    ExecNext(c, Empty, OfferWork(Prepared, midstate, tail, ONE_TAKEN));
    hide Exec, Possible, Step;
  }

  lemma FirstOffer(c: Board.Config, s: System, midstate: seq<byte>, tail: seq<byte>)
    requires c.maxAtOnce > 0 && c.queuedMax > 0
    requires s.loop.parked == Null && s.loop.fetched == 0 && s.loop.taken == Nothing && !s.board.queueFull
    requires s.board.list == [] && s.board.queued == s.board.ready == s.board.appended == 0
    requires s.board.delivered == [] && !s.board.missingZwx
    ensures var e := OfferWork(Prepared, midstate, tail, ONE_TAKEN);
      Possible(c, s, e) && Step(c, s, e).board.delivered == [0] && Step(c, s, e).loop.taken == Entry(Nothing, 0) &&
      Step(c, s, e).loop.fetched == 1
  {
    FirstAppend(c, s.board, midstate, tail);
    hide Board.QueueAppend, BoardInv.Conforms;
    var e := OfferWork(Prepared, midstate, tail, ONE_TAKEN);
    assert Loop.NextWork(s.loop, Prepared) == (s.loop.(fetched := 1), WorkPtr.Work(0));
    assert AsAppend(e) == BoardInv.Append(midstate, tail, ONE_TAKEN);
  }

  /** A processor can always be disabled and enabled again; its works stay where they are. */
  lemma DisabledAndEnabled(c: Board.Config, run: Run, enabled: bool)
    requires Exec(c, run).Some?
    ensures var s, t := Exec(c, run).value, Exec(c, Then(run, SetEnabled(enabled)));
      t.Some? && t.value.loop == s.loop.(enabled := enabled) && t.value.board == s.board
  {
    ExecNext(c, run, SetEnabled(enabled));
    hide Exec, BoardInv.Conforms, BoardInv.Apply, Board.QueueAppend;
  }
}
