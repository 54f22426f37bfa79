/**
 The BitForce queue driver (driver-bitforce.c): one work list holds the jobs the device has accepted
 followed by the jobs still to be sent, and two counters are the only boundary between them.

 These functions are the specification of the driver's operations; BitForceDriver performs them in
 place.  Device replies are inputs.
 */
module BitForceQueue {
  import opened Bytes
  import opened BitForceFlush

  datatype Config = Config(queuedMax: int, maxAtOnce: int, parallel: int, byId: bool, is28nm: bool)

  /** The driver's state.  The last three fields are a ledger of what has happened to every work:
      how many were appended, which were freed, in no particular order, and which the device accepted,
      in the order it did. */
  datatype Queue = Queue(
    list: seq<Work>, queued: int, ready: int,
    queueFull: bool, wantToSend: bool, justFlushed: bool, missingZwx: bool,
    appended: nat, freed: seq<Work>, delivered: seq<nat>)

  function Serials(works: seq<Work>): (r: seq<nat>)
    ensures |r| == |works|
    ensures forall i | 0 <= i < |works| :: r[i] == works[i].serial
  {
    seq(|works|, i requires 0 <= i < |works| => works[i].serial)
  }

  /** How often a work is in a list. */
  function Occurs(works: seq<Work>, serial: nat): nat {
    if works == [] then 0
    else Occurs(works[..|works| - 1], serial) + if works[|works| - 1].serial == serial then 1 else 0
  }

  /** works[from..to], cut to what there is. */
  function Slice(works: seq<Work>, from: int, to: int): seq<Work> {
    if 0 <= from <= to <= |works| then works[from..to] else []
  }

  function SetQueueFull(c: Config, q: Queue): Queue {
    q.(queueFull := q.queued + q.ready >= c.queuedMax || q.ready >= c.maxAtOnce)
  }

  // ----- sending -----

  /** ids are the queue ids in the reply, [] when there are none. */
  datatype SendReply = DeviceFull | Queued(count: int, ids: seq<nat>) | UnknownCommand | OtherReply

  /** The second answer is to the ZNX command, which is tried when ZWX is unknown. */
  datatype SendInput = SendInput(isOpen: bool, first: SendReply, second: SendReply)

  /** Where the walk over the works that receive queue ids begins: behind the last work that was not
      put in the packet, or at the last work when there is none. */
  function FirstIdPosition(q: Queue): int {
    if q.ready < |q.list| then |q.list| - q.ready else |q.list| - 1
  }

  predicate IdWalkStaysOnList(q: Queue) {
    0 <= FirstIdPosition(q) && FirstIdPosition(q) + q.ready <= |q.list|
  }

  /** Ids that the reply does not have read as 0. */
  function AssignIds(works: seq<Work>, start: int, count: int, ids: seq<nat>): (r: seq<Work>)
    ensures |r| == |works|
    ensures Serials(r) == Serials(works)
  {
    seq(|works|, i requires 0 <= i < |works| =>
      if start <= i < start + count then works[i].(deviceId := if i - start < |ids| then ids[i - start] else 0)
      else works[i])
  }

  predicate GivesIds(c: Config, q: Queue, reply: SendReply) {
    reply.Queued? && !q.missingZwx && c.byId && reply.ids != []
  }

  function Accepted(q: Queue, reply: SendReply): int
    requires reply.Queued?
  {
    if q.missingZwx then 1 else reply.count
  }

  function Answer(c: Config, q: Queue, reply: SendReply): (Queue, bool)
    requires GivesIds(c, q, reply) ==> IdWalkStaysOnList(q)
  {
    match reply
    case DeviceFull => (q.(queueFull := true), false)
    case UnknownCommand => (q, false)
    case OtherReply => (q, false)
    case Queued(_, ids) =>
      var ok := Accepted(q, reply);
      var list := if GivesIds(c, q, reply) then AssignIds(q.list, FirstIdPosition(q), q.ready, ids) else q.list;
      (q.(list := list,
          queued := q.queued + ok,
          ready := q.ready - ok,
          queueFull := if q.missingZwx then q.queueFull else q.ready - ok != 0,
          justFlushed := false,
          wantToSend := false,
          delivered := q.delivered + Serials(Slice(q.list, q.queued, q.queued + ok))),
       true)
  }

  predicate FallsBack(q: Queue, input: SendInput) {
    input.isOpen && q.ready != 0 && input.first.UnknownCommand? && !q.missingZwx
  }

  /** The reply that decides, and the queue it is for. */
  function Deciding(q: Queue, input: SendInput): (Queue, SendReply) {
    if FallsBack(q, input) then (q.(missingZwx := true), input.second) else (q, input.first)
  }

  predicate SendDefined(c: Config, q: Queue, input: SendInput) {
    var (q', reply) := Deciding(q, input);
    input.isOpen && q.ready != 0 && GivesIds(c, q', reply) ==> IdWalkStaysOnList(q')
  }

  function SendQueue(c: Config, q: Queue, input: SendInput): (Queue, bool)
    requires SendDefined(c, q, input)
  {
    if !input.isOpen || q.ready == 0 then (q, false)
    else
      var (q', reply) := Deciding(q, input);
      Answer(c, q', reply)
  }

  // ----- appending -----

  function AppendWork(c: Config, q: Queue, midstate: seq<byte>, tail: seq<byte>): Queue {
    SetQueueFull(c, q.(list := q.list + [Work(q.appended, midstate, tail, 0)], ready := q.ready + 1, appended := q.appended + 1))
  }

  /** The queue when an append decides whether to send. */
  function AfterAppend(c: Config, q: Queue, midstate: seq<byte>, tail: seq<byte>): Queue {
    if SetQueueFull(c, q).queueFull then SetQueueFull(c, q) else AppendWork(c, q, midstate, tail)
  }

  predicate WantsToSendNow(c: Config, q: Queue) {
    q.ready > 0 && (q.queued == 0 || q.ready >= c.maxAtOnce || q.queueFull || q.justFlushed || q.missingZwx)
  }

  function TrySend(c: Config, q: Queue, input: SendInput): Queue
    requires SendDefined(c, q, input)
  {
    var (sent, ok) := SendQueue(c, q, input);
    if ok then sent else sent.(wantToSend := true)
  }

  predicate AppendDefined(c: Config, q: Queue, midstate: seq<byte>, tail: seq<byte>, input: SendInput) {
    WantsToSendNow(c, AfterAppend(c, q, midstate, tail)) ==> SendDefined(c, AfterAppend(c, q, midstate, tail), input)
  }

  /** The result says whether the work was taken; a work that was not stays with the caller. */
  function QueueAppend(c: Config, q: Queue, midstate: seq<byte>, tail: seq<byte>, input: SendInput): (Queue, bool)
    requires AppendDefined(c, q, midstate, tail, input)
  {
    var q' := AfterAppend(c, q, midstate, tail);
    (if WantsToSendNow(c, q') then TrySend(c, q', input) else q', !SetQueueFull(c, q).queueFull)
  }

  // ----- results -----

  /** A line of a queue result: unreadable, or about the job with the given key. */
  datatype ResultLine = Gibberish | Line(key: JobKey)

  datatype ResultBatch = NoAnswer | Batch(count: nat, lines: seq<ResultLine>)

  const MAX_QRESULTS := 16

  /** The position of the first work with the key, or the length of the list. */
  function Find(byId: bool, works: seq<Work>, key: JobKey): (i: nat)
    ensures i <= |works|
    ensures i < |works| ==> KeyOf(byId, works[i]) == key
    ensures forall j | 0 <= j < i :: KeyOf(byId, works[j]) != key
  {
    if works == [] then 0
    else if KeyOf(byId, works[0]) == key then 0
    else
      var rest := Find(byId, works[1..], key);
      assert forall j | 1 <= j < 1 + rest :: works[j] == works[1..][j - 1];
      1 + rest
  }

  /** A board with one processor reports in order, so everything up to the reported work goes. */
  function RemoveReported(c: Config, q: Queue, i: nat): Queue
    requires i < |q.list|
  {
    if c.parallel == 1 then
      q.(list := q.list[i + 1..], queued := q.queued - (i + 1), freed := q.freed + q.list[..i + 1])
    else
      q.(list := q.list[..i] + q.list[i + 1..], queued := q.queued - 1, freed := q.freed + [q.list[i]])
  }

  function ProcessLine(c: Config, q: Queue, line: ResultLine): Queue {
    match line
    case Gibberish => q
    case Line(key) =>
      var i := Find(c.byId, q.list, key);
      if i == |q.list| then q else RemoveReported(c, q, i)
  }

  function ProcessLines(c: Config, q: Queue, lines: seq<ResultLine>): Queue {
    if lines == [] then q
    else ProcessLine(c, ProcessLines(c, q, lines[..|lines| - 1]), lines[|lines| - 1])
  }

  /** Asks again as long as the device returns a full batch. */
  function QueueDoResults(c: Config, q: Queue, isOpen: bool, batches: seq<ResultBatch>): (Queue, bool)
    decreases |batches|
  {
    if !isOpen || batches == [] || batches[0].NoAnswer? then (q, false)
    else if batches[0].count == 0 then (q, true)
    else
      var q' := SetQueueFull(c, ProcessLines(c, q, batches[0].lines));
      if batches[0].count >= MAX_QRESULTS then QueueDoResults(c, q', isOpen, batches[1..]) else (q', true)
  }

  // ----- flushing -----

  function DeleteLast(q: Queue, n: nat): Queue
    requires n <= |q.list|
  {
    q.(list := q.list[..|q.list| - n], freed := q.freed + q.list[|q.list| - n..])
  }

  function FinishFlush(c: Config, q: Queue, flushed: int): Queue {
    SetQueueFull(c, q.(queued := q.queued - flushed)).(justFlushed := true, wantToSend := false, ready := 0)
  }

  function SanityCheck(c: Config, q: Queue, t: Table): Queue {
    var r := Reconcile(c.byId, q.list, t);
    q.(list := r.kept, queued := q.queued - |r.missing|,
       freed := q.freed + r.flushed + r.missing)
  }

  /** The table built from the end of a report: jobs in progress come first, flushed jobs after. */
  function TableFrom(keys: seq<JobKey>, inProgress: nat): Table {
    if keys == [] then map[]
    else AddToProcessing(TableFrom(keys[1..], if inProgress > 0 then inProgress - 1 else 0), keys[0], inProgress == 0)
  }

  function QueueIds(ids: seq<nat>): (r: seq<JobKey>)
    ensures |r| == |ids|
  {
    seq(|ids|, i requires 0 <= i < |ids| => QueueId(ids[i]))
  }

  /** A report lists the jobs in progress first; a short one counts as far as it goes. */
  function InProgressPart(keys: seq<JobKey>, inProgress: nat): seq<JobKey> {
    if |keys| < inProgress then keys else keys[..inProgress]
  }

  function FlushedPart(keys: seq<JobKey>, inProgress: nat): seq<JobKey> {
    if |keys| < inProgress then [] else keys[inProgress..]
  }

  function ProcessFlbResult(c: Config, q: Queue, inProgress: nat, ids: seq<nat>): Queue {
    var q' := SanityCheck(c, q, TableFrom(QueueIds(ids), inProgress));
    FinishFlush(c, q', |FlushedPart(QueueIds(ids), inProgress)|)
  }

  /**
   What the device answers to a flush: a count of flushed jobs; a report of jobs in progress with a
   count; a binary report of both; a bare acknowledgement; anything else.  `ids` are the ids that could
   be read, at most inproc + flushed of them.
   */
  datatype FlushReply =
    | FlushedCount(flushed: int)
    | TextReport(inproc: int, flushed: int, keys: seq<JobKey>)
    | BinaryReport(inProgress: nat, ids: seq<nat>)
    | Acknowledged
    | Refused


  /** The flush count as the driver uses it: an unsigned number, cut to the number of sent jobs. */
  function FlushCount(q: Queue, reply: FlushReply): (n: int)
    ensures q.queued >= 0 ==> 0 <= n <= q.queued
  {
    var n := if reply.FlushedCount? || reply.TextReport? then reply.flushed % TWO_TO_THE_32 else 0;
    if n > q.queued then q.queued else n
  }

  function ReportedInProgress(reply: FlushReply): int {
    match reply
    case TextReport(n, _, _) => n
    case BinaryReport(n, _) => n
    case _ => -1
  }

  predicate Counted(q: Queue) {
    0 <= q.ready && 0 <= q.queued && |q.list| == q.queued + q.ready
  }

  /** After the device's flushed jobs are gone from the list. */
  function AfterDelete(c: Config, q: Queue, reply: FlushReply): Queue
    requires Counted(q)
  {
    var unsent := DeleteLast(q, q.ready);
    var n := FlushCount(unsent, reply);
    FinishFlush(c, DeleteLast(unsent, n), n)
  }

  /** Everything a flush does before it compares its count with the device's. */
  function FlushUncorrected(c: Config, q: Queue, reply: FlushReply, isOpen: bool, batches: seq<ResultBatch>): Queue
    requires Counted(q)
  {
    if reply.BinaryReport? then ProcessFlbResult(c, DeleteLast(q, q.ready), reply.inProgress, reply.ids)
    else
      var q' := QueueDoResults(c, AfterDelete(c, q, reply), isOpen, batches).0;
      if reply.TextReport? then SanityCheck(c, q', TableFrom(reply.keys, |reply.keys|)) else q'
  }

  /** A 28nm board's own count of jobs in progress replaces the driver's. */
  function Corrected(c: Config, q: Queue, inproc: int): Queue {
    if c.is28nm && inproc != -1 && inproc != q.queued then q.(queued := inproc) else q
  }

  function QueueFlush(c: Config, q: Queue, handlesBoard: bool, reply: FlushReply, isOpen: bool, batches: seq<ResultBatch>): Queue
    requires Counted(q)
  {
    if !handlesBoard then q
    else Corrected(c, FlushUncorrected(c, q, reply, isOpen, batches), ReportedInProgress(reply))
  }

  function Reinit(q: Queue): Queue {
    q.(list := [], freed := q.freed + q.list, queued := 0, ready := 0, justFlushed := true, queueFull := false)
  }

  function Poll(c: Config, q: Queue, isOpen: bool, batches: seq<ResultBatch>, input: SendInput): Queue
    requires var q' := if q.queued != 0 then QueueDoResults(c, q, isOpen, batches).0 else q;
             q'.wantToSend ==> SendDefined(c, q', input)
  {
    var q' := if q.queued != 0 then QueueDoResults(c, q, isOpen, batches).0 else q;
    if q'.wantToSend then SendQueue(c, q', input).0 else q'
  }
}
