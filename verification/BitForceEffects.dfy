/**
 What the operations of the BitForce queue driver achieve.  BitForceInvariant says what all of them keep; a driver
 that never sent a job, or removed another work than the one reported, would keep it too.
 */
module BitForceEffects {
  import opened Bytes
  import opened BitForceFlush
  import opened BitForceQueue
  import opened BitForceInvariant

  // ----- sending -----

  /** The n-th id of a reply; ids that the reply does not have read as 0. */
  function IdOf(ids: seq<nat>, n: nat): nat {
    if n < |ids| then ids[n] else 0
  }

  /** Each work that was offered gets its own id, in list order; the works sent before keep theirs. */
  lemma SendGivesIds(c: Config, q: Queue, input: SendInput)
    requires Inv(c, q) && SendDefined(c, q, input) && input.isOpen && q.ready > 0
    requires c.byId && !q.missingZwx && input.first.Queued? && input.first.ids != []
    ensures var t := SendQueue(c, q, input).0;
      |t.list| == |q.list| &&
      (forall i | 0 <= i < q.queued :: t.list[i] == q.list[i]) &&
      (forall i | q.queued <= i < |q.list| :: t.list[i] == q.list[i].(deviceId := IdOf(input.first.ids, i - q.queued)))
  {
    IdWalkExact(c, q);
  }

  /** Without ids in the reply, or on a board that has none, the works stay as they are. */
  lemma SendKeepsWorks(c: Config, q: Queue, input: SendInput)
    requires SendDefined(c, q, input)
    requires !c.byId || q.missingZwx || !input.first.Queued? || input.first.ids == []
    ensures SendQueue(c, q, input).0.list == q.list
  {
  }

  /** The device takes `count` of the jobs offered: the boundary moves by as many, what was put off or flushed before
      is forgotten, and the queue counts as full exactly when the device did not take all. */
  lemma DeviceTakes(c: Config, q: Queue, input: SendInput, count: nat)
    requires Inv(c, q) && SendDefined(c, q, input) && input.isOpen && !q.missingZwx
    requires input.first.Queued? && input.first.count == count <= q.ready && q.ready > 0
    ensures var (t, ok) := SendQueue(c, q, input);
      ok && t.queued == q.queued + count && t.ready == q.ready - count && (t.queueFull <==> count < q.ready) &&
      !t.justFlushed && !t.wantToSend && !t.missingZwx && t.freed == q.freed &&
      t.delivered == q.delivered + Serials(q.list[q.queued..q.queued + count])
  {
  }

  /** A device that does not know the bulk command gets one job at a time, now and from then on. */
  lemma FallsBackToOne(c: Config, q: Queue, input: SendInput)
    requires Inv(c, q) && SendDefined(c, q, input) && input.isOpen && q.ready > 0
    requires if q.missingZwx then input.first.Queued? else input.first.UnknownCommand? && input.second.Queued?
    ensures var (t, ok) := SendQueue(c, q, input);
      ok && t.missingZwx && t.queued == q.queued + 1 && t.ready == q.ready - 1 && t.list == q.list &&
      t.queueFull == q.queueFull && !t.justFlushed && !t.wantToSend && t.delivered == q.delivered + [q.list[q.queued].serial]
  {
    var one := Slice(q.list, q.queued, q.queued + 1);
    assert one == [q.list[q.queued]] && Serials(one) == [q.list[q.queued].serial];
  }

  /** When nothing is sent, no work and no counter changes; a device that says it is full is believed. */
  lemma NothingSent(c: Config, q: Queue, input: SendInput)
    requires SendDefined(c, q, input)
    requires !input.isOpen || q.ready == 0 || !Deciding(q, input).1.Queued?
    ensures var (t, ok) := SendQueue(c, q, input);
      !ok && t.list == q.list && t.queued == q.queued && t.ready == q.ready && t.freed == q.freed && t.delivered == q.delivered &&
      t.wantToSend == q.wantToSend && t.justFlushed == q.justFlushed &&
      (t.queueFull <==> q.queueFull || (input.isOpen && q.ready != 0 && Deciding(q, input).1.DeviceFull?)) &&
      (t.missingZwx <==> q.missingZwx || (input.isOpen && q.ready != 0 && input.first.UnknownCommand?))
  {
  }

  // ----- appending -----

  predicate HasRoom(c: Config, q: Queue) {
    q.queued + q.ready < c.queuedMax && q.ready < c.maxAtOnce
  }

  /** After this append the device would be idle, or there are enough works for a packet, or there is no more room, or
      there is no point in waiting. */
  predicate TimeToSend(c: Config, q: Queue) {
    q.queued == 0 || q.ready + 1 >= c.maxAtOnce || q.queued + q.ready + 1 >= c.queuedMax || q.justFlushed || q.missingZwx
  }

  /** A work for which there is room goes to the end of the list.  It waits there for others ... */
  lemma AppendWaits(c: Config, q: Queue, m: seq<byte>, d: seq<byte>, input: SendInput)
    requires Inv(c, q) && AppendDefined(c, q, m, d, input) && HasRoom(c, q) && !TimeToSend(c, q)
    ensures var (t, taken) := QueueAppend(c, q, m, d, input);
      taken && t.list == q.list + [Work(q.appended, m, d, 0)] && t.queued == q.queued && t.ready == q.ready + 1 &&
      t.delivered == q.delivered && !t.queueFull && t.wantToSend == q.wantToSend
  {
  }

  /** ... or it is time to send, and the device is offered all that is ready. */
  lemma AppendSends(c: Config, q: Queue, m: seq<byte>, d: seq<byte>, input: SendInput, count: nat)
    requires Inv(c, q) && AppendDefined(c, q, m, d, input) && HasRoom(c, q) && TimeToSend(c, q) && !q.missingZwx
    requires input.isOpen && input.first.Queued? && input.first.count == count <= q.ready + 1
    ensures var (t, taken) := QueueAppend(c, q, m, d, input);
      taken && t.queued == q.queued + count && t.ready == q.ready + 1 - count && |t.list| == |q.list| + 1 &&
      Serials(t.list) == Serials(q.list) + [q.appended] && !t.wantToSend && !t.justFlushed
  {
    var q' := AfterAppend(c, q, m, d);
    AppendWorkKeepsInv(c, q, m, d);
    assert WantsToSendNow(c, q');
    hide AssignIds;
    DeviceTakes(c, q', input, count);
    assert Serials(q'.list) == Serials(q.list) + [q.appended];
  }

  /** A send that fails is to be tried again; the work is on the list all the same. */
  lemma FailedSendIsWanted(c: Config, q: Queue, m: seq<byte>, d: seq<byte>, input: SendInput)
    requires Inv(c, q) && AppendDefined(c, q, m, d, input) && HasRoom(c, q) && TimeToSend(c, q) && !input.isOpen
    ensures var (t, taken) := QueueAppend(c, q, m, d, input);
      taken && t.wantToSend && t.list == q.list + [Work(q.appended, m, d, 0)] && t.ready == q.ready + 1 && t.queued == q.queued
  {
  }

  /** A work for which there is no room is refused; the works that are ready are offered to the device instead. */
  lemma AppendRefuses(c: Config, q: Queue, m: seq<byte>, d: seq<byte>, input: SendInput)
    requires Inv(c, q) && AppendDefined(c, q, m, d, input) && !HasRoom(c, q)
    ensures var (t, taken) := QueueAppend(c, q, m, d, input);
      !taken && Serials(t.list) == Serials(q.list) && t.appended == q.appended && t.freed == q.freed &&
      (q.ready == 0 ==> t.queueFull && t.list == q.list && t.queued == q.queued && t.wantToSend == q.wantToSend) &&
      (q.ready > 0 && !input.isOpen ==> t.wantToSend)
    ensures q.ready > 0 && input.isOpen && !q.missingZwx && input.first.Queued? && 0 <= input.first.count <= q.ready ==>
      QueueAppend(c, q, m, d, input).0.queued == q.queued + input.first.count
  {
    var full := SetQueueFull(c, q);
    assert AfterAppend(c, q, m, d) == full && full.queueFull;
    hide AssignIds;
  }

  // ----- results -----

  /** A result removes the first work it is about: alone, or on a board that reports in order together with all the
      works before it.  What it removes is freed. */
  lemma LineRemovesReported(c: Config, q: Queue, key: JobKey, i: nat)
    requires i < |q.list| && KeyOf(c.byId, q.list[i]) == key && forall j | 0 <= j < i :: KeyOf(c.byId, q.list[j]) != key
    ensures var t := ProcessLine(c, q, Line(key));
      t.ready == q.ready &&
      if c.parallel == 1 then
        t.list == q.list[i + 1..] && t.queued == q.queued - (i + 1) && t.freed == q.freed + q.list[..i + 1]
      else
        t.list == q.list[..i] + q.list[i + 1..] && t.queued == q.queued - 1 && t.freed == q.freed + [q.list[i]]
  {
    assert Find(c.byId, q.list, key) == i;
  }

  /** A board without ids names a job by the midstate and the end of the data that were sent ... */
  lemma HeaderNamesJob(c: Config, q: Queue, midstate: seq<byte>, tail: seq<byte>, i: nat)
    requires !c.byId && c.parallel != 1 && i < |q.list| && q.list[i].midstate == midstate && q.list[i].tail == tail
    requires forall j | 0 <= j < i :: q.list[j].midstate != midstate || q.list[j].tail != tail
    ensures ProcessLine(c, q, Line(Header(midstate, tail))).list == q.list[..i] + q.list[i + 1..]
    ensures forall id :: ProcessLine(c, q, Line(QueueId(id))) == q
  {
    LineRemovesReported(c, q, Header(midstate, tail), i);
    forall id ensures ProcessLine(c, q, Line(QueueId(id))) == q {
      OtherLinesChangeNothing(c, q, QueueId(id));
    }
  }

  /** ... and one with ids by the id that it gave out, whatever the data. */
  lemma IdNamesJob(c: Config, q: Queue, id: nat, i: nat)
    requires c.byId && c.parallel != 1 && i < |q.list| && q.list[i].deviceId == id
    requires forall j | 0 <= j < i :: q.list[j].deviceId != id
    ensures ProcessLine(c, q, Line(QueueId(id))).list == q.list[..i] + q.list[i + 1..]
  {
    LineRemovesReported(c, q, QueueId(id), i);
  }

  /** A result about no work on the list, or one that cannot be read, changes nothing. */
  lemma OtherLinesChangeNothing(c: Config, q: Queue, key: JobKey)
    requires forall i | 0 <= i < |q.list| :: KeyOf(c.byId, q.list[i]) != key
    ensures ProcessLine(c, q, Line(key)) == q && ProcessLine(c, q, Gibberish) == q
  {
    var i := Find(c.byId, q.list, key);
    assert i == |q.list|;
  }

  /** How many works on a list have a key. */
  function KeyTimes(byId: bool, works: seq<Work>, key: JobKey): nat {
    if works == [] then 0
    else (if KeyOf(byId, works[0]) == key then 1 else 0) + KeyTimes(byId, works[1..], key)
  }

  /** How many lines of a batch are about a key. */
  function Reports(lines: seq<ResultLine>, key: JobKey): nat {
    if lines == [] then 0
    else Reports(lines[..|lines| - 1], key) + if lines[|lines| - 1] == Line(key) then 1 else 0
  }

  lemma {:induction false} KeyTimesConcat(byId: bool, a: seq<Work>, b: seq<Work>, key: JobKey)
    ensures KeyTimes(byId, a + b, key) == KeyTimes(byId, a, key) + KeyTimes(byId, b, key)
  {
    if a == [] {
      assert a + b == b;
    } else {
      assert (a + b)[1..] == a[1..] + b;
      KeyTimesConcat(byId, a[1..], b, key);
    }
  }

  lemma {:induction false} NoneHasTheKey(byId: bool, works: seq<Work>, key: JobKey)
    requires forall i | 0 <= i < |works| :: KeyOf(byId, works[i]) != key
    ensures KeyTimes(byId, works, key) == 0
  {
    if works != [] {
      NoneHasTheKey(byId, works[1..], key);
    }
  }

  lemma {:induction false} CutOneKey(byId: bool, works: seq<Work>, i: nat, key: JobKey)
    requires i < |works|
    ensures KeyTimes(byId, works, key)
         == KeyTimes(byId, works[..i] + works[i + 1..], key) + if KeyOf(byId, works[i]) == key then 1 else 0
  {
    assert works == works[..i] + works[i..] && works[i..][1..] == works[i + 1..];
    KeyTimesConcat(byId, works[..i], works[i..], key);
    KeyTimesConcat(byId, works[..i], works[i + 1..], key);
  }

  lemma {:induction false} LineCounts(c: Config, q: Queue, line: ResultLine, key: JobKey)
    requires c.parallel != 1
    ensures var before, after := KeyTimes(c.byId, q.list, key), KeyTimes(c.byId, ProcessLine(c, q, line).list, key);
      after == if line == Line(key) && before > 0 then before - 1 else before
    ensures |ProcessLine(c, q, line).list| - ProcessLine(c, q, line).queued == |q.list| - q.queued
  {
    hide KeyTimes, Find;
    if line.Line? {
      var i := Find(c.byId, q.list, line.key);
      if i < |q.list| {
        CutOneKey(c.byId, q.list, i, key);
      } else {
        NoneHasTheKey(c.byId, q.list, line.key);
      }
    }
  }

  /** On a board whose results may come in any order, each line of a batch takes one work with its key as long as there
      is one, and the count of sent works follows: what is left has each key as often as it was not reported. */
  lemma {:induction false} EveryLineCounts(c: Config, q: Queue, lines: seq<ResultLine>, key: JobKey)
    requires c.parallel != 1
    ensures var t := ProcessLines(c, q, lines);
      var before, reported := KeyTimes(c.byId, q.list, key), Reports(lines, key);
      KeyTimes(c.byId, t.list, key) == (if reported < before then before - reported else 0) &&
      |t.list| - t.queued == |q.list| - q.queued
  {
    hide ProcessLine, KeyTimes;
    if lines != [] {
      var earlier := lines[..|lines| - 1];
      EveryLineCounts(c, q, earlier, key);
      LineCounts(c, ProcessLines(c, q, earlier), lines[|lines| - 1], key);
    }
  }

  /** Results are asked for again after a full batch, and only then; afterwards the full flag is that of both bounds. */
  lemma {:induction false} BatchesGoOn(c: Config, q: Queue, first: ResultBatch, rest: seq<ResultBatch>)
    requires first.Batch? && first.count > 0
    ensures var t := QueueDoResults(c, q, true, [first] + rest).0;
      var once := ProcessLines(c, q, first.lines);
      if first.count < 16 || rest == [] || rest[0].NoAnswer? then
        t.list == once.list && t.queued == once.queued && t.ready == once.ready &&
        (t.queueFull <==> t.queued + t.ready >= c.queuedMax || t.ready >= c.maxAtOnce)
      else
        t.list == QueueDoResults(c, SetQueueFull(c, once), true, rest).0.list
  {
    assert ([first] + rest)[1..] == rest;
  }

  /** A board that cannot be asked, or has nothing, changes nothing. */
  lemma {:induction false} NoResults(c: Config, q: Queue, batches: seq<ResultBatch>)
    ensures QueueDoResults(c, q, false, batches).0 == q
    ensures batches == [] || batches[0].NoAnswer? || batches[0].count == 0 ==> QueueDoResults(c, q, true, batches).0 == q
  {
  }

  // ----- flushing -----

  /** The number of jobs that stay on the list when the device says it flushed n. */
  function Left(q: Queue, n: nat): int {
    if n <= q.queued then q.queued - n else 0
  }

  /** The number of jobs that the device says it flushed is the number of sent works that go, newest first, and no more
      than were sent; the unsent ones all go. */
  lemma FlushDeletesReported(c: Config, q: Queue, reply: FlushReply, n: nat)
    requires Inv(c, q) && n < TWO_TO_THE_32
    requires (reply.FlushedCount? || reply.TextReport?) && reply.flushed == n
    ensures var t := AfterDelete(c, q, reply);
      t.list == q.list[..Left(q, n)] && t.queued == |t.list| && t.ready == 0
  {
    AfterDeleteKeepsInv(c, q, reply);
  }

  /** Without a number only the unsent works go. */
  lemma FlushWithoutCount(c: Config, q: Queue, reply: FlushReply)
    requires Inv(c, q) && (reply.Acknowledged? || reply.Refused?)
    ensures var t := AfterDelete(c, q, reply);
      t.list == q.list[..q.queued] && t.queued == q.queued && t.ready == 0
  {
    AfterDeleteKeepsInv(c, q, reply);
  }

  /** A whole flush with a count, when no result comes in meanwhile. */
  lemma CountedFlush(c: Config, q: Queue, n: nat)
    requires Inv(c, q) && n < TWO_TO_THE_32
    ensures var t := QueueFlush(c, q, true, FlushedCount(n), true, []);
      t.list == q.list[..Left(q, n)] && t.queued == |t.list| && t.ready == 0 && t.justFlushed && !t.wantToSend &&
      t.freed == q.freed + q.list[q.queued..] + q.list[Left(q, n)..q.queued]
  {
    FlushDeletesReported(c, q, FlushedCount(n), n);
    FlushFlags(c, q, FlushedCount(n));
    FlushFrees(c, q, n);
    CountedFlushIsDeletion(c, q, n);
    hide QueueFlush, AfterDelete, Inv;
  }

  lemma CountedFlushIsDeletion(c: Config, q: Queue, n: nat)
    requires Counted(q)
    ensures QueueFlush(c, q, true, FlushedCount(n), true, []) == AfterDelete(c, q, FlushedCount(n))
  {
    hide AfterDelete;
  }

  lemma FlushFrees(c: Config, q: Queue, n: nat)
    requires Counted(q) && n < TWO_TO_THE_32
    ensures AfterDelete(c, q, FlushedCount(n)).freed == q.freed + q.list[q.queued..] + q.list[Left(q, n)..q.queued]
  {
    var unsent := DeleteLast(q, q.ready);
    assert unsent.list == q.list[..q.queued];
    assert q.list[..q.queued][Left(q, n)..] == q.list[Left(q, n)..q.queued];
  }

  /** Only the processor that handles the board flushes it. */
  lemma OthersDoNotFlush(c: Config, q: Queue, reply: FlushReply, isOpen: bool, batches: seq<ResultBatch>)
    requires Counted(q)
    ensures QueueFlush(c, q, false, reply, isOpen, batches) == q
  {
  }

  /** After the deletion the works that come next are to be sent at once, and a send that was put off is forgotten. The
      full flag is computed as if the unsent works were still there. */
  lemma FlushFlags(c: Config, q: Queue, reply: FlushReply)
    requires Inv(c, q)
    ensures var t := AfterDelete(c, q, reply);
      t.justFlushed && !t.wantToSend && (t.queueFull <==> t.queued + q.ready >= c.queuedMax || q.ready >= c.maxAtOnce)
  {
    AfterDeleteKeepsInv(c, q, reply);
  }

  /** The same for a binary report. */
  lemma BinaryFlushFlags(c: Config, q: Queue, n: nat, ids: seq<nat>, isOpen: bool, batches: seq<ResultBatch>)
    requires Inv(c, q)
    ensures var t := QueueFlush(c, q, true, BinaryReport(n, ids), isOpen, batches);
      t.justFlushed && !t.wantToSend && t.ready == 0
  {
    hide Reconcile, TableFrom;
  }

  /** After a flush the next work is sent as soon as it is appended. */
  lemma SentAfterFlush(c: Config, q: Queue, n: nat, t: Queue, m: seq<byte>, d: seq<byte>, input: SendInput)
    requires Inv(c, q) && n < TWO_TO_THE_32 && t == QueueFlush(c, q, true, FlushedCount(n), true, [])
    requires AppendDefined(c, t, m, d, input) && HasRoom(c, t) && !t.missingZwx
    requires input.isOpen && input.first.Queued? && input.first.count == 1
    ensures var (u, taken) := QueueAppend(c, t, m, d, input);
      taken && u.ready == 0 && u.queued == t.queued + 1
  {
    CountedFlush(c, q, n);
    CountedFlushIsDeletion(c, q, n);
    AfterDeleteKeepsInv(c, q, FlushedCount(n));
    hide QueueFlush, AfterDelete;
    AppendSends(c, t, m, d, input, 1);
  }

  // ----- reinitialising and polling -----

  /** Reinitialisation frees the whole list, and the next work is sent at once. */
  lemma ReinitEmpties(c: Config, q: Queue)
    ensures var t := Reinit(q);
      t.list == [] && t.queued == t.ready == 0 && Serials(t.freed) == Serials(q.freed) + Serials(q.list) &&
      t.justFlushed && !t.queueFull && t.missingZwx == q.missingZwx
  {
  }

  /** A poll reads results only while something is on the device, and sends only what was put off. */
  lemma PollDoesNoMore(c: Config, q: Queue, isOpen: bool, batches: seq<ResultBatch>, input: SendInput)
    requires Inv(c, q) && q.queued == 0 && !q.wantToSend
    ensures Poll(c, q, isOpen, batches, input) == q
  {
  }

  lemma PollSendsWhatWasPutOff(c: Config, q: Queue, batches: seq<ResultBatch>, input: SendInput, count: nat)
    requires Inv(c, q) && q.queued == 0 && q.wantToSend && q.ready > 0 && !q.missingZwx && SendDefined(c, q, input)
    requires input.isOpen && input.first.Queued? && input.first.count == count <= q.ready
    ensures var t := Poll(c, q, true, batches, input);
      t.queued == count && t.ready == q.ready - count && !t.wantToSend
  {
    DeviceTakes(c, q, input, count);
  }

  lemma PollReadsResults(c: Config, q: Queue, key: JobKey, input: SendInput, i: nat)
    requires Inv(c, q) && c.parallel != 1 && i < q.queued && !q.wantToSend
    requires KeyOf(c.byId, q.list[i]) == key && forall j | 0 <= j < i :: KeyOf(c.byId, q.list[j]) != key
    ensures !AfterResults(c, q, true, [Batch(1, [Line(key)])]).wantToSend
    ensures Poll(c, q, true, [Batch(1, [Line(key)])], input).list == q.list[..i] + q.list[i + 1..]
  {
    LineRemovesReported(c, q, key, i);
    var lines := [Line(key)];
    assert lines[..0] == [] && ProcessLines(c, q, lines) == ProcessLine(c, ProcessLines(c, q, []), Line(key));
  }
}
