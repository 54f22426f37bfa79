/**
 The BitForce queue driver itself: the fields of struct bitforce_data and thr_info that the queue uses,
 updated in place.  Each method is proved to do what the function of the same name in BitForceQueue says.
 */
module BitForceDriver {
  import opened Bytes
  import opened BitForceFlush
  import Spec = BitForceQueue
  import opened BitForceQueue

  class Board {
    const c: Config
    var workList: seq<Work>
    var queued: int
    var readyToQueue: int
    var queueFull: bool
    var wantToSendQueue: bool
    var justFlushed: bool
    var missingZwx: bool
    var appended: nat  // numbers the works; stands for their addresses
    ghost var freed: seq<Work>
    ghost var delivered: seq<nat>

    ghost function View(): Queue
      reads this
    {
      Queue(workList, queued, readyToQueue, queueFull, wantToSendQueue, justFlushed, missingZwx, appended, freed, delivered)
    }

    constructor (c: Config)
      ensures this.c == c && View() == Queue([], 0, 0, false, false, false, false, 0, [], [])
    {
      this.c := c;
      workList, queued, readyToQueue := [], 0, 0;
      queueFull, wantToSendQueue, justFlushed, missingZwx := false, false, false, false;
      appended, freed, delivered := 0, [], [];
    }

    method SetQueueFull()
      modifies this
      ensures View() == Spec.SetQueueFull(c, old(View()))
    {
      queueFull := queued + readyToQueue >= c.queuedMax || readyToQueue >= c.maxAtOnce;
    }

    /** Walks forward from a work, giving each the next id of the reply. */
    method AssignQueueIds(start: int, ids: seq<nat>)
      requires 0 <= start && start + readyToQueue <= |workList|
      modifies this`workList
      ensures workList == AssignIds(old(workList), start, readyToQueue, ids)
    {
      var pos, p := start, 0;
      var i := readyToQueue;
      while i > 0
        invariant p == readyToQueue - i && pos == start + p && 0 <= p && (i >= 0 || p == 0)
        invariant workList == AssignIds(old(workList), start, p, ids)
        decreases i
      {
        var id := if p < |ids| then ids[p] else 0;
        workList := workList[pos := workList[pos].(deviceId := id)];
        i, pos, p := i - 1, pos + 1, p + 1;
        assert workList == AssignIds(old(workList), start, p, ids);
      }
    }

    method SendQueue(input: SendInput) returns (ok: bool)
      requires SendDefined(c, View(), input)
      modifies this
      ensures (View(), ok) == Spec.SendQueue(c, old(View()), input)
    {
      if !(input.isOpen && readyToQueue != 0) {
        return false;
      }
      var reply := input.first;
      if reply.UnknownCommand? && !missingZwx {
        missingZwx := true;
        reply := input.second;
      }
      if reply.DeviceFull? {
        queueFull := true;
        return false;
      }
      if !reply.Queued? {
        return false;
      }
      var queuedOk := 1;
      ghost var offered := workList;
      if !missingZwx {
        queuedOk := reply.count;
        if c.byId && reply.ids != [] {
          var work := if readyToQueue < |workList| then |workList| - readyToQueue else |workList| - 1;
          AssignQueueIds(work, reply.ids);
        }
      }
      delivered := delivered + Serials(Slice(offered, queued, queued + queuedOk));
      queued := queued + queuedOk;
      readyToQueue := readyToQueue - queuedOk;
      if !missingZwx {
        queueFull := readyToQueue != 0;
      }
      justFlushed := false;
      wantToSendQueue := false;
      return true;
    }

    method QueueAppend(midstate: seq<byte>, tail: seq<byte>, input: SendInput) returns (rv: bool)
      requires 0 <= readyToQueue && AppendDefined(c, View(), midstate, tail, input)
      modifies this
      ensures (View(), rv) == Spec.QueueAppend(c, old(View()), midstate, tail, input)
    {
      SetQueueFull();
      rv := !queueFull;
      if rv {
        workList := workList + [Work(appended, midstate, tail, 0)];
        appended := appended + 1;
        readyToQueue := readyToQueue + 1;
        SetQueueFull();
      } else if readyToQueue == 0 {
        return;
      }
      var ndq := queued == 0;
      if ndq || readyToQueue >= c.maxAtOnce || queueFull || justFlushed || missingZwx {
        TrySend(input);
      }
    }

    method TrySend(input: SendInput)
      requires SendDefined(c, View(), input)
      modifies this
      ensures View() == Spec.TrySend(c, old(View()), input)
    {
      var ok := SendQueue(input);
      if !ok {
        wantToSendQueue := true;
      }
    }

    method SearchWork(key: JobKey) returns (i: nat)
      ensures i == Find(c.byId, workList, key)
    {
      i := 0;
      while i < |workList|
        invariant i <= |workList|
        invariant forall j | 0 <= j < i :: KeyOf(c.byId, workList[j]) != key
      {
        if KeyOf(c.byId, workList[i]) == key {
          FindIs(workList, key, i);
          return;
        }
        i := i + 1;
      }
      FindIs(workList, key, i);
    }

    lemma {:induction false} FindIs(works: seq<Work>, key: JobKey, i: nat)
      requires i <= |works| && (i < |works| ==> KeyOf(c.byId, works[i]) == key)
      requires forall j | 0 <= j < i :: KeyOf(c.byId, works[j]) != key
      ensures i == Find(c.byId, works, key)
    {
    }

    method ProcessLine(line: ResultLine)
      modifies this`workList, this`queued, this`freed
      ensures View() == Spec.ProcessLine(c, old(View()), line)
    {
      if line.Gibberish? {
        return;
      }
      var thiswork := SearchWork(line.key);
      if thiswork == |workList| {
        return;
      }
      if c.parallel == 1 {
        DeleteUpTo(thiswork);
      } else {
        freed := freed + [workList[thiswork]];
        workList := workList[..thiswork] + workList[thiswork + 1..];
        queued := queued - 1;
      }
    }

    /** Results of a board with one processor are in order: all works up to this one go. */
    method DeleteUpTo(thiswork: nat)
      requires thiswork < |workList|
      modifies this`workList, this`queued, this`freed
      ensures workList == old(workList)[thiswork + 1..] && queued == old(queued) - (thiswork + 1)
      ensures freed == old(freed) + old(workList)[..thiswork + 1]
    {
      var n := 0;
      ghost var was := workList;
      while n <= thiswork
        invariant 0 <= n <= thiswork + 1 <= |was|
        invariant workList == was[n..] && queued == old(queued) - n && freed == old(freed) + was[..n]
      {
        assert was[..n + 1] == was[..n] + [was[n]];
        freed := freed + [workList[0]];
        workList := workList[1..];
        queued := queued - 1;
        n := n + 1;
      }
    }

    method ProcessLines(lines: seq<ResultLine>)
      modifies this
      ensures View() == Spec.ProcessLines(c, old(View()), lines)
    {
      for i := 0 to |lines|
        invariant View() == Spec.ProcessLines(c, old(View()), lines[..i])
      {
        ProcessLine(lines[i]);
        assert lines[..i + 1][..i] == lines[..i];
      }
      assert lines[..|lines|] == lines;
    }

    method QueueDoResults(isOpen: bool, batches: seq<ResultBatch>) returns (ret: bool)
      modifies this
      ensures (View(), ret) == Spec.QueueDoResults(c, old(View()), isOpen, batches)
    {
      if !isOpen {
        return false;
      }
      var i := 0;
      while true
        invariant 0 <= i <= |batches|
        invariant Spec.QueueDoResults(c, View(), isOpen, batches[i..]) == Spec.QueueDoResults(c, old(View()), isOpen, batches)
        decreases |batches| - i
      {
        if i == |batches| || batches[i].NoAnswer? {
          return false;
        }
        if batches[i].count == 0 {
          return true;
        }
        ProcessLines(batches[i].lines);
        SetQueueFull();
        assert batches[i..][1..] == batches[i + 1..];
        if batches[i].count < MAX_QRESULTS {
          return true;
        }
        i := i + 1;
      }
    }

    method DeleteLastWorks(n: nat)
      requires n <= |workList|
      modifies this`workList, this`freed
      ensures View() == DeleteLast(old(View()), n)
    {
      var left := n;
      ghost var was := workList;
      while left > 0
        invariant 0 <= left <= n && workList == was[..|was| - (n - left)]
        invariant freed == old(freed)
      {
        workList := workList[..|workList| - 1];
        left := left - 1;
      }
      freed := freed + was[|was| - n..];
    }

    method FinishFlush(flushed: int)
      modifies this
      ensures View() == Spec.FinishFlush(c, old(View()), flushed)
    {
      queued := queued - flushed;
      SetQueueFull();
      justFlushed := true;
      wantToSendQueue := false;
      readyToQueue := 0;
    }

    /** Goes through the list once and takes out what the table does not keep. */
    method SanityCheck(processing: Table)
      modifies this`workList, this`queued, this`freed
      ensures View() == Spec.SanityCheck(c, old(View()), processing)
    {
      var t := processing;
      var pos := 0;
      ghost var was := workList;
      ghost var k := 0;
      ghost var r := Reconciled([], [], [], processing);
      while pos < |workList|
        invariant 0 <= k <= |was| && r == Reconcile(c.byId, was[..k], processing) && t == r.table
        invariant pos == |r.kept| <= |workList| && workList[..pos] == r.kept && workList[pos..] == was[k..]
        invariant queued == old(queued) - |r.missing| && freed == old(freed)
        decreases |workList| - pos
      {
        var work := workList[pos];
        var key := KeyOf(c.byId, work);
        assert was[..k + 1][..k] == was[..k] && work == was[k..][0];
        assert was[k..][1..] == was[k + 1..] && workList[pos..][1..] == workList[pos + 1..];
        r := ReconcileOne(c.byId, r, work);
        k := k + 1;
        if key !in t {
          RemoveWork(pos);
          queued := queued - 1;
        } else if t[key].instances > 0 {
          t := TakeInstance(t, key);
          pos := pos + 1;
        } else {
          t := TakeInstance(t, key);
          RemoveWork(pos);
        }
      }
      assert was[..k] == was && workList == workList[..pos];
      freed := freed + r.flushed + r.missing;
    }

    /** DL_DELETE. */
    method RemoveWork(pos: nat)
      requires pos < |workList|
      modifies this`workList
      ensures |workList| == old(|workList|) - 1
      ensures workList[..pos] == old(workList[..pos]) && workList[pos..] == old(workList[pos + 1..])
    {
      workList := workList[..pos] + workList[pos + 1..];
    }

    method BuildTable(keys: seq<JobKey>, inProgress: nat) returns (t: Table)
      ensures t == TableFrom(keys, inProgress)
    {
      t := map[];
      var i := |keys|;
      while i > 0
        invariant 0 <= i <= |keys|
        invariant t == TableFrom(keys[i..], if inProgress > i then inProgress - i else 0)
      {
        i := i - 1;
        assert keys[i..][1..] == keys[i + 1..];
        t := AddToProcessing(t, keys[i], !(i < inProgress));
      }
      assert keys[0..] == keys;
    }

    method ProcessFlbResult(inProgress: nat, ids: seq<nat>)
      modifies this
      ensures View() == Spec.ProcessFlbResult(c, old(View()), inProgress, ids)
    {
      var keys := QueueIds(ids);
      var flushed := if |ids| < inProgress then 0 else |ids| - inProgress;
      var processing := BuildTable(keys, inProgress);
      SanityCheck(processing);
      FinishFlush(flushed);
    }

    /** Takes off the list as many sent works as the device says it flushed. */
    method DeleteFlushed(reply: FlushReply)
      requires 0 <= queued <= |workList|
      modifies this
      ensures var n := FlushCount(old(View()), reply);
              View() == Spec.FinishFlush(c, DeleteLast(old(View()), n), n)
    {
      var flushed := 0;
      match reply {
        case FlushedCount(n) => flushed := n % TWO_TO_THE_32;
        case TextReport(_, n, _) => flushed := n % TWO_TO_THE_32;
        case Acknowledged => queueFull := false;
        case _ =>
      }
      if flushed > queued {
        flushed := queued;
      }
      DeleteLastWorks(flushed);
      FinishFlush(flushed);
    }

    method FlushUncorrected(reply: FlushReply, isOpen: bool, batches: seq<ResultBatch>)
      requires Counted(View())
      modifies this
      ensures View() == Spec.FlushUncorrected(c, old(View()), reply, isOpen, batches)
    {
      DeleteLastWorks(readyToQueue);
      if reply.BinaryReport? {
        ProcessFlbResult(reply.inProgress, reply.ids);
        return;
      }
      DeleteFlushed(reply);
      var _ := QueueDoResults(isOpen, batches);
      if reply.TextReport? {
        var processing := BuildTable(reply.keys, |reply.keys|);
        SanityCheck(processing);
      }
    }

    method QueueFlush(handlesBoard: bool, reply: FlushReply, isOpen: bool, batches: seq<ResultBatch>)
      requires Counted(View())
      modifies this
      ensures View() == Spec.QueueFlush(c, old(View()), handlesBoard, reply, isOpen, batches)
    {
      if !handlesBoard {
        return;
      }
      var inproc := ReportedInProgress(reply);
      FlushUncorrected(reply, isOpen, batches);
      if c.is28nm && inproc != -1 && inproc != queued {
        queued := inproc;
      }
    }

    method Reinit()
      modifies this
      ensures View() == Spec.Reinit(old(View()))
    {
      freed := freed + workList;
      workList := [];
      queued := 0;
      readyToQueue := 0;
      justFlushed := true;
      queueFull := false;
    }

    method Poll(isOpen: bool, batches: seq<ResultBatch>, input: SendInput)
      requires var q' := if queued != 0 then Spec.QueueDoResults(c, View(), isOpen, batches).0 else View();
               q'.wantToSend ==> SendDefined(c, q', input)
      modifies this
      ensures View() == Spec.Poll(c, old(View()), isOpen, batches, input)
    {
      if queued != 0 {
        var _ := QueueDoResults(isOpen, batches);
      }
      if wantToSendQueue {
        var _ := SendQueue(input);
      }
    }
  }
}
