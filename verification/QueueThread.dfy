/**
 The queueing miner loop as the code runs it.  Each method does what the function of the same name in
 QueueLoop says.
 */
module QueueThread {
  import opened Works
  import opened QueueLoop

  class Thread {
    var nextWork: WorkPtr
    var queueFull: bool
    var enabled: bool
    var mtDisableCalled: bool
    var workRestart: bool
    var fetched: nat
    ghost var freed: Log
    ghost var taken: Log
    ghost var flushes: nat

    ghost function View(): State
      reads this
    {
      State(nextWork, queueFull, enabled, mtDisableCalled, workRestart, fetched, freed, taken, flushes)
    }

    method DoQueueFlush(full: bool)
      modifies this
      ensures View() == QueueLoop.DoQueueFlush(old(View()), full)
    {
      flushes := flushes + 1;
      queueFull := full;
      if nextWork.Work? {
        freed := Entry(freed, nextWork.id);
        nextWork := Null;
      }
    }

    method GetAndPrepareWork(fetch: Fetch) returns (w: WorkPtr)
      requires nextWork.Null?
      modifies this`fetched, this`freed, this`enabled
      ensures (View(), w) == NextWork(old(View()), fetch)
    {
      if fetch == NoWork {
        return Null;
      }
      w := Work(fetched);
      fetched := fetched + 1;
      if fetch == Unprepared {
        freed := Entry(freed, w.id);
        enabled := false;
        return Null;
      }
    }

    method Fill(offers: seq<Offer>)
      modifies this
      ensures View() == QueueLoop.Fill(old(View()), offers)
    {
      var i := 0;
      while i < |offers| && !queueFull
        invariant 0 <= i <= |offers|
        invariant QueueLoop.Fill(View(), offers[i..]) == QueueLoop.Fill(old(View()), offers)
      {
        var work;
        if nextWork.Work? {
          work := nextWork;
          nextWork := Null;
        } else {
          work := GetAndPrepareWork(offers[i].fetch);
        }
        if work.Null? {
          return;
        }
        queueFull := offers[i].full;
        if offers[i].takes {
          taken := Entry(taken, work.id);
        } else {
          nextWork := work;
        }
        assert offers[i..][1..] == offers[i + 1..];
        i := i + 1;
      }
    }

    method RunProcessor(r: Round)
      requires enabled && !r.pause
      modifies this
      ensures View() == Running(old(View()), r)
    {
      hide QueueLoop.Fill;
      if mtDisableCalled {
        mtDisableCalled := false;
      }
      if workRestart {
        workRestart := false;
        DoQueueFlush(r.flushFull);
      }
      Fill(r.offers);
    }

    method QueueRound(r: Round)
      modifies this
      ensures View() == QueueLoop.QueueRound(old(View()), r)
    {
      hide QueueLoop.Running;
      if enabled && !r.pause {
        RunProcessor(r);
      } else if !mtDisableCalled {
        DoQueueFlush(r.flushFull);
        mtDisableCalled := true;
      }
      queueFull := Changed(queueFull, r.full);
      enabled := Changed(enabled, r.enabled);
      workRestart := workRestart || r.workRestart;
    }

    /** The loop, until shutdown. */
    method MinerloopQueue(rounds: seq<Round>)
      requires View() == INITIAL
      modifies this
      ensures View() == Run(rounds) && Inv(View())
    {
      for i := 0 to |rounds|
        invariant View() == Run(rounds[..i])
      {
        assert rounds[..i + 1][..i] == rounds[..i];
        QueueRound(rounds[i]);
      }
      assert rounds[..|rounds|] == rounds;
      EveryRun(rounds);
    }
  }
}
