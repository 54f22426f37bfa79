/**
 What the rounds of the queueing miner loop achieve: works are offered until the driver's queue is full, and no
 work from before a restart or a stop is offered after it.
 */
module QueueEffects {
  import opened Options
  import opened Works
  import opened QueueLoop

  predicate ShouldRun(s: State, r: Round) {
    s.enabled && !r.pause
  }

  /** What happened to the works: which is parked, which were freed and taken, how many were fetched. */
  predicate SameWorks(s: State, t: State) {
    t.parked == s.parked && t.freed == s.freed && t.taken == s.taken && t.fetched == s.fetched
  }

  lemma {:induction false} TimesEnter(log: Log, id: nat, x: nat)
    ensures Times(Entry(log, id), x) == Times(log, x) + if x == id then 1 else 0
  {
  }

  /** The filling loop frees no work but those that the driver cannot prepare, asks for no flush, and a work that it
      freed was fetched by it. */
  lemma {:induction false} FillFreesOnlyNew(s: State, offers: seq<Offer>, x: nat)
    requires x < s.fetched
    ensures Times(Fill(s, offers).freed, x) == Times(s.freed, x)
    ensures Fill(s, offers).flushes == s.flushes && Fill(s, offers).fetched >= s.fetched
    ensures Fill(s, offers).disableCalled == s.disableCalled && Fill(s, offers).workRestart == s.workRestart
    decreases |offers|
  {
    if offers != [] && !s.queueFull && NextWork(s, offers[0].fetch).1.Work? {
      FillFreesOnlyNew(Turn(s, offers[0]), offers[1..], x);
    }
  }

  /** A restart: the driver's queue is flushed once, and the parked work is freed and never offered.  If the queue is
      full even so, nothing else happens. */
  lemma RestartFlushes(s: State, r: Round)
    requires Inv(s) && ShouldRun(s, r) && s.workRestart
    ensures var t := QueueRound(s, r);
      t.flushes == s.flushes + 1 && t.workRestart == r.workRestart && !t.disableCalled &&
      (s.parked.Work? ==> Times(t.freed, s.parked.id) == 1 && Times(t.taken, s.parked.id) == 0 && t.parked != s.parked) &&
      (r.flushFull ==> t.parked == Null && t.freed == Enter(s.freed, s.parked) && t.taken == s.taken && t.fetched == s.fetched)
  {
    var flushed := Resumed(s, r);
    var t := QueueRound(s, r);
    RoundKeepsInv(s, r);
    if s.parked.Work? {
      var x := s.parked.id;
      TimesEnter(s.freed, x, x);
      FillFreesOnlyNew(flushed, r.offers, x);
      assert Places(s, x) == 1 && Places(t, x) == 1;
    } else {
      FlushesOnly(flushed, r.offers);
    }
  }

  lemma {:induction false} FlushesOnly(s: State, offers: seq<Offer>)
    ensures Fill(s, offers).flushes == s.flushes && Fill(s, offers).workRestart == s.workRestart
    ensures Fill(s, offers).disableCalled == s.disableCalled
    decreases |offers|
  {
    if offers != [] && !s.queueFull && NextWork(s, offers[0].fetch).1.Work? {
      FlushesOnly(Turn(s, offers[0]), offers[1..]);
    }
  }

  /** A stop: the same, and nothing is fetched or offered; and only once. */
  lemma StopFlushes(s: State, r: Round)
    requires !ShouldRun(s, r)
    ensures var t := QueueRound(s, r);
      t.disableCalled && t.taken == s.taken && t.fetched == s.fetched &&
      (if s.disableCalled then SameWorks(s, t) && t.flushes == s.flushes
       else t.parked == Null && t.freed == Enter(s.freed, s.parked) && t.flushes == s.flushes + 1)
  {
  }

  /** Without a restart a running processor flushes nothing: the parked work stays or is taken. */
  lemma RunningFlushesNothing(s: State, r: Round)
    requires Inv(s) && ShouldRun(s, r) && !s.workRestart
    ensures var t := QueueRound(s, r);
      t.flushes == s.flushes && !t.disableCalled &&
      (s.parked.Work? ==> Times(t.freed, s.parked.id) == 0 && (t.parked == s.parked || Times(t.taken, s.parked.id) == 1)) &&
      (s.queueFull || r.offers == [] ==> SameWorks(s, t))
  {
    var t := QueueRound(s, r);
    RoundKeepsInv(s, r);
    FlushesOnly(Resumed(s, r), r.offers);
    if s.parked.Work? {
      var x := s.parked.id;
      FillFreesOnlyNew(Resumed(s, r), r.offers, x);
      assert Places(s, x) == 1 && Places(t, x) == 1;
    }
  }

  function Length(log: Log): nat {
    if log.Nothing? then 0 else Length(log.earlier) + 1
  }

  predicate AllTaken(offers: seq<Offer>) {
    forall i | 0 <= i < |offers| :: offers[i].fetch == Prepared && offers[i].takes && (offers[i].full <==> i == |offers| - 1)
  }

  /** The loop goes on until the driver's queue is full, starting with the parked work: it offers as many works as the
      queue has room for, and fetches no more than it offers. */
  lemma {:induction false} FillsTheQueue(s: State, offers: seq<Offer>)
    requires !s.queueFull && offers != [] && AllTaken(offers)
    ensures var t := Fill(s, offers);
      t.queueFull && t.parked == Null && t.freed == s.freed && Length(t.taken) == Length(s.taken) + |offers| &&
      t.fetched + (if s.parked.Work? then 1 else 0) == s.fetched + |offers|
    decreases |offers|
  {
    var turn := Turn(s, offers[0]);
    assert Fill(s, offers) == Fill(turn, offers[1..]);
    if |offers| > 1 {
      forall i | 0 <= i < |offers[1..]|
        ensures offers[1..][i] == offers[i + 1]
      {
      }
      FillsTheQueue(turn, offers[1..]);
    }
  }

  /** The work offered first is the parked one, or else a new one; a work that is refused is parked ... */
  lemma {:induction false} RefusedIsParked(s: State, o: Offer)
    requires !s.queueFull && o.fetch == Prepared && !o.takes && o.full
    ensures var t := Fill(s, [o]);
      t.parked == (if s.parked.Work? then s.parked else Work(s.fetched)) && t.queueFull &&
      t.fetched == (if s.parked.Work? then s.fetched else s.fetched + 1) && t.taken == s.taken && t.freed == s.freed
  {
    assert Fill(s, [o]) == Fill(Turn(s, o), []);
  }

  /** ... and is the first that is taken later. */
  lemma {:induction false} ParkedIsTakenFirst(s: State, offers: seq<Offer>)
    requires !s.queueFull && s.parked.Work? && offers != [] && offers[0].takes && offers[0].full
    ensures Fill(s, offers).taken == Entry(s.taken, s.parked.id) && Fill(s, offers).parked == Null
    ensures Fill(s, offers).fetched == s.fetched
  {
    assert Fill(s, offers) == Fill(Turn(s, offers[0]), offers[1..]);
  }

  /** A work that the driver cannot prepare is freed, ends the loop, and disables the processor. */
  lemma UnpreparedDisables(s: State, r: Round)
    requires ShouldRun(s, r) && !s.workRestart && !s.queueFull && s.parked.Null?
    requires r.offers != [] && r.offers[0].fetch == Unprepared && r.enabled.None?
    ensures var t := QueueRound(s, r);
      !t.enabled && t.freed == Entry(s.freed, s.fetched) && t.fetched == s.fetched + 1 && t.taken == s.taken && t.parked == Null
  {
  }

  /** What other threads ask for in a round holds after it; what they leave alone is as the round left it. */
  lemma OthersAreObeyed(s: State, r: Round)
    ensures var t, alone := QueueRound(s, r), QueueRound(s, r.(full := None, enabled := None, workRestart := false));
      SameWorks(t, alone) && t.disableCalled == alone.disableCalled && t.flushes == alone.flushes &&
      (if r.full.Some? then t.queueFull == r.full.value else t.queueFull == alone.queueFull) &&
      (if r.enabled.Some? then t.enabled == r.enabled.value else t.enabled == alone.enabled) &&
      (r.workRestart ==> t.workRestart)
  {
  }

  /** A restart that is asked for during a run flushes the driver's queue in the next round that runs, however many
      rounds pass while the processor is stopped. */
  lemma {:induction false} RestartIsNotForgotten(rounds: seq<Round>, asked: Round, stopped: seq<Round>, r: Round)
    requires asked.workRestart && forall i | 0 <= i < |stopped| :: stopped[i].pause
    requires Run(rounds + [asked] + stopped).enabled && !r.pause
    ensures Run(rounds + [asked] + stopped).workRestart
    ensures Run(rounds + [asked] + stopped + [r]).flushes == Run(rounds + [asked] + stopped).flushes + 1
  {
    RestartStays(rounds, asked, stopped);
    var all := rounds + [asked] + stopped;
    assert (all + [r])[..|all|] == all;
    var s := Run(all);
    FlushesOnly(Resumed(s, r), r.offers);
  }

  lemma {:induction false} RestartStays(rounds: seq<Round>, asked: Round, stopped: seq<Round>)
    requires asked.workRestart && forall i | 0 <= i < |stopped| :: stopped[i].pause
    ensures Run(rounds + [asked] + stopped).workRestart
  {
    var all := rounds + [asked] + stopped;
    if stopped == [] {
      assert all == rounds + [asked] && all[..|rounds|] == rounds;
    } else {
      var n := |stopped| - 1;
      assert all[..|all| - 1] == rounds + [asked] + stopped[..n];
      RestartStays(rounds, asked, stopped[..n]);
    }
  }
}
