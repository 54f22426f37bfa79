/**
 The queueing miner loop of deviceapi.c.  It offers works to a driver that keeps its own queue, and parks
 the one work that the driver did not take.  What the driver answers is an input.
 */
module QueueLoop {
  import opened Options
  import opened Works

  /** The fields the loop uses, and a ledger: which works were freed and which the driver took, and how often it was
      asked to flush. */
  datatype State = State(
    parked: WorkPtr, queueFull: bool, enabled: bool, disableCalled: bool, workRestart: bool,
    fetched: nat, freed: Log, taken: Log, flushes: nat)

  const INITIAL := State(Null, false, true, false, false, 0, Nothing, Nothing, 0)

  /** One turn of the filling loop: the fetch, when no work is parked; whether the driver takes the work;
      and whether its queue is full then. */
  datatype Offer = Offer(fetch: Fetch, takes: bool, full: bool)

  /** `full` says whether the driver's queue is full after its own flush. */
  function DoQueueFlush(s: State, full: bool): State {
    s.(queueFull := full, freed := Enter(s.freed, s.parked), parked := Null, flushes := s.flushes + 1)
  }

  /** The state without the work to offer, and that work. */
  function NextWork(s: State, fetch: Fetch): (State, WorkPtr) {
    if s.parked.Work? then (s.(parked := Null), s.parked)
    else match fetch
      case NoWork => (s, Null)
      case Unprepared => (s.(fetched := s.fetched + 1, freed := Entry(s.freed, s.fetched), enabled := false), Null)
      case Prepared => (s.(fetched := s.fetched + 1), Work(s.fetched))
  }

  function Answer(s: State, id: nat, o: Offer): State {
    if o.takes then s.(taken := Entry(s.taken, id), queueFull := o.full)
    else s.(parked := Work(id), queueFull := o.full)
  }

  /** Offers works until the driver's queue is full or no work can be had. */
  function Fill(s: State, offers: seq<Offer>): State
    decreases |offers|
  {
    if offers == [] || s.queueFull then s
    else
      var (s', w) := NextWork(s, offers[0].fetch);
      if w.Null? then s' else Fill(Answer(s', w.id, offers[0]), offers[1..])
  }

  /** One round over a processor, with what its poll and other threads change then, if anything. */
  datatype Round = Round(pause: bool, flushFull: bool, offers: seq<Offer>, full: Option<bool>, enabled: Option<bool>, workRestart: bool)

  function Changed(was: bool, change: Option<bool>): bool {
    if change.Some? then change.value else was
  }

  function Resumed(s: State, r: Round): State {
    var resumed := s.(disableCalled := false);
    if s.workRestart then DoQueueFlush(resumed.(workRestart := false), r.flushFull) else resumed
  }

  function Running(s: State, r: Round): State {
    Fill(Resumed(s, r), r.offers)
  }

  function QueueRound(s: State, r: Round): State {
    var s' :=
      if s.enabled && !r.pause then Running(s, r)
      else if !s.disableCalled then DoQueueFlush(s, r.flushFull).(disableCalled := true)
      else s;
    s'.(queueFull := Changed(s'.queueFull, r.full), enabled := Changed(s'.enabled, r.enabled), workRestart := s'.workRestart || r.workRestart)
  }

  function Run(rounds: seq<Round>): State {
    if rounds == [] then INITIAL else QueueRound(Run(rounds[..|rounds| - 1]), rounds[|rounds| - 1])
  }

  // ----- what every step keeps -----

  function Places(s: State, x: nat): nat {
    Held(s.parked, x) + Times(s.freed, x) + Times(s.taken, x)
  }

  ghost predicate Owned(s: State) {
    forall x: nat :: Places(s, x) == if x < s.fetched then 1 else 0
  }

  predicate AllBelow(log: Log, n: nat) {
    log.Entry? ==> log.id < n && AllBelow(log.earlier, n)
  }

  /** Taken in the order they were fetched. */
  predicate Ascending(log: Log) {
    log.Entry? ==> AllBelow(log.earlier, log.id) && Ascending(log.earlier)
  }

  /** The parked work is the last one fetched, and the driver has taken nothing after it. */
  ghost predicate Inv(s: State) {
    && Owned(s)
    && Ascending(s.taken) && AllBelow(s.taken, s.fetched)
    && (s.parked.Work? ==> s.parked.id + 1 == s.fetched && AllBelow(s.taken, s.parked.id))
  }

  lemma {:induction false} AllBelowMore(log: Log, n: nat, m: nat)
    requires AllBelow(log, n) && n <= m
    ensures AllBelow(log, m)
  {
    if log.Entry? {
      AllBelowMore(log.earlier, n, m);
    }
  }

  lemma FlushKeepsInv(s: State, full: bool)
    requires Inv(s)
    ensures Inv(DoQueueFlush(s, full))
  {
    forall x: nat ensures Places(DoQueueFlush(s, full), x) == Places(s, x) {}
  }

  /** One turn of the filling loop. */
  function Turn(s: State, o: Offer): State {
    var (s', w) := NextWork(s, o.fetch);
    if w.Null? then s' else Answer(s', w.id, o)
  }

  lemma NextWorkPlaces(s: State, fetch: Fetch, x: nat)
    ensures var (s', w) := NextWork(s, fetch);
      Places(s', x) + Held(w, x) == Places(s, x) + if s.fetched <= x < s'.fetched then 1 else 0
  {
  }

  lemma AnswerPlaces(s: State, id: nat, o: Offer, x: nat)
    requires s.parked.Null?
    ensures Places(Answer(s, id, o), x) == Places(s, x) + Held(Work(id), x)
  {
  }

  lemma TurnKeepsOwned(s: State, o: Offer)
    requires Owned(s)
    ensures Owned(Turn(s, o))
  {
    var (s', w) := NextWork(s, o.fetch);
    forall x: nat ensures Places(Turn(s, o), x) == if x < Turn(s, o).fetched then 1 else 0 {
      assert Places(s, x) == if x < s.fetched then 1 else 0;
      hide Places, NextWork, Answer;
      NextWorkPlaces(s, o.fetch, x);
      NextWorkNumbers(s, o.fetch);
      if w.Work? {
        AnswerPlaces(s', w.id, o, x);
        AnswerNumbers(s', w.id, o);
      }
    }
  }

  lemma NextWorkNumbers(s: State, fetch: Fetch)
    ensures NextWork(s, fetch).0.parked.Null? && s.fetched <= NextWork(s, fetch).0.fetched
    ensures NextWork(s, fetch).1.Null? ==> Held(NextWork(s, fetch).1, s.fetched) == 0
  {
  }

  lemma AnswerNumbers(s: State, id: nat, o: Offer)
    ensures Answer(s, id, o).fetched == s.fetched
  {
  }

  lemma TurnKeepsInv(s: State, o: Offer)
    requires Inv(s)
    ensures Inv(Turn(s, o))
  {
    var t := Turn(s, o);
    TurnKeepsOwned(s, o);
    hide Owned;
    AllBelowMore(s.taken, s.fetched, t.fetched);
    if t.taken != s.taken {
      AllBelowMore(s.taken, t.taken.id, t.fetched);
    }
  }

  lemma {:induction false} FillKeepsInv(s: State, offers: seq<Offer>)
    requires Inv(s)
    ensures Inv(Fill(s, offers))
    decreases |offers|
  {
    if offers != [] && !s.queueFull {
      TurnKeepsInv(s, offers[0]);
      if NextWork(s, offers[0].fetch).1.Work? {
        FillKeepsInv(Turn(s, offers[0]), offers[1..]);
      }
    }
  }

  lemma SameWorksKeepInv(s: State, t: State)
    requires Inv(s) && t.parked == s.parked && t.fetched == s.fetched && t.freed == s.freed && t.taken == s.taken
    ensures Inv(t)
  {
    forall x: nat ensures Places(t, x) == Places(s, x) {}
  }

  lemma RoundKeepsInv(s: State, r: Round)
    requires Inv(s)
    ensures Inv(QueueRound(s, r))
  {
    hide Inv;
    var resumed := s.(disableCalled := false);
    SameWorksKeepInv(s, resumed);
    SameWorksKeepInv(s, resumed.(workRestart := false));
    FlushKeepsInv(resumed.(workRestart := false), r.flushFull);
    FillKeepsInv(Resumed(s, r), r.offers);
    FlushKeepsInv(s, r.flushFull);
    var s' := if s.enabled && !r.pause then Running(s, r)
              else if !s.disableCalled then DoQueueFlush(s, r.flushFull).(disableCalled := true) else s;
    if !s.disableCalled {
      SameWorksKeepInv(DoQueueFlush(s, r.flushFull), DoQueueFlush(s, r.flushFull).(disableCalled := true));
    }
    SameWorksKeepInv(s', QueueRound(s, r));
  }

  /** After every run, whatever the driver answers: every work ever fetched was taken by the driver exactly
      once, or was freed exactly once, or is the one that is parked; the driver takes works in the order
      they were fetched, and the parked one comes after all of them. */
  lemma {:induction false} EveryRun(rounds: seq<Round>)
    ensures Inv(Run(rounds))
  {
    if rounds != [] {
      EveryRun(rounds[..|rounds| - 1]);
      RoundKeepsInv(Run(rounds[..|rounds| - 1]), rounds[|rounds| - 1]);
    }
  }
}
