/**
 What every operation of the BitForce queue driver keeps, and what that says about whole runs.
 */
module BitForceInvariant {
  import opened Options
  import opened Bytes
  import opened BitForceFlush
  import opened BitForceQueue

  predicate Bounded(c: Config, q: Queue) {
    q.ready <= c.maxAtOnce && q.queued + q.ready <= c.queuedMax
  }

  ghost predicate Increasing(s: seq<nat>) {
    forall i, j | 0 <= i < j < |s| :: s[i] < s[j]
  }

  ghost predicate AllBelow(s: seq<nat>, n: nat) {
    forall i | 0 <= i < |s| :: s[i] < n
  }

  /** The works are on the list in the order they were appended. */
  ghost predicate Ordered(q: Queue) {
    Increasing(Serials(q.list)) && AllBelow(Serials(q.list), q.appended)
  }

  /** Of the listed serials, the first `queued` were delivered and the others come after all that were. */
  ghost predicate Boundary(s: seq<nat>, queued: int, delivered: seq<nat>) {
    && (forall i | 0 <= i < |s| && i < queued :: s[i] in delivered)
    && (forall i, d | 0 <= i < |s| && queued <= i && 0 <= d < |delivered| :: delivered[d] < s[i])
  }

  /** The device accepted exactly the first `queued` works of the list, and accepts in order. */
  ghost predicate Tagged(q: Queue) {
    && Boundary(Serials(q.list), q.queued, q.delivered)
    && Increasing(q.delivered) && AllBelow(q.delivered, q.appended)
  }

  /** Every work ever appended is on the list or has been freed, and only once. */
  ghost predicate Balanced(q: Queue) {
    forall x: nat :: Occurs(q.list, x) + Occurs(q.freed, x) == if x < q.appended then 1 else 0
  }

  ghost predicate Ledger(q: Queue) {
    Ordered(q) && Tagged(q) && Balanced(q)
  }

  ghost predicate Inv(c: Config, q: Queue) {
    Counted(q) && Bounded(c, q) && Ledger(q)
  }

  predicate SameLedger(q: Queue, q': Queue) {
    q'.list == q.list && q'.appended == q.appended && q'.freed == q.freed && q'.delivered == q.delivered
  }

  // ----- sending and appending -----

  /** The device accepts no more jobs than it was offered. */
  predicate SendConforms(q: Queue, input: SendInput) {
    var (q', reply) := Deciding(q, input);
    input.isOpen && q.ready > 0 && reply.Queued? ==> 0 <= Accepted(q', reply) <= q.ready
  }

  lemma {:induction false} OccursConcat(a: seq<Work>, b: seq<Work>, x: nat)
    ensures Occurs(a + b, x) == Occurs(a, x) + Occurs(b, x)
  {
    if b == [] {
      assert a + b == a;
    } else {
      assert (a + b)[..|a + b| - 1] == a + b[..|b| - 1];
      OccursConcat(a, b[..|b| - 1], x);
    }
  }

  lemma {:induction false} OccursBySerials(a: seq<Work>, b: seq<Work>, x: nat)
    requires Serials(a) == Serials(b)
    ensures Occurs(a, x) == Occurs(b, x)
  {
    if a != [] {
      assert |a| == |Serials(a)| == |b|;
      var n := |a| - 1;
      assert Serials(a[..n]) == Serials(a)[..n] == Serials(b)[..n] == Serials(b[..n]);
      assert a[n].serial == Serials(a)[n] == b[n].serial;
      OccursBySerials(a[..n], b[..n], x);
    }
  }

  lemma Deliver(s: seq<nat>, queued: nat, upTo: nat, delivered: seq<nat>, n: nat)
    requires Increasing(s) && AllBelow(s, n) && queued <= upTo <= |s|
    requires Boundary(s, queued, delivered) && Increasing(delivered) && AllBelow(delivered, n)
    ensures var delivered' := delivered + s[queued..upTo];
      Boundary(s, upTo, delivered') && Increasing(delivered') && AllBelow(delivered', n)
  {
    var delivered' := delivered + s[queued..upTo];
    forall i | 0 <= i < upTo ensures s[i] in delivered' {
      if i >= queued {
        assert delivered'[|delivered| + i - queued] == s[i];
      }
    }
  }

  lemma DeliverKeepsLedger(q: Queue, q': Queue)
    requires Ledger(q) && 0 <= q.queued <= q'.queued <= |q.list|
    requires Serials(q'.list) == Serials(q.list) && q'.freed == q.freed && q'.appended == q.appended
    requires q'.delivered == q.delivered + Serials(q.list)[q.queued..q'.queued]
    ensures Ledger(q')
  {
    Deliver(Serials(q.list), q.queued, q'.queued, q.delivered, q.appended);
    forall x: nat ensures Occurs(q'.list, x) == Occurs(q.list, x) {
      OccursBySerials(q.list, q'.list, x);
    }
  }

  lemma AnswerKeepsInv(c: Config, q: Queue, reply: SendReply)
    requires Inv(c, q) && q.ready > 0
    requires GivesIds(c, q, reply) ==> IdWalkStaysOnList(q)
    requires reply.Queued? ==> 0 <= Accepted(q, reply) <= q.ready
    ensures Inv(c, Answer(c, q, reply).0)
  {
    if reply.Queued? {
      var q' := Answer(c, q, reply).0;
      assert Serials(q.list[q.queued..q'.queued]) == Serials(q.list)[q.queued..q'.queued];
      DeliverKeepsLedger(q, q');
    }
  }

  lemma SendKeepsInv(c: Config, q: Queue, input: SendInput)
    requires Inv(c, q) && SendDefined(c, q, input) && SendConforms(q, input)
    ensures Inv(c, SendQueue(c, q, input).0)
  {
    if input.isOpen && q.ready > 0 {
      var (q', reply) := Deciding(q, input);
      AnswerKeepsInv(c, q', reply);
    }
  }

  /** Queue ids go to exactly the works that were offered, except when the whole list was offered and
      holds more than one work: then the walk starts at the last work and leaves the list. */
  lemma IdWalkExact(c: Config, q: Queue)
    requires Inv(c, q) && q.ready > 0
    ensures IdWalkStaysOnList(q) <==> q.queued > 0 || q.ready == 1
    ensures IdWalkStaysOnList(q) ==> FirstIdPosition(q) == q.queued
  {
  }

  lemma AppendWorkKeepsInv(c: Config, q: Queue, midstate: seq<byte>, tail: seq<byte>)
    requires Inv(c, q) && !SetQueueFull(c, q).queueFull
    ensures Inv(c, AppendWork(c, q, midstate, tail))
  {
    var w := Work(q.appended, midstate, tail, 0);
    var list := q.list + [w];
    assert list[..|list| - 1] == q.list;
    assert Serials(list) == Serials(q.list) + [q.appended];
  }

  lemma AppendKeepsInv(c: Config, q: Queue, midstate: seq<byte>, tail: seq<byte>, input: SendInput)
    requires Inv(c, q) && AppendDefined(c, q, midstate, tail, input)
    requires SendConforms(AfterAppend(c, q, midstate, tail), input)
    ensures Inv(c, QueueAppend(c, q, midstate, tail, input).0)
    ensures var (q', taken) := QueueAppend(c, q, midstate, tail, input);
            taken <==> q.queued + q.ready < c.queuedMax && q.ready < c.maxAtOnce
  {
    var q' := AfterAppend(c, q, midstate, tail);
    if !SetQueueFull(c, q).queueFull {
      AppendWorkKeepsInv(c, q, midstate, tail);
    }
    assert Inv(c, q');
    if WantsToSendNow(c, q') {
      SendKeepsInv(c, q', input);
    }
  }

  // ----- removing works -----

  /** Works i up to j are taken off the list and freed; the rest of the ledger is as it was. */
  ghost predicate CutsOut(q: Queue, q': Queue, i: nat, j: nat) {
    && i <= j <= |q.list|
    && q'.list == q.list[..i] + q.list[j..]
    && q'.freed == q.freed + q.list[i..j]
    && q'.appended == q.appended && q'.delivered == q.delivered
  }

  lemma CutBoundary(s: seq<nat>, i: nat, j: nat, queued: nat, delivered: seq<nat>)
    requires i <= j <= |s| && queued <= |s| && Boundary(s, queued, delivered)
    ensures Boundary(s[..i] + s[j..], if j <= queued then queued - (j - i) else if i <= queued then i else queued, delivered)
  {
  }

  lemma CutKeepsBalance(q: Queue, q': Queue, i: nat, j: nat)
    requires Balanced(q) && CutsOut(q, q', i, j)
    ensures Balanced(q')
  {
    var front, cut, back := q.list[..i], q.list[i..j], q.list[j..];
    assert q.list == front + cut + back;
    forall x: nat ensures Occurs(q'.list, x) + Occurs(q'.freed, x) == Occurs(q.list, x) + Occurs(q.freed, x) {
      OccursConcat(front + cut, back, x);
      OccursConcat(front, cut, x);
      OccursConcat(front, back, x);
      OccursConcat(q.freed, cut, x);
    }
  }

  lemma CutKeepsLedger(q: Queue, q': Queue, i: nat, j: nat)
    requires Ledger(q) && CutsOut(q, q', i, j) && Counted(q)
    requires q'.queued == (if j <= q.queued then q.queued - (j - i) else if i <= q.queued then i else q.queued)
    ensures Ledger(q')
  {
    CutKeepsBalance(q, q', i, j);
    CutBoundary(Serials(q.list), i, j, q.queued, q.delivered);
    assert Serials(q'.list) == Serials(q.list)[..i] + Serials(q.list)[j..];
  }

  /** The device reports only jobs it was sent: a reported key belongs to a sent work, or to none. */
  predicate LineConforms(c: Config, q: Queue, line: ResultLine) {
    line.Line? ==> var i := Find(c.byId, q.list, line.key); i < q.queued || i == |q.list|
  }

  predicate LinesConform(c: Config, q: Queue, lines: seq<ResultLine>) {
    lines == [] || (
      && LinesConform(c, q, lines[..|lines| - 1])
      && LineConforms(c, ProcessLines(c, q, lines[..|lines| - 1]), lines[|lines| - 1]))
  }

  predicate ResultsConform(c: Config, q: Queue, isOpen: bool, batches: seq<ResultBatch>)
    decreases |batches|
  {
    isOpen && batches != [] && batches[0].Batch? && batches[0].count > 0 ==>
      && LinesConform(c, q, batches[0].lines)
      && (batches[0].count >= MAX_QRESULTS ==>
            ResultsConform(c, SetQueueFull(c, ProcessLines(c, q, batches[0].lines)), isOpen, batches[1..]))
  }

  /** Taking sent works i up to j off the list, as results do. */
  lemma CutKeepsInv(c: Config, q: Queue, q': Queue, i: nat, j: nat)
    requires Inv(c, q) && CutsOut(q, q', i, j) && j <= q.queued
    requires q'.queued == q.queued - (j - i) && q'.ready == q.ready
    ensures Inv(c, q')
  {
    CutKeepsLedger(q, q', i, j);
  }

  lemma RemoveReportedCuts(c: Config, q: Queue, i: nat)
    requires i < |q.list|
    ensures CutsOut(q, RemoveReported(c, q, i), if c.parallel == 1 then 0 else i, i + 1)
  {
    assert q.list[..0] + q.list[i + 1..] == q.list[i + 1..] && q.list[0..i + 1] == q.list[..i + 1];
    assert q.list[i..i + 1] == [q.list[i]];
  }

  lemma RemoveReportedKeepsInv(c: Config, q: Queue, i: nat)
    requires Inv(c, q) && i < q.queued
    ensures var q' := RemoveReported(c, q, i); Inv(c, q') && q'.ready == q.ready && q'.queued <= q.queued
  {
    RemoveReportedCuts(c, q, i);
    CutKeepsInv(c, q, RemoveReported(c, q, i), if c.parallel == 1 then 0 else i, i + 1);
  }

  lemma LineKeepsInv(c: Config, q: Queue, line: ResultLine)
    requires Inv(c, q) && LineConforms(c, q, line)
    ensures var q' := ProcessLine(c, q, line); Inv(c, q') && q'.ready == q.ready && q'.queued <= q.queued
  {
    if line.Line? && Find(c.byId, q.list, line.key) < |q.list| {
      RemoveReportedKeepsInv(c, q, Find(c.byId, q.list, line.key));
    }
  }

  lemma {:induction false} LinesKeepInv(c: Config, q: Queue, lines: seq<ResultLine>)
    requires Inv(c, q) && LinesConform(c, q, lines)
    ensures Inv(c, ProcessLines(c, q, lines)) && ProcessLines(c, q, lines).ready == q.ready
    ensures ProcessLines(c, q, lines).queued <= q.queued
  {
    if lines != [] {
      LinesKeepInv(c, q, lines[..|lines| - 1]);
      LineKeepsInv(c, ProcessLines(c, q, lines[..|lines| - 1]), lines[|lines| - 1]);
    }
  }

  lemma {:induction false} ResultsKeepInv(c: Config, q: Queue, isOpen: bool, batches: seq<ResultBatch>)
    requires Inv(c, q) && ResultsConform(c, q, isOpen, batches)
    ensures Inv(c, QueueDoResults(c, q, isOpen, batches).0) && QueueDoResults(c, q, isOpen, batches).0.ready == q.ready
    ensures QueueDoResults(c, q, isOpen, batches).0.queued <= q.queued
    decreases |batches|
  {
    if isOpen && batches != [] && batches[0].Batch? && batches[0].count > 0 {
      LinesKeepInv(c, q, batches[0].lines);
      if batches[0].count >= MAX_QRESULTS {
        ResultsKeepInv(c, SetQueueFull(c, ProcessLines(c, q, batches[0].lines)), isOpen, batches[1..]);
      }
    }
  }

  // ----- flushing -----

  lemma {:induction false} OccursAppend(a: seq<Work>, w: Work, x: nat)
    ensures Occurs(a + [w], x) == Occurs(a, x) + if w.serial == x then 1 else 0
  {
    assert (a + [w])[..|a + [w]| - 1] == a;
  }

  ghost function OccursIn(r: Reconciled, x: nat): nat {
    Occurs(r.kept, x) + Occurs(r.flushed, x) + Occurs(r.missing, x)
  }

  lemma ReconcileOnePartition(byId: bool, r: Reconciled, w: Work, x: nat)
    ensures OccursIn(ReconcileOne(byId, r, w), x) == OccursIn(r, x) + if w.serial == x then 1 else 0
  {
    OccursAppend(r.kept, w, x);
    OccursAppend(r.flushed, w, x);
    OccursAppend(r.missing, w, x);
  }

  lemma {:induction false} ReconcileIsPartition(byId: bool, works: seq<Work>, t: Table, x: nat)
    ensures var r := Reconcile(byId, works, t);
      Occurs(works, x) == OccursIn(r, x) && |works| == |r.kept| + |r.flushed| + |r.missing|
  {
    if works != [] {
      ReconcileIsPartition(byId, works[..|works| - 1], t, x);
      ReconcileOnePartition(byId, Reconcile(byId, works[..|works| - 1], t), works[|works| - 1], x);
    }
  }

  ghost predicate Sublist(a: seq<nat>, b: seq<nat>) {
    forall i | 0 <= i < |a| :: a[i] in b
  }

  /** What is kept stays in list order. */
  lemma {:induction false} ReconcileKeepsOrder(byId: bool, works: seq<Work>, t: Table)
    requires Increasing(Serials(works))
    ensures Increasing(Serials(Reconcile(byId, works, t).kept))
    ensures Sublist(Serials(Reconcile(byId, works, t).kept), Serials(works))
  {
    if works != [] {
      var n := |works| - 1;
      var earlier := works[..n];
      assert Serials(earlier) == Serials(works)[..n];
      ReconcileKeepsOrder(byId, earlier, t);
      var kept := Reconcile(byId, earlier, t).kept;
      assert Serials(kept + [works[n]]) == Serials(kept) + [works[n].serial];
      assert works[n].serial == Serials(works)[n];
    }
  }

  /** q' has the works that the reconciliation keeps, and freed all the others. */
  ghost predicate Reconciles(c: Config, q: Queue, t: Table, q': Queue) {
    var r := Reconcile(c.byId, q.list, t);
    && q'.list == r.kept && q'.appended == q.appended && q'.delivered == q.delivered
    && q'.freed == q.freed + r.flushed + r.missing
  }

  lemma SanityKeepsBalance(c: Config, q: Queue, t: Table, q': Queue)
    requires Balanced(q) && Reconciles(c, q, t, q')
    ensures Balanced(q')
  {
    var r := Reconcile(c.byId, q.list, t);
    forall x: nat ensures Occurs(q'.list, x) + Occurs(q'.freed, x) == Occurs(q.list, x) + Occurs(q.freed, x) {
      ReconcileIsPartition(c.byId, q.list, t, x);
      OccursConcat(q.freed, r.flushed, x);
      OccursConcat(q.freed + r.flushed, r.missing, x);
    }
  }

  lemma SanityKeepsLedger(c: Config, q: Queue, t: Table, q': Queue)
    requires Ledger(q) && |q.list| <= q.queued
    requires Reconciles(c, q, t, q') && |q'.list| <= q'.queued
    ensures Ledger(q')
  {
    SanityKeepsBalance(c, q, t, q');
    ReconcileKeepsOrder(c.byId, q.list, t);
    var s, s' := Serials(q.list), Serials(q'.list);
    forall i | 0 <= i < |s'| ensures s'[i] in q.delivered && s'[i] < q.appended {
      var k :| 0 <= k < |s| && s[k] == s'[i];
    }
  }

  /** The works the device has accepted, which a flush is about. */
  function Sent(q: Queue): seq<Work>
    requires Counted(q)
  {
    q.list[..q.queued]
  }

  /** The last n of the sent works go, and everything that was not sent. */
  lemma CutTailKeepsInv(c: Config, q: Queue, q': Queue, n: nat)
    requires Inv(c, q) && n <= q.queued && SameLedger(DeleteLast(DeleteLast(q, q.ready), n), q')
    requires q'.queued == q.queued - n && q'.ready == 0
    ensures Inv(c, q') && q'.list == q.list[..q.queued - n]
  {
    var kept, unsent := q.queued - n, DeleteLast(q, q.ready);
    assert unsent.list == q.list[..q.queued] && q'.list == q.list[..kept];
    CutKeepsBalance(q, unsent, q.queued, |q.list|);
    assert unsent.list[q.queued - n..] == unsent.list[kept..q.queued];
    CutKeepsBalance(unsent, DeleteLast(unsent, n), kept, q.queued);
    assert Serials(q'.list) == Serials(q.list)[..kept];
  }

  lemma AfterDeleteKeepsInv(c: Config, q: Queue, reply: FlushReply)
    requires Inv(c, q)
    ensures Inv(c, AfterDelete(c, q, reply)) && AfterDelete(c, q, reply).ready == 0
    ensures AfterDelete(c, q, reply).list == q.list[..q.queued - FlushCount(q, reply)]
  {
    CutTailKeepsInv(c, q, AfterDelete(c, q, reply), FlushCount(q, reply));
  }

  lemma PartsOfCons(keys: seq<JobKey>, n: nat)
    requires keys != []
    ensures n == 0 ==> InProgressPart(keys, n) == [] && FlushedPart(keys, n) == [keys[0]] + FlushedPart(keys[1..], 0)
    ensures n > 0 ==> InProgressPart(keys, n) == [keys[0]] + InProgressPart(keys[1..], n - 1)
                      && FlushedPart(keys, n) == FlushedPart(keys[1..], n - 1)
  {
  }

  lemma {:induction false} TableCounts(keys: seq<JobKey>, n: nat)
    ensures Counts(TableFrom(keys, n), multiset(InProgressPart(keys, n)), multiset(FlushedPart(keys, n)))
  {
    if keys != [] {
      var rest, m := keys[1..], if n > 0 then n - 1 else 0;
      TableCounts(rest, m);
      PartsOfCons(keys, n);
      AddToProcessingCounts(TableFrom(rest, m), multiset(InProgressPart(rest, m)), multiset(FlushedPart(rest, m)), keys[0], n == 0);
    }
  }

  ghost function InProgressBag(keys: seq<JobKey>, n: nat): multiset<JobKey> {
    multiset(InProgressPart(keys, n))
  }

  ghost function FlushedBag(keys: seq<JobKey>, n: nat): multiset<JobKey> {
    multiset(FlushedPart(keys, n))
  }

  /** The keys of the works the device has accepted. */
  ghost function SentBag(c: Config, q: Queue): multiset<JobKey>
    requires Counted(q)
  {
    KeyBag(c.byId, Sent(q))
  }

  lemma KeyBagSize(byId: bool, works: seq<Work>)
    ensures |KeyBag(byId, works)| == |works|
  {
  }

  /**
   A binary report: the works that stay are the sent works matched by the jobs in progress, and the
   driver's count is right exactly when every flushed job the device reports is one of the sent works
   that are not in progress.  Otherwise the count is too low.
   */
  lemma BinaryReportExact(c: Config, q: Queue, n: nat, ids: seq<nat>)
    requires Inv(c, q)
    ensures var q' := ProcessFlbResult(c, DeleteLast(q, q.ready), n, ids);
      var p, f := InProgressBag(QueueIds(ids), n), FlushedBag(QueueIds(ids), n);
      && KeyBag(c.byId, q'.list) == SentBag(c, q) * p
      && q'.ready == 0 && q'.queued <= |q'.list| <= q.queued
      && (q'.queued == |q'.list| <==> f <= SentBag(c, q) - p)
  {
    var keys := QueueIds(ids);
    var t := TableFrom(keys, n);
    var p, f := InProgressBag(keys, n), FlushedBag(keys, n);
    var unsent := DeleteLast(q, q.ready);
    assert unsent.list == Sent(q);
    TableCounts(keys, n);
    ReconcileMatches(c.byId, Sent(q), t, p, f);
    ReconcileIsPartition(c.byId, Sent(q), t, 0);
    var r := Reconcile(c.byId, Sent(q), t);
    KeyBagSize(c.byId, r.flushed);
    IntersectionSize(SentBag(c, q) - p, f);
    assert |f| == |FlushedPart(keys, n)|;
  }

  lemma UnsentKeepsLedger(q: Queue)
    requires Ledger(q) && Counted(q)
    ensures Ledger(DeleteLast(q, q.ready)) && DeleteLast(q, q.ready).list == Sent(q)
  {
    CutKeepsBalance(q, DeleteLast(q, q.ready), q.queued, |q.list|);
    assert Serials(Sent(q)) == Serials(q.list)[..q.queued];
  }

  /** The keys of the works that are still on the list when a text report is reconciled with it: the flushed
      ones are deleted, and those whose results came in meanwhile as well. */
  ghost function OutstandingBag(c: Config, q: Queue, reply: FlushReply, isOpen: bool, batches: seq<ResultBatch>): multiset<JobKey>
    requires Counted(q)
  {
    KeyBag(c.byId, QueueDoResults(c, AfterDelete(c, q, reply), isOpen, batches).0.list)
  }

  /** Whether the device's report can be reconciled with what the driver sent.  A 28nm board's count of jobs in
      progress has to be the number of works that the report and the list have in common. */
  ghost predicate ReportConsistent(c: Config, q: Queue, reply: FlushReply, isOpen: bool, batches: seq<ResultBatch>)
    requires Counted(q)
  {
    match reply
    case BinaryReport(n, ids) =>
      var p, f := InProgressBag(QueueIds(ids), n), FlushedBag(QueueIds(ids), n);
      if c.is28nm then |SentBag(c, q) * p| == n else f <= SentBag(c, q) - p
    case TextReport(n, _, keys) =>
      c.is28nm && n != -1 ==> n == |OutstandingBag(c, q, reply, isOpen, batches) * multiset(keys)|
    case _ => true
  }

  predicate FlushConforms(c: Config, q: Queue, reply: FlushReply, isOpen: bool, batches: seq<ResultBatch>)
    requires Counted(q)
  {
    !reply.BinaryReport? ==> ResultsConform(c, AfterDelete(c, q, reply), isOpen, batches)
  }

  lemma {:induction false} TextSanityKeepsInv(c: Config, q: Queue, keys: seq<JobKey>)
    requires Inv(c, q) && q.ready == 0
    ensures Inv(c, SanityCheck(c, q, TableFrom(keys, |keys|)))
    ensures KeyBag(c.byId, SanityCheck(c, q, TableFrom(keys, |keys|)).list) == KeyBag(c.byId, q.list) * multiset(keys)
  {
    var t := TableFrom(keys, |keys|);
    var q' := SanityCheck(c, q, t);
    TableCounts(keys, |keys|);
    assert InProgressPart(keys, |keys|) == keys && FlushedPart(keys, |keys|) == [];
    ReconcileMatches(c.byId, q.list, t, multiset(keys), multiset{});
    ReconcileIsPartition(c.byId, q.list, t, 0);
    KeyBagSize(c.byId, Reconcile(c.byId, q.list, t).flushed);
    assert (KeyBag(c.byId, q.list) - multiset(keys)) * multiset{} == multiset{};
    SanityKeepsLedger(c, q, t, q');
  }

  lemma TextFlushKeepsInv(c: Config, q: Queue, reply: FlushReply, isOpen: bool, batches: seq<ResultBatch>)
    requires Inv(c, q) && !reply.BinaryReport? && FlushConforms(c, q, reply, isOpen, batches)
    ensures Inv(c, FlushUncorrected(c, q, reply, isOpen, batches))
    ensures FlushUncorrected(c, q, reply, isOpen, batches).ready == 0
    ensures reply.TextReport? ==>
      FlushUncorrected(c, q, reply, isOpen, batches).queued
        == |OutstandingBag(c, q, reply, isOpen, batches) * multiset(reply.keys)|
  {
    AfterDeleteKeepsInv(c, q, reply);
    ResultsKeepInv(c, AfterDelete(c, q, reply), isOpen, batches);
    if reply.TextReport? {
      TextSanityKeepsInv(c, QueueDoResults(c, AfterDelete(c, q, reply), isOpen, batches).0, reply.keys);
      KeyBagSize(c.byId, FlushUncorrected(c, q, reply, isOpen, batches).list);
    }
  }

  lemma SanityGivesInv(c: Config, q: Queue, t: Table, q': Queue)
    requires Inv(c, q) && Reconciles(c, DeleteLast(q, q.ready), t, q')
    requires q'.ready == 0 && 0 <= q'.queued == |q'.list| <= q.queued
    ensures Inv(c, q')
  {
    UnsentKeepsLedger(q);
    SanityKeepsLedger(c, DeleteLast(q, q.ready), t, q');
  }

  lemma BinaryFlushExact(c: Config, q: Queue, n: nat, ids: seq<nat>, isOpen: bool, batches: seq<ResultBatch>)
    requires Inv(c, q)
    ensures var reply := BinaryReport(n, ids);
      Inv(c, QueueFlush(c, q, true, reply, isOpen, batches)) <==> ReportConsistent(c, q, reply, isOpen, batches)
  {
    var reported := ProcessFlbResult(c, DeleteLast(q, q.ready), n, ids);
    var q' := QueueFlush(c, q, true, BinaryReport(n, ids), isOpen, batches);
    assert q' == Corrected(c, reported, n);
    BinaryReportExact(c, q, n, ids);
    KeyBagSize(c.byId, q'.list);
    if q'.queued == |q'.list| {
      SanityGivesInv(c, q, TableFrom(QueueIds(ids), n), q');
    }
  }

  /**
   A flush leaves the queue in order if and only if the device's report is consistent with what was
   sent.  An inconsistent report leaves a count that differs from the length of the list.
   */
  lemma FlushExact(c: Config, q: Queue, reply: FlushReply, isOpen: bool, batches: seq<ResultBatch>)
    requires Inv(c, q) && FlushConforms(c, q, reply, isOpen, batches)
    ensures Inv(c, QueueFlush(c, q, true, reply, isOpen, batches)) <==> ReportConsistent(c, q, reply, isOpen, batches)
  {
    if reply.BinaryReport? {
      BinaryFlushExact(c, q, reply.inProgress, reply.ids, isOpen, batches);
    } else {
      TextFlushKeepsInv(c, q, reply, isOpen, batches);
    }
  }

  lemma ReinitKeepsInv(c: Config, q: Queue)
    requires Inv(c, q) && c.maxAtOnce >= 0 && c.queuedMax >= 0
    ensures Inv(c, Reinit(q))
  {
    assert q.list[0..|q.list|] == q.list;
    assert CutsOut(q, Reinit(q), 0, |q.list|);
    CutKeepsBalance(q, Reinit(q), 0, |q.list|);
  }

  // ----- whole runs -----

  datatype Event =
    | Append(midstate: seq<byte>, tail: seq<byte>, input: SendInput)
    | PollDevice(isOpen: bool, batches: seq<ResultBatch>, input: SendInput)
    | Flush(handlesBoard: bool, reply: FlushReply, isOpen: bool, batches: seq<ResultBatch>)
    | Reinitialise

  function AfterResults(c: Config, q: Queue, isOpen: bool, batches: seq<ResultBatch>): Queue {
    if q.queued != 0 then QueueDoResults(c, q, isOpen, batches).0 else q
  }

  /** The event has a defined effect and the device keeps to its side. */
  ghost predicate Conforms(c: Config, q: Queue, e: Event) {
    Counted(q) &&
    match e
    case Append(m, t, input) =>
      AppendDefined(c, q, m, t, input) && SendConforms(AfterAppend(c, q, m, t), input)
    case PollDevice(isOpen, batches, input) =>
      var q' := AfterResults(c, q, isOpen, batches);
      ResultsConform(c, q, isOpen, batches) && (q'.wantToSend ==> SendDefined(c, q', input) && SendConforms(q', input))
    case Flush(handles, reply, isOpen, batches) =>
      handles ==> FlushConforms(c, q, reply, isOpen, batches) && ReportConsistent(c, q, reply, isOpen, batches)
    case Reinitialise => true
  }

  ghost function Apply(c: Config, q: Queue, e: Event): Queue
    requires Conforms(c, q, e)
  {
    match e
    case Append(m, t, input) => QueueAppend(c, q, m, t, input).0
    case PollDevice(isOpen, batches, input) => Poll(c, q, isOpen, batches, input)
    case Flush(handles, reply, isOpen, batches) => QueueFlush(c, q, handles, reply, isOpen, batches)
    case Reinitialise => Reinit(q)
  }

  datatype Run = Start | Then(run: Run, event: Event)

  const EMPTY := Queue([], 0, 0, false, false, false, false, 0, [], [])

  ghost function Exec(c: Config, run: Run): Option<Queue> {
    match run
    case Start => Some(EMPTY)
    case Then(earlier, e) =>
      var q := Exec(c, earlier);
      if q.Some? && Conforms(c, q.value, e) then Some(Apply(c, q.value, e)) else None
  }

  lemma EventKeepsInv(c: Config, q: Queue, e: Event)
    requires c.maxAtOnce >= 0 && c.queuedMax >= 0 && Inv(c, q) && Conforms(c, q, e)
    ensures Inv(c, Apply(c, q, e))
  {
    match e
    case Append(m, t, input) => AppendKeepsInv(c, q, m, t, input);
    case PollDevice(isOpen, batches, input) =>
      ResultsKeepInv(c, q, isOpen, batches);
      if AfterResults(c, q, isOpen, batches).wantToSend {
        SendKeepsInv(c, AfterResults(c, q, isOpen, batches), input);
      }
    case Flush(handles, reply, isOpen, batches) =>
      if handles { FlushExact(c, q, reply, isOpen, batches); }
    case Reinitialise => ReinitKeepsInv(c, q);
  }

  /**
   After every run: the list is the works the device has accepted followed by the works still to be
   sent, in the order they were appended and within both bounds; and every work ever appended is on the
   list or has been freed, never both and never twice.
   */
  lemma {:induction false} EveryRun(c: Config, run: Run)
    requires c.maxAtOnce >= 0 && c.queuedMax >= 0 && Exec(c, run).Some?
    ensures Inv(c, Exec(c, run).value)
  {
    match run
    case Start =>
    case Then(earlier, e) =>
      EveryRun(c, earlier);
      EventKeepsInv(c, Exec(c, earlier).value, e);
  }

  // ----- where it goes wrong -----

  const BOARD := Config(10, 5, 16, true, false)
  const NOTHING_SENT := SendInput(true, OtherReply, OtherReply)
  const ONE_SENT := SendInput(true, Queued(1, [5]), OtherReply)

  function Job(serial: nat, id: nat): Work {
    Work(serial, [], [], id)
  }

  const UNSENT := Queue([Job(0, 0)], 0, 1, false, false, false, false, 1, [], [])
  const SENT := Queue([Job(0, 5)], 1, 0, false, false, false, false, 1, [], [0])

  lemma FirstWork()
    ensures AfterAppend(BOARD, EMPTY, [], []) == UNSENT
  {
  }

  lemma FirstWorkSent()
    ensures SendDefined(BOARD, UNSENT, ONE_SENT) && SendConforms(UNSENT, ONE_SENT)
    ensures SendQueue(BOARD, UNSENT, ONE_SENT) == (SENT, true)
  {
    assert UNSENT.list == [Job(0, 0)];
    assert AssignIds(UNSENT.list, 0, 1, [5]) == SENT.list;
    assert Serials(Slice(UNSENT.list, 0, 1)) == [0] && UNSENT.delivered + [0] == SENT.delivered;
    assert FirstIdPosition(UNSENT) == 0 && GivesIds(BOARD, UNSENT, ONE_SENT.first);
    assert Answer(BOARD, UNSENT, ONE_SENT.first) == (SENT, true);
  }

  /** Both runs happen: a first work that is sent, and one that could not be. */
  lemma OneAppend()
    ensures Exec(BOARD, Then(Start, Append([], [], ONE_SENT))) == Some(SENT)
    ensures Exec(BOARD, Then(Start, Append([], [], NOTHING_SENT))) == Some(UNSENT.(wantToSend := true))
  {
    FirstWork();
    FirstWorkSent();
    assert Exec(BOARD, Start) == Some(EMPTY);
    assert SendQueue(BOARD, UNSENT, NOTHING_SENT) == (UNSENT, false);
    var sent, notSent := Append([], [], ONE_SENT), Append([], [], NOTHING_SENT);
    assert Conforms(BOARD, EMPTY, sent) && Apply(BOARD, EMPTY, sent) == SENT;
    assert Conforms(BOARD, EMPTY, notSent) && Apply(BOARD, EMPTY, notSent) == UNSENT.(wantToSend := true);
  }

  /** One job was sent under queue id 5; the device claims to have flushed job 9.  The driver drops its
      job as missing and subtracts the claimed one as well. */
  lemma UnknownFlushedJobMiscounts()
    ensures var q := QueueFlush(BOARD, SENT, true, BinaryReport(0, [9]), true, []);
            q.list == [] && q.queued == -1
  {
    var keys := QueueIds([9]);
    assert keys == [QueueId(9)] && keys[1..] == [] && FlushedPart(keys, 0) == keys;
    var unsent := DeleteLast(SENT, 0);
    assert unsent.list == [Job(0, 5)] && unsent.list[..0] == [];
    assert TableFrom(keys, 0) == map[QueueId(9) := Count(0, 1)];
    assert Reconcile(true, [], TableFrom(keys, 0)) == Reconciled([], [], [], TableFrom(keys, 0));
    assert Reconcile(true, unsent.list, TableFrom(keys, 0)).missing == unsent.list;
  }

  const BOARD_28NM := BOARD.(is28nm := true)
  const ID_FIVE := [QueueId(5)]
  const ONE_COUNTED_TWICE := TextReport(2, 0, ID_FIVE)

  lemma ReportedWorkStays()
    ensures Reconcile(true, SENT.list, TableFrom(ID_FIVE, 1)).kept == SENT.list
  {
    var keys := ID_FIVE;
    assert keys[1..] == [];
    var t := TableFrom(keys, 1);
    assert t == map[QueueId(5) := Count(1, 0)];
    assert SENT.list[..0] == [];
    var r := Reconcile(true, [], t);
    assert Reconcile(true, SENT.list, t) == ReconcileOne(true, r, Job(0, 5));
  }

  lemma NothingDeleted()
    ensures AfterDelete(BOARD_28NM, SENT, ONE_COUNTED_TWICE).list == SENT.list
  {
    var unsent := DeleteLast(SENT, 0);
    assert unsent.list == SENT.list && DeleteLast(unsent, 0).list == SENT.list;
  }

  /** A flush that removes nothing, and with which no result comes in: the device's count is taken over. */
  lemma {:induction false} QuietTextFlush(c: Config, q: Queue, n: nat, flushed: int, keys: seq<JobKey>)
    requires Counted(q) && c.is28nm && AfterDelete(c, q, TextReport(n, flushed, keys)).list == q.list
    requires Reconcile(c.byId, q.list, TableFrom(keys, |keys|)).kept == q.list
    ensures var q' := QueueFlush(c, q, true, TextReport(n, flushed, keys), true, []);
      q'.list == q.list && q'.queued == n && q'.ready == 0
  {
    hide Reconcile, TableFrom, DeleteLast, FlushCount;
  }

  /** The same board as a 28nm one.  One job was sent under queue id 5 and is in progress, and the device says
      so, but it counts two: the driver takes over the count and keeps one work. */
  lemma TextCountMiscounts()
    ensures var q := QueueFlush(BOARD_28NM, SENT, true, ONE_COUNTED_TWICE, true, []);
            q.list == SENT.list && q.queued == 2 && q.ready == 0
  {
    var c, q := BOARD_28NM, SENT;
    NothingDeleted();
    ReportedWorkStays();
    hide Reconcile, TableFrom, AfterDelete, QueueFlush, KeyOf, Counts;
    QuietTextFlush(c, q, 2, 0, ID_FIVE);
  }

  /** A send failed while nothing was on the device, and the next reply gives queue ids for two works:
      the walk over the list has no place to go after the last work. */
  lemma IdWalkCanLeaveTheList()
    ensures !AppendDefined(BOARD, UNSENT.(wantToSend := true), [], [], SendInput(true, Queued(2, [5, 6]), OtherReply))
  {
    var q := AfterAppend(BOARD, UNSENT.(wantToSend := true), [], []);
    assert |q.list| == 2 && q.ready == 2 && q.queued == 0;
    assert !IdWalkStaysOnList(q);
  }
}
