/**
 Works of the BitForce queue driver, and the reconciliation of its work list with what the device
 reports after a flush (driver-bitforce.c).
 */
module BitForceFlush {
  import opened Bytes


  /** How the device names a job: by the id it gave out, or by the midstate and data tail it was sent. */
  datatype JobKey = QueueId(id: nat) | Header(midstate: seq<byte>, tail: seq<byte>)

  /** A work on the list.  `serial` tells works apart; the device never sees it. */
  datatype Work = Work(serial: nat, midstate: seq<byte>, tail: seq<byte>, deviceId: nat)

  function KeyOf(byId: bool, w: Work): JobKey {
    if byId then QueueId(w.deviceId) else Header(w.midstate, w.tail)
  }

  function KeysOf(byId: bool, works: seq<Work>): (keys: seq<JobKey>)
    ensures |keys| == |works|
    ensures forall i | 0 <= i < |works| :: keys[i] == KeyOf(byId, works[i])
  {
    seq(|works|, i requires 0 <= i < |works| => KeyOf(byId, works[i]))
  }

  /** struct _jobinfo: how often the device said a key is in progress, and how often flushed. */
  datatype Count = Count(instances: nat, flushed: nat)

  type Table = map<JobKey, Count>

  function AddToProcessing(t: Table, key: JobKey, wasFlushed: bool): Table {
    var item := if key in t then t[key] else Count(0, 0);
    t[key := if wasFlushed then item.(flushed := item.flushed + 1) else item.(instances := item.instances + 1)]
  }

  /** The table counts the jobs in progress and the flushed jobs, and has no empty entries. */
  ghost predicate Counts(t: Table, inProgress: multiset<JobKey>, flushed: multiset<JobKey>) {
    forall key ::
      && (key in t <==> inProgress[key] + flushed[key] > 0)
      && (key in t ==> t[key] == Count(inProgress[key], flushed[key]))
  }

  lemma AddToProcessingCounts(t: Table, inProgress: multiset<JobKey>, flushed: multiset<JobKey>, key: JobKey, wasFlushed: bool)
    requires Counts(t, inProgress, flushed)
    ensures if wasFlushed
            then Counts(AddToProcessing(t, key, wasFlushed), inProgress, flushed + multiset{key})
            else Counts(AddToProcessing(t, key, wasFlushed), inProgress + multiset{key}, flushed)
  {
  }

  /** What the sanity check does with each work: keep it, drop it as flushed, drop it as missing. */
  datatype Reconciled = Reconciled(kept: seq<Work>, flushed: seq<Work>, missing: seq<Work>, table: Table)

  /** Takes one instance of a key that the table has. */
  function TakeInstance(t: Table, key: JobKey): Table
    requires key in t
  {
    var item := if t[key].instances > 0 then t[key].(instances := t[key].instances - 1)
                else if t[key].flushed > 0 then t[key].(flushed := t[key].flushed - 1)
                else t[key];
    if item.instances + item.flushed == 0 then t - {key} else t[key := item]
  }

  function Reconcile(byId: bool, works: seq<Work>, t: Table): Reconciled
  {
    if works == [] then Reconciled([], [], [], t)
    else
      var before := Reconcile(byId, works[..|works| - 1], t);
      ReconcileOne(byId, before, works[|works| - 1])
  }

  function ReconcileOne(byId: bool, r: Reconciled, w: Work): Reconciled {
    var key := KeyOf(byId, w);
    if key !in r.table then r.(missing := r.missing + [w])
    else if r.table[key].instances > 0 then r.(kept := r.kept + [w], table := TakeInstance(r.table, key))
    else r.(flushed := r.flushed + [w], table := TakeInstance(r.table, key))
  }

  /** The keys of a list of works, with multiplicity. */
  ghost function KeyBag(byId: bool, works: seq<Work>): multiset<JobKey> {
    multiset(KeysOf(byId, works))
  }

  lemma KeyBagAppend(byId: bool, works: seq<Work>, w: Work)
    ensures KeyBag(byId, works + [w]) == KeyBag(byId, works) + multiset{KeyOf(byId, w)}
    ensures |KeyBag(byId, works)| == |works|
  {
    assert KeysOf(byId, works + [w]) == KeysOf(byId, works) + [KeyOf(byId, w)];
  }

  lemma KeyBagLast(byId: bool, works: seq<Work>)
    requires works != []
    ensures KeyBag(byId, works) == KeyBag(byId, works[..|works| - 1]) + multiset{KeyOf(byId, works[|works| - 1])}
  {
    assert works == works[..|works| - 1] + [works[|works| - 1]];
    KeyBagAppend(byId, works[..|works| - 1], works[|works| - 1]);
  }

  /** The outcome that exact multiset matching prescribes for a list with the given keys. */
  ghost predicate Matches(byId: bool, r: Reconciled, listed: multiset<JobKey>,
                          inProgress: multiset<JobKey>, flushed: multiset<JobKey>) {
    && KeyBag(byId, r.kept) == listed * inProgress
    && KeyBag(byId, r.flushed) == (listed - inProgress) * flushed
    && KeyBag(byId, r.missing) == listed - inProgress - flushed
    && Counts(r.table, inProgress - listed, flushed - (listed - inProgress))
  }

  lemma OneMoreKept<T>(l: multiset<T>, p: multiset<T>, k: T)
    requires l[k] < p[k]
    ensures (l + multiset{k}) * p == l * p + multiset{k}
    ensures l + multiset{k} - p == l - p
    ensures p - (l + multiset{k}) == (p - l) - multiset{k} && (p - l)[k] > 0
  {
  }

  lemma OneMoreDropped<T>(l: multiset<T>, p: multiset<T>, k: T)
    requires l[k] >= p[k]
    ensures (l + multiset{k}) * p == l * p
    ensures l + multiset{k} - p == (l - p) + multiset{k}
    ensures p - (l + multiset{k}) == p - l && (p - l)[k] == 0
  {
  }

  lemma TakeInstanceCounts(t: Table, p: multiset<JobKey>, f: multiset<JobKey>, key: JobKey)
    requires Counts(t, p, f) && key in t
    ensures if p[key] > 0 then Counts(TakeInstance(t, key), p - multiset{key}, f)
            else f[key] > 0 && Counts(TakeInstance(t, key), p, f - multiset{key})
  {
    var t' := TakeInstance(t, key);
    if p[key] > 0 {
      var p' := p - multiset{key};
      forall k ensures (k in t' <==> p'[k] + f[k] > 0) && (k in t' ==> t'[k] == Count(p'[k], f[k])) {
        assert k in t <==> p[k] + f[k] > 0;
      }
    } else {
      var f' := f - multiset{key};
      forall k ensures (k in t' <==> p[k] + f'[k] > 0) && (k in t' ==> t'[k] == Count(p[k], f'[k])) {
        assert k in t <==> p[k] + f[k] > 0;
      }
    }
  }

  lemma ReconcileOneMatches(byId: bool, r: Reconciled, w: Work, listed: multiset<JobKey>,
                            inProgress: multiset<JobKey>, flushed: multiset<JobKey>)
    requires Matches(byId, r, listed, inProgress, flushed)
    ensures Matches(byId, ReconcileOne(byId, r, w), listed + multiset{KeyOf(byId, w)}, inProgress, flushed)
  {
    var key := KeyOf(byId, w);
    var rest := listed - inProgress;
    assert key in r.table <==> (inProgress - listed)[key] + (flushed - rest)[key] > 0;
    KeyBagAppend(byId, r.kept, w);
    KeyBagAppend(byId, r.flushed, w);
    KeyBagAppend(byId, r.missing, w);
    if listed[key] < inProgress[key] {
      OneMoreKept(listed, inProgress, key);
      TakeInstanceCounts(r.table, inProgress - listed, flushed - rest, key);
    } else {
      OneMoreDropped(listed, inProgress, key);
      if rest[key] < flushed[key] {
        OneMoreKept(rest, flushed, key);
        TakeInstanceCounts(r.table, inProgress - listed, flushed - rest, key);
      } else {
        OneMoreDropped(rest, flushed, key);
      }
    }
  }

  /**
   The reconciliation is exact multiset matching.  Per key, as many works as the device has in
   progress are kept, as many of the rest as it flushed are dropped as flushed, and what then remains
   is missing; the table is left with what the list did not account for.
   */
  lemma {:induction false} ReconcileMatches(byId: bool, works: seq<Work>, t: Table,
                                            inProgress: multiset<JobKey>, flushed: multiset<JobKey>)
    requires Counts(t, inProgress, flushed)
    ensures Matches(byId, Reconcile(byId, works, t), KeyBag(byId, works), inProgress, flushed)
  {
    if works == [] {
      assert KeyBag(byId, works) == multiset{};
    } else {
      var earlier := works[..|works| - 1];
      ReconcileMatches(byId, earlier, t, inProgress, flushed);
      KeyBagLast(byId, works);
      ReconcileOneMatches(byId, Reconcile(byId, earlier, t), works[|works| - 1], KeyBag(byId, earlier), inProgress, flushed);
    }
  }

  datatype Verdict = Keep | Flushed | Missing

  /** Which of the equal-keyed works are kept: the first ones in list order. */
  ghost function VerdictOn(byId: bool, earlier: seq<Work>, w: Work, inProgress: multiset<JobKey>,
                           flushed: multiset<JobKey>): Verdict {
    var key := KeyOf(byId, w);
    var rank := KeyBag(byId, earlier)[key];
    if rank < inProgress[key] then Keep else if rank < inProgress[key] + flushed[key] then Flushed else Missing
  }

  lemma FirstComeFirstKept(byId: bool, earlier: seq<Work>, w: Work, t: Table,
                           inProgress: multiset<JobKey>, flushed: multiset<JobKey>)
    requires Counts(t, inProgress, flushed)
    ensures var r := Reconcile(byId, earlier, t);
      var r' := Reconcile(byId, earlier + [w], t);
      match VerdictOn(byId, earlier, w, inProgress, flushed)
      case Keep => r'.kept == r.kept + [w] && r'.flushed == r.flushed && r'.missing == r.missing
      case Flushed => r'.kept == r.kept && r'.flushed == r.flushed + [w] && r'.missing == r.missing
      case Missing => r'.kept == r.kept && r'.flushed == r.flushed && r'.missing == r.missing + [w]
  {
    assert (earlier + [w])[..|earlier + [w]| - 1] == earlier;
    ReconcileMatches(byId, earlier, t, inProgress, flushed);
    var key, listed := KeyOf(byId, w), KeyBag(byId, earlier);
    assert key in Reconcile(byId, earlier, t).table
      <==> (inProgress - listed)[key] + (flushed - (listed - inProgress))[key] > 0;
  }

  /** A multiset takes all of another exactly when it contains it. */
  lemma IntersectionSize<T>(a: multiset<T>, b: multiset<T>)
    ensures |a * b| == |b| <==> b <= a
    ensures |a * b| <= |b|
  {
    assert b == (a * b) + (b - a);
    if b <= a {
      assert a * b == b;
    } else {
      var x :| b[x] > a[x];
      assert (b - a)[x] > 0;
      assert |b - a| > 0;
    }
  }
}
