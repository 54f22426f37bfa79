/**
 The job cache of the Avalon MM driver (driver-avalonmm.c): job ids count up and wrap around after 32
 bits, the last two jobs are kept, and a result is matched to a job by its id.
 */
module AvalonJobs {
  import opened Bytes
  import opened Options

  const CACHED_JOBS := 2

  type Id = n: int | 0 <= n < TWO_TO_THE_32

  datatype Job = Job(jobid: Id, work: nat)

  /** 32-bit unsigned arithmetic. */
  function Wrap(n: int): Id {
    n % TWO_TO_THE_32
  }

  class Chain {
    const jobs: array<Option<Job>>
    var nextJobid: Id
    /** The jobs whose upload succeeded, in order. */
    ghost var uploaded: seq<Job>

    ghost predicate Valid()
      reads this, jobs
    {
      && jobs.Length == CACHED_JOBS
      && nextJobid == Wrap(|uploaded|)
      && (forall k | 0 <= k < |uploaded| :: uploaded[k].jobid == Wrap(k))
      && (forall slot | 0 <= slot < CACHED_JOBS :: jobs[slot] == Latest(uploaded, slot))
    }

    constructor ()
      ensures Valid() && uploaded == [] && fresh(jobs)
    {
      jobs := new Option<Job>[CACHED_JOBS](_ => None);
      nextJobid := 0;
      uploaded := [];
    }

    /** `sends` says whether the upload succeeds; a job that could not be uploaded leaves no trace. */
    method UpdateFromPool(work: nat, sends: bool) returns (ok: bool)
      requires Valid()
      modifies this, jobs
      ensures Valid() && ok == sends
      ensures uploaded == if sends then old(uploaded) + [Job(Wrap(|old(uploaded)|), work)] else old(uploaded)
    {
      var mmjob := Job(nextJobid, work);
      if !sends {
        return false;
      }
      nextJobid := Wrap(nextJobid + 1);
      jobs[mmjob.jobid % CACHED_JOBS] := Some(mmjob);
      WrapStep(|uploaded|);
      LatestStep(uploaded, mmjob);
      uploaded := uploaded + [mmjob];
      return true;
    }

    /** The job a result belongs to, or None for a bad id. */
    method JobFor(jobid: Id) returns (job: Option<Job>)
      requires Valid()
      ensures job.Some? <==> exists k :: IsRecent(uploaded, k) && uploaded[k].jobid == jobid
      ensures forall k | IsRecent(uploaded, k) && uploaded[k].jobid == jobid :: job == Some(uploaded[k])
    {
      var invalidJobid;
      if Wrap(nextJobid - CACHED_JOBS) > nextJobid {
        invalidJobid := jobid < Wrap(nextJobid - CACHED_JOBS) && jobid >= nextJobid;
      } else {
        invalidJobid := jobid < Wrap(nextJobid - CACHED_JOBS) || jobid >= nextJobid;
      }
      var mmjob := jobs[jobid % CACHED_JOBS];
      WindowExact(|uploaded|, jobid);
      LatestIsRecent(uploaded, jobid % CACHED_JOBS);
      RecentInSlot(uploaded, jobid);
      if invalidJobid || mmjob.None? {
        return None;
      }
      return mmjob;
    }
  }

  /** Position k is one of the last two. */
  predicate IsRecent(uploaded: seq<Job>, k: int) {
    0 <= k < |uploaded| && k >= |uploaded| - CACHED_JOBS
  }

  /** The last job whose position has the slot's parity. */
  function Latest(uploaded: seq<Job>, slot: nat): Option<Job> {
    var n := |uploaded|;
    if n >= 1 && (n - 1) % CACHED_JOBS == slot then Some(uploaded[n - 1])
    else if n >= 2 && (n - 2) % CACHED_JOBS == slot then Some(uploaded[n - 2])
    else None
  }

  lemma WrapStep(n: nat)
    ensures Wrap(Wrap(n) + 1) == Wrap(n + 1)
    ensures Wrap(n) % CACHED_JOBS == n % CACHED_JOBS
  {
    var q := n / TWO_TO_THE_32;
    assert n == TWO_TO_THE_32 * q + Wrap(n);
    assert n == CACHED_JOBS * (TWO_TO_THE_32 / CACHED_JOBS * q) + Wrap(n);
  }

  lemma LatestStep(uploaded: seq<Job>, job: Job)
    ensures forall slot: nat | slot < CACHED_JOBS ::
      (Latest(uploaded + [job], slot)
      == if slot == |uploaded| % CACHED_JOBS then Some(job) else Latest(uploaded, slot))
  {
  }

  /** The code's test, on both sides of the wrap: exactly the last two ids that were, or would have been,
      given out pass it. */
  lemma WindowExact(n: nat, jobid: Id)
    ensures var next, low := Wrap(n), Wrap(Wrap(n) - CACHED_JOBS);
      var invalid := if low > next then jobid < low && jobid >= next else jobid < low || jobid >= next;
      !invalid <==> jobid == Wrap(n - 1) || jobid == Wrap(n - 2)
  {
    var m, q := Wrap(n), n / TWO_TO_THE_32;
    assert n == TWO_TO_THE_32 * q + m;
    WrapBelow(n - 1, q, m - 1);
    WrapBelow(n - 2, q, m - 2);
    WrapBelow(m - CACHED_JOBS, 0, m - CACHED_JOBS);
    hide Wrap;
  }

  lemma WrapBelow(n: int, q: int, m: int)
    requires n == TWO_TO_THE_32 * q + m && -TWO_TO_THE_32 <= m < TWO_TO_THE_32
    ensures Wrap(n) == if m < 0 then m + TWO_TO_THE_32 else m
  {
    if m < 0 {
      assert n == TWO_TO_THE_32 * (q - 1) + (m + TWO_TO_THE_32);
    }
  }

  lemma LatestIsRecent(uploaded: seq<Job>, slot: nat)
    requires slot < CACHED_JOBS
    ensures Latest(uploaded, slot).Some? ==>
      exists k :: IsRecent(uploaded, k) && k % CACHED_JOBS == slot && Latest(uploaded, slot) == Some(uploaded[k])
  {
    var n := |uploaded|;
    if n >= 1 && (n - 1) % CACHED_JOBS == slot {
      assert IsRecent(uploaded, n - 1);
    } else if n >= 2 && (n - 2) % CACHED_JOBS == slot {
      assert IsRecent(uploaded, n - 2);
    }
  }

  lemma RecentInSlot(uploaded: seq<Job>, jobid: Id)
    requires forall k | 0 <= k < |uploaded| :: uploaded[k].jobid == Wrap(k)
    ensures forall k | IsRecent(uploaded, k) && uploaded[k].jobid == jobid ::
      Latest(uploaded, jobid % CACHED_JOBS) == Some(uploaded[k]) && (jobid == Wrap(|uploaded| - 1) || jobid == Wrap(|uploaded| - 2))
    ensures forall k | IsRecent(uploaded, k) && (jobid == Wrap(|uploaded| - 1) || jobid == Wrap(|uploaded| - 2))
      && k % CACHED_JOBS == jobid % CACHED_JOBS :: uploaded[k].jobid == jobid
  {
    forall k | IsRecent(uploaded, k)
      ensures uploaded[k].jobid == Wrap(k) && Wrap(k) % CACHED_JOBS == k % CACHED_JOBS
    {
      WrapStep(k);
    }
    if |uploaded| >= 1 { WrapStep(|uploaded| - 1); }
    if |uploaded| >= 2 { WrapStep(|uploaded| - 2); }
  }
}
