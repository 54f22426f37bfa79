/**
 How devices and their processors are numbered: deviceapi.c registers them, api.c maps between array
 positions and the numbers that RPC clients use.
 */
module DeviceNumbering {
  import opened Options

  /** A processor, with the positions of its device's first processor and of the next processor of its
      device.  Ids are positions in the device array. */
  datatype Proc = Proc(device: nat, procId: nat, threads: int, next: Option<nat>)

  /** A device: how many processors it asks for (0 means one) and how many threads it has. */
  datatype Device = Device(procs: nat, threads: nat)

  function ProcCount(d: Device): nat {
    if d.procs == 0 then 1 else d.procs
  }

  function ThreadsOf(procs: seq<Proc>): int {
    if procs == [] then 0 else ThreadsOf(procs[..|procs| - 1]) + procs[|procs| - 1].threads
  }

  lemma {:induction false} ThreadsConcat(a: seq<Proc>, b: seq<Proc>)
    ensures ThreadsOf(a + b) == ThreadsOf(a) + ThreadsOf(b)
  {
    if b == [] {
      assert a + b == a;
    } else {
      assert (a + b)[..|a + b| - 1] == a + b[..|b| - 1];
      ThreadsConcat(a, b[..|b| - 1]);
    }
  }

  /** procs[at..] are one device: the head first, then its other processors in order. */
  predicate OneDevice(procs: seq<Proc>, at: nat, n: nat) {
    && n > 0 && at + n <= |procs|
    && forall i | at <= i < at + n ::
         && procs[i].device == at && procs[i].procId == i - at
         && procs[i].next == if i + 1 < at + n then Some(i + 1) else None
  }

  /** The array is the registered devices one after another, each contiguous. */
  ghost predicate Registered(procs: seq<Proc>, devices: seq<Device>)
    decreases |devices|
  {
    if devices == [] then procs == []
    else
      var n := ProcCount(devices[|devices| - 1]);
      && n <= |procs|
      && Registered(procs[..|procs| - n], devices[..|devices| - 1])
      && OneDevice(procs, |procs| - n, n)
      && ThreadsOf(procs[|procs| - n..]) == devices[|devices| - 1].threads
  }

  lemma DeviceThreads(procs: seq<Proc>, at: nat, threads: int)
    requires at < |procs| && procs[at].threads + ThreadsOf(procs[at + 1..]) == threads
    ensures ThreadsOf(procs[at..]) == threads
  {
    HeadAndSlaves(procs[at..]);
    assert procs[at..][1..] == procs[at + 1..];
  }

  lemma {:induction false} RegisterLast(procs: seq<Proc>, at: nat, devices: seq<Device>, d: Device)
    requires at <= |procs| && devices != [] && devices[|devices| - 1] == d
    requires Registered(procs[..at], devices[..|devices| - 1])
    requires |procs| == at + ProcCount(d) && OneDevice(procs, at, ProcCount(d)) && ThreadsOf(procs[at..]) == d.threads
    ensures Registered(procs, devices)
  {
  }

  class Registry {
    var procs: seq<Proc>
    ghost var devices: seq<Device>

    ghost predicate Valid()
      reads this
    {
      Registered(procs, devices)
    }

    constructor ()
      ensures Valid() && devices == []
    {
      procs, devices := [], [];
    }

    method AddCgpu(d: Device)
      requires Valid()
      modifies this
      ensures Valid() && devices == old(devices) + [d]
      ensures |procs| == |old(procs)| + ProcCount(d) && procs[..|old(procs)|] == old(procs)
      ensures forall i | |old(procs)| < i < |procs| :: procs[i].threads == d.threads / ProcCount(d)
    {
      hide Registered, ThreadsOf;
      var lpcount := if d.procs == 0 then 1 else d.procs;
      var at := |procs|;
      procs := procs + [Proc(at, 0, d.threads, None)];
      if lpcount > 1 {
        var tpp := d.threads / lpcount;
        AddSlaves(at, lpcount, tpp);
        procs := procs[at := procs[at].(threads := procs[at].threads - tpp * (lpcount - 1))];
        SlaveThreads(procs[at + 1..], tpp);
      } else {
        SlaveThreads(procs[at + 1..], 0);
      }
      DeviceThreads(procs, at, d.threads);
      devices := devices + [d];
      assert procs[..at] == old(procs) && devices[..|devices| - 1] == old(devices);
      RegisterLast(procs, at, devices, d);
    }

    /** The other processors, each linked from the one before. */
    method AddSlaves(at: nat, lpcount: nat, tpp: nat)
      requires lpcount > 0 && |procs| == at + 1 && OneDevice(procs, at, 1)
      modifies this`procs
      ensures |procs| == at + lpcount && OneDevice(procs, at, lpcount)
      ensures procs[..at] == old(procs[..at]) && procs[at].threads == old(procs[at].threads)
      ensures forall k | at < k < at + lpcount :: procs[k].threads == tpp
    {
      var last := at;
      for i := 1 to lpcount
        invariant last == at + i - 1 && |procs| == at + i
        invariant procs[..at] == old(procs[..at]) && procs[at].threads == old(procs[at].threads)
        invariant OneDevice(procs, at, i)
        invariant forall k | at < k < at + i :: procs[k].threads == tpp
      {
        procs := procs + [Proc(at, i, tpp, None)];
        procs := procs[last := procs[last].(next := Some(at + i))];
        last := at + i;
      }
    }
  }

  lemma {:induction false} HeadAndSlaves(procs: seq<Proc>)
    requires procs != []
    ensures ThreadsOf(procs) == procs[0].threads + ThreadsOf(procs[1..])
  {
    ThreadsConcat(procs[..1], procs[1..]);
    assert procs == procs[..1] + procs[1..] && procs[..1][..0] == [];
  }

  lemma {:induction false} SlaveThreads(slaves: seq<Proc>, tpp: int)
    requires forall i | 0 <= i < |slaves| :: slaves[i].threads == tpp
    ensures ThreadsOf(slaves) == tpp * |slaves|
  {
    if slaves != [] {
      SlaveThreads(slaves[..|slaves| - 1], tpp);
      assert tpp * |slaves| == tpp * (|slaves| - 1) + tpp;
    }
  }

  function TotalThreads(devices: seq<Device>): nat {
    if devices == [] then 0 else TotalThreads(devices[..|devices| - 1]) + devices[|devices| - 1].threads
  }

  /** Dividing a device's threads among its processors neither adds nor loses any. */
  lemma {:induction false} ThreadsConserved(procs: seq<Proc>, devices: seq<Device>)
    requires Registered(procs, devices)
    ensures ThreadsOf(procs) == TotalThreads(devices)
    decreases |devices|
  {
    if devices != [] {
      var at := |procs| - ProcCount(devices[|devices| - 1]);
      ThreadsConserved(procs[..at], devices[..|devices| - 1]);
      ThreadsConcat(procs[..at], procs[at..]);
      assert procs == procs[..at] + procs[at..];
    }
  }

  /** How many processors the devices have: what they ask for, and at least one each. */
  function ProcessorsOf(devices: seq<Device>): nat {
    if devices == [] then 0
    else
      var d := devices[|devices| - 1];
      ProcessorsOf(devices[..|devices| - 1]) + if d.procs >= 1 then d.procs else 1
  }

  lemma {:induction false} AllRegistered(procs: seq<Proc>, devices: seq<Device>)
    requires Registered(procs, devices)
    ensures |procs| == ProcessorsOf(devices)
    decreases |devices|
  {
    if devices != [] {
      AllRegistered(procs[..|procs| - ProcCount(devices[|devices| - 1])], devices[..|devices| - 1]);
    }
  }

  /** The processors that are reached from one by following the links. */
  function Linked(procs: seq<Proc>, i: nat): (r: seq<nat>)
    requires i < |procs|
    decreases |procs| - i
  {
    match procs[i].next
    case None => [i]
    case Some(j) => if i < j < |procs| then [i] + Linked(procs, j) else [i]
  }

  function Range(from: nat, n: nat): seq<nat>
    decreases n
  {
    if n == 0 then [] else [from] + Range(from + 1, n - 1)
  }

  lemma {:induction false} LinksOfDevice(procs: seq<Proc>, at: nat, n: nat, k: nat)
    requires OneDevice(procs, at, n) && k < n
    ensures Linked(procs, at + k) == Range(at + k, n - k)
    decreases n - k
  {
    if k + 1 < n {
      LinksOfDevice(procs, at, n, k + 1);
    }
  }

  lemma {:induction false} DevicePlace(procs: seq<Proc>, devices: seq<Device>, k: nat)
    requires Registered(procs, devices) && k < |devices|
    ensures OneDevice(procs, ProcessorsOf(devices[..k]), ProcCount(devices[k]))
    decreases |devices|
  {
    var at := |procs| - ProcCount(devices[|devices| - 1]);
    AllRegistered(procs[..at], devices[..|devices| - 1]);
    if k < |devices| - 1 {
      DevicePlace(procs[..at], devices[..|devices| - 1], k);
      assert devices[..|devices| - 1][..k] == devices[..k];
      SameDevice(procs, at, ProcessorsOf(devices[..k]), ProcCount(devices[k]));
    }
  }

  lemma SameDevice(procs: seq<Proc>, m: nat, at: nat, n: nat)
    requires m <= |procs| && OneDevice(procs[..m], at, n)
    ensures OneDevice(procs, at, n)
  {
    assert forall i | at <= i < at + n :: procs[..m][i] == procs[i];
  }

  /** Following the links from the head of a device visits all its processors in order, and no others; the heads come
      one after another, each behind the processors of the devices before it. */
  lemma {:induction false} LinksVisitDevice(procs: seq<Proc>, devices: seq<Device>, k: nat)
    requires Registered(procs, devices) && k < |devices|
    ensures var at, n := ProcessorsOf(devices[..k]), if devices[k].procs >= 1 then devices[k].procs else 1;
      at + n <= |procs| && Linked(procs, at) == Range(at, n) &&
      forall i | at <= i < at + n :: procs[i].device == at && procs[i].procId == i - at
  {
    DevicePlace(procs, devices, k);
    LinksOfDevice(procs, ProcessorsOf(devices[..k]), ProcCount(devices[k]), 0);
  }

  // ----- numbers for RPC clients -----

  /** What the maps rely on: processors of a device are contiguous, the head first. */
  ghost predicate Contiguous(procs: seq<Proc>) {
    forall i | 0 <= i < |procs| :: HeadOf(procs, i)
  }

  predicate HeadOf(procs: seq<Proc>, i: nat)
    requires i < |procs|
  {
    && procs[i].device <= i
    && forall k | procs[i].device <= k <= i :: procs[k].device == procs[i].device
  }

  lemma {:induction false} RegisteredIsContiguous(procs: seq<Proc>, devices: seq<Device>)
    requires Registered(procs, devices)
    ensures Contiguous(procs)
    decreases |devices|
  {
    if devices != [] {
      var at := |procs| - ProcCount(devices[|devices| - 1]);
      RegisteredIsContiguous(procs[..at], devices[..|devices| - 1]);
      forall i | 0 <= i < |procs| ensures HeadOf(procs, i) {
        if i < at {
          assert HeadOf(procs[..at], i);
          forall k | procs[i].device <= k <= i ensures procs[k].device == procs[i].device {
            assert procs[..at][k].device == procs[..at][i].device;
          }
        }
      }
    }
  }

  /** Clients see processors, or devices by their first processors. */
  predicate Visible(procs: seq<Proc>, i: nat, perProc: bool)
    requires i < |procs|
  {
    perProc || procs[i].device == i
  }

  /** How many of the first n entries clients see. */
  function VisibleBefore(procs: seq<Proc>, n: nat, perProc: bool): (r: nat)
    requires n <= |procs|
    ensures r <= n
  {
    if n == 0 then 0 else VisibleBefore(procs, n - 1, perProc) + if Visible(procs, n - 1, perProc) then 1 else 0
  }

  method NumPgas(procs: seq<Proc>, perProc: bool) returns (count: nat)
    ensures count == VisibleBefore(procs, |procs|, perProc)
  {
    count := 0;
    for i := 0 to |procs|
      invariant count == VisibleBefore(procs, i, perProc)
    {
      if procs[i].device != i && !perProc {
        continue;
      }
      count := count + 1;
    }
  }

  /** The position that a client's number stands for. */
  predicate IsPga(procs: seq<Proc>, id: int, i: int, perProc: bool) {
    0 <= i < |procs| && Visible(procs, i, perProc) && VisibleBefore(procs, i, perProc) == id
  }

  method PgaDevice(procs: seq<Proc>, id: int, perProc: bool) returns (i: int)
    ensures if 0 <= id < VisibleBefore(procs, |procs|, perProc) then IsPga(procs, id, i, perProc) else i == -1
  {
    var count := 0;
    for k := 0 to |procs|
      invariant count == VisibleBefore(procs, k, perProc)
      invariant id < 0 || count <= id
    {
      if procs[k].device != k && !perProc {
        continue;
      }
      count := count + 1;
      if count == id + 1 {
        VisibleMonotone(procs, k + 1, |procs|, perProc);
        return k;
      }
    }
    return -1;
  }

  lemma {:induction false} VisibleMonotone(procs: seq<Proc>, m: nat, n: nat, perProc: bool)
    requires m <= n <= |procs|
    ensures VisibleBefore(procs, m, perProc) <= VisibleBefore(procs, n, perProc)
  {
    if m < n {
      VisibleMonotone(procs, m, n - 1, perProc);
    }
  }

  /** The number of a processor's device: how many devices come before it. */
  function IndexOf(procs: seq<Proc>, cgpu: nat, perProc: bool): nat
    requires cgpu < |procs| && Contiguous(procs)
  {
    assert HeadOf(procs, cgpu);
    if perProc then cgpu else VisibleBefore(procs, procs[cgpu].device, false)
  }

  /** Walks back from head to head, counting devices. */
  method FindIndex(procs: seq<Proc>, cgpu: nat, perProc: bool) returns (n: nat)
    requires cgpu < |procs| && Contiguous(procs)
    ensures n == IndexOf(procs, cgpu, perProc)
  {
    if perProc {
      return cgpu;
    }
    n := 0;
    var at := cgpu;
    assert HeadOf(procs, at);
    var i := procs[at].device;
    while i != 0
      invariant 0 <= i <= at < |procs| && i == procs[at].device && procs[i].device == i
      invariant n + VisibleBefore(procs, i, false) == IndexOf(procs, cgpu, false)
      decreases i
    {
      at := i - 1;
      n := n + 1;
      assert HeadOf(procs, at);
      i := procs[at].device;
      OneHead(procs, at);
    }
  }

  /** Among the processors of a device up to one of them, clients see one: the head. */
  lemma {:induction false} OneHead(procs: seq<Proc>, at: nat)
    requires at < |procs| && Contiguous(procs)
    ensures procs[at].device <= at && procs[procs[at].device].device == procs[at].device
    ensures 0 <= procs[at].device < |procs|
    ensures VisibleBefore(procs, at + 1, false) == VisibleBefore(procs, procs[at].device, false) + 1
  {
    assert HeadOf(procs, at);
    NoMoreHeads(procs, procs[at].device, at);
  }

  lemma {:induction false} NoMoreHeads(procs: seq<Proc>, head: nat, at: nat)
    requires head <= at < |procs| && forall k | head <= k <= at :: procs[k].device == head
    ensures VisibleBefore(procs, at + 1, false) == VisibleBefore(procs, head, false) + 1
  {
    if head < at {
      NoMoreHeads(procs, head, at - 1);
    }
  }

  lemma {:induction false} AllVisible(procs: seq<Proc>, n: nat)
    requires n <= |procs|
    ensures VisibleBefore(procs, n, true) == n
  {
    if n > 0 {
      AllVisible(procs, n - 1);
    }
  }

  /** The maps are inverse: a client's number leads to a position that has that number, and the number of
      any processor leads back to it, or to the head of its device. */
  lemma MapsAreInverse(procs: seq<Proc>, perProc: bool)
    requires Contiguous(procs)
    ensures forall id, i | IsPga(procs, id, i, perProc) :: IndexOf(procs, i, perProc) == id
    ensures forall i | 0 <= i < |procs| ::
      IsPga(procs, IndexOf(procs, i, perProc), if perProc then i else procs[i].device, perProc)
  {
    forall id, i | IsPga(procs, id, i, perProc) ensures IndexOf(procs, i, perProc) == id {
      if perProc { AllVisible(procs, i); }
    }
    forall i | 0 <= i < |procs|
      ensures IsPga(procs, IndexOf(procs, i, perProc), if perProc then i else procs[i].device, perProc)
    {
      if perProc { AllVisible(procs, i); } else { OneHead(procs, i); }
    }
  }

  /** A number stands for one position only. */
  lemma PgaIsUnique(procs: seq<Proc>, id: int, i: int, j: int, perProc: bool)
    requires IsPga(procs, id, i, perProc) && IsPga(procs, id, j, perProc)
    ensures i == j
  {
    if i < j { VisibleMonotone(procs, i + 1, j, perProc); }
    if j < i { VisibleMonotone(procs, j + 1, i, perProc); }
  }
}
