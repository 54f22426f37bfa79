/**
 The bytes of the packet in which jobs are offered to a BitForce board.  BitForcePacket proves that the packet written
 backwards is the one a reader takes apart; here each byte has its place.
 */
module BitForceWire {
  import opened Bytes
  import opened BitForceFlush
  import opened BitForcePacket

  /** Where job i begins behind the header: 46 bytes a job on a 65nm board, 45 on others. */
  function Offset(style: Style, i: nat): nat {
    if style.Style65nm? then 46 * i else 45 * i
  }

  function HeaderLength(style: Style): nat {
    if style.Style65nm? then 3 else 6
  }

  function JobLength(style: Style): nat {
    if style.Style65nm? then 46 else 45
  }

  lemma SliceOfSum(a: seq<byte>, b: seq<byte>, from: nat, n: nat)
    requires from + n <= |b|
    ensures (a + b)[|a| + from..|a| + from + n] == b[from..from + n]
  {
  }

  lemma {:induction false} JobInBody(style: Style, jobs: seq<Work>, i: nat)
    requires AllWellFormed(jobs) && i < |jobs|
    ensures Offset(style, i) + JobLength(style) < |Body(style, jobs)|
    ensures Body(style, jobs)[Offset(style, i)..Offset(style, i) + JobLength(style)] == EncodeJob(style, jobs[i])
  {
    var first, rest := EncodeJob(style, jobs[0]), Body(style, jobs[1..]);
    assert Body(style, jobs) == first + rest && |first| == JobLength(style);
    BodySize(style, jobs[1..]);
    hide Body, EncodeJob;
    if i > 0 {
      JobInBody(style, jobs[1..], i - 1);
      SliceOfSum(first, rest, Offset(style, i - 1), JobLength(style));
    } else {
      assert (first + rest)[..|first|] == first;
    }
  }

  lemma {:induction false} BodyEnd(style: Style, jobs: seq<Work>)
    requires AllWellFormed(jobs)
    ensures var body := Body(style, jobs);
      |body| == Offset(style, |jobs|) + 1 && body[|body| - 1] == 0xfe
  {
    BodySize(style, jobs);
    if jobs != [] {
      BodyEnd(style, jobs[1..]);
    }
  }

  /** A job: the number of its bytes on a 65nm board, its midstate, the end of its data, and a closing byte. */
  lemma JobLayout(style: Style, job: Work)
    requires WellFormed(job)
    ensures var bytes := EncodeJob(style, job);
      |bytes| == JobLength(style) && bytes[|bytes| - 1] == 0xaa &&
      (if style.Style65nm? then bytes[0] == 45 && bytes[1..33] == job.midstate && bytes[33..45] == job.tail
       else bytes[..32] == job.midstate && bytes[32..44] == job.tail)
  {
  }

  lemma {:induction false} HeaderLayout(style: Style, jobs: seq<Work>)
    requires AllWellFormed(jobs)
    ensures var p, h := Packet(style, jobs), HeaderLength(style);
      |p| == h + Offset(style, |jobs|) + 1 && p[h..] == Body(style, jobs) && p[h - 2] == 0xc1 && p[h - 1] == |jobs| % 256 &&
      (if style.Style65nm? then p[0] == (|p| - 1) % 256
       else p[0] as char == 'W' && p[1] as char == 'X' && p[2] == |p| % 256 && p[3] == |p| / 256 % 256)
  {
    BodySize(style, jobs);
    hide Body;
  }

  lemma SliceOfSlice(p: seq<byte>, from: nat, n: nat, a: nat, b: nat)
    requires a <= b <= n && from + n <= |p|
    ensures p[from..from + n][a..b] == p[from + a..from + b]
  {
    var part := p[from..from + n];
    assert forall k | a <= k < b :: part[k] == p[from + k];
  }

  lemma LastByte(style: Style, jobs: seq<Work>)
    requires AllWellFormed(jobs)
    ensures var p := Packet(style, jobs); |p| > 0 && p[|p| - 1] == 0xfe
  {
    HeaderLayout(style, jobs);
    BodyEnd(style, jobs);
    hide Body, Packet;
    var p, h := Packet(style, jobs), HeaderLength(style);
    assert p[h..][|p[h..]| - 1] == p[|p| - 1];
  }

  lemma JobInPacket(style: Style, jobs: seq<Work>, i: nat)
    requires AllWellFormed(jobs) && i < |jobs|
    ensures var p, at := Packet(style, jobs), HeaderLength(style) + Offset(style, i);
      at + JobLength(style) < |p| && p[at..at + JobLength(style)] == EncodeJob(style, jobs[i])
  {
    HeaderLayout(style, jobs);
    JobInBody(style, jobs, i);
    hide Body, Packet, EncodeJob, Offset, JobLength, AllWellFormed;
    var p, h := Packet(style, jobs), HeaderLength(style);
    assert |p[h..]| == |p| - h;
    SliceOfSum(p[..h], p[h..], Offset(style, i), JobLength(style));
    assert p == p[..h] + p[h..];
  }

  /** The whole packet: its length (behind WX on a 28nm board), 0xc1, the number of jobs, the jobs in order, 0xfe. */
  lemma PacketLayout(style: Style, jobs: seq<Work>, i: nat)
    requires AllWellFormed(jobs) && i < |jobs|
    ensures var p, at := Packet(style, jobs), if style.Style65nm? then 3 + 46 * i + 1 else 6 + 45 * i;
      at + 45 < |p| && p[at..at + 32] == jobs[i].midstate && p[at + 32..at + 44] == jobs[i].tail && p[at + 44] == 0xaa &&
      (style.Style65nm? ==> p[at - 1] == 45) && p[|p| - 1] == 0xfe
  {
    JobInPacket(style, jobs, i);
    LastByte(style, jobs);
    JobLayout(style, jobs[i]);
    hide Packet, EncodeJob;
    var p, from, n := Packet(style, jobs), HeaderLength(style) + Offset(style, i), JobLength(style);
    var job := p[from..from + n];
    assert job[n - 1] == p[from + n - 1] && job[0] == p[from];
    SliceOfSlice(p, from, n, n - 45, n - 13);
    SliceOfSlice(p, from, n, n - 13, n - 1);
  }

  /** For a board that takes one job at a time, the packet without its header and its last byte is the job. */
  lemma SingleJob(job: Work)
    requires WellFormed(job)
    ensures var p := Packet(Style65nm, [job]);
      |p| == 50 && p[3..3 + |p| - 4] == EncodeJob(Style65nm, job)
  {
    var jobs := [job];
    HeaderLayout(Style65nm, jobs);
    JobInPacket(Style65nm, jobs, 0);
    hide Packet, Body, EncodeJob;
  }
}
