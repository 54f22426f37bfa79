/**
 The packet in which the BitForce queue driver offers jobs to the device (driver-bitforce.c).  It is
 written from its last byte to its first while the work list is walked backwards, so that the number of
 bytes in front of the jobs can differ between the two board styles.
 */
module BitForcePacket {
  import opened Bytes
  import opened Options
  import opened BitForceFlush

  const MIDSTATE_SIZE := 32
  const TAIL_SIZE := 12

  predicate WellFormed(work: Work) {
    |work.midstate| == MIDSTATE_SIZE && |work.tail| == TAIL_SIZE
  }

  predicate AllWellFormed(works: seq<Work>) {
    forall i | 0 <= i < |works| :: WellFormed(works[i])
  }

  datatype Style = Style65nm | Style28nm

  function JobSize(style: Style): nat {
    if style.Style65nm? then 46 else 45
  }

  function JobsSize(style: Style, count: nat): nat {
    if style.Style65nm? then 46 * count else 45 * count
  }

  /** The size the driver computes before it writes anything. */
  function PacketSize(style: Style, count: nat): nat {
    7 + JobsSize(style, count) - if style.Style65nm? then 3 else 0
  }

  function EncodeJob(style: Style, job: Work): seq<byte> {
    (if style.Style65nm? then [45] else []) + job.midstate + job.tail + [0xaa]
  }

  /** The jobs and the closing byte. */
  function Body(style: Style, jobs: seq<Work>): seq<byte> {
    if jobs == [] then [0xfe] else EncodeJob(style, jobs[0]) + Body(style, jobs[1..])
  }

  function LengthField(style: Style, size: nat): seq<byte>
    requires size > 0
  {
    if style.Style65nm? then [Low(size - 1)] else [0x57, 0x58, Low(size), Low(size / 256)]
  }

  function HeaderSize(style: Style): nat {
    if style.Style65nm? then 3 else 6
  }

  /** The packet read forwards. */
  function Packet(style: Style, jobs: seq<Work>): seq<byte> {
    LengthField(style, PacketSize(style, |jobs|)) + ([0xc1, Low(|jobs|)] + Body(style, jobs))
  }

  // ----- building the packet backwards -----

  lemma {:induction false} BodySize(style: Style, jobs: seq<Work>)
    requires AllWellFormed(jobs)
    ensures |Body(style, jobs)| == JobsSize(style, |jobs|) + 1
  {
    if jobs != [] {
      BodySize(style, jobs[1..]);
      assert |EncodeJob(style, jobs[0])| == JobSize(style);
    }
  }

  /** Writes bytes in front of what has been written so far; `end` is where that begins. */
  method WriteBefore(buf: array<byte>, end: nat, bytes: seq<byte>) returns (start: nat)
    requires |bytes| <= end <= buf.Length
    modifies buf
    ensures start == end - |bytes|
    ensures buf[start..] == bytes + old(buf[end..])
  {
    start := end - |bytes|;
    forall i | 0 <= i < |bytes| {
      buf[start + i] := bytes[i];
    }
  }

  method WriteJobBefore(style: Style, buf: array<byte>, end: nat, work: Work) returns (start: nat)
    requires WellFormed(work) && JobSize(style) <= end <= buf.Length
    modifies buf
    ensures start == end - JobSize(style)
    ensures buf[start..] == EncodeJob(style, work) + old(buf[end..])
  {
    ghost var after := buf[end..];
    start := WriteBefore(buf, end, [0xaa]);
    start := WriteBefore(buf, start, work.tail);
    start := WriteBefore(buf, start, work.midstate);
    if style.Style65nm? {
      start := WriteBefore(buf, start, [45]);
    }
    PartsOfJob(style, work, after);
  }

  lemma PartsOfJob(style: Style, work: Work, after: seq<byte>)
    ensures var rest := work.midstate + (work.tail + ([0xaa] + after));
      EncodeJob(style, work) + after == if style.Style65nm? then [45] + rest else rest
  {
  }

  method WriteLengthBefore(style: Style, buf: array<byte>, end: nat)
    requires 0 < buf.Length && end == |LengthField(style, buf.Length)| <= buf.Length
    modifies buf
    ensures buf[..] == LengthField(style, buf.Length) + old(buf[end..])
  {
    if style.Style65nm? {
      var qjs := WriteBefore(buf, end, [Low(buf.Length - 1)]);
      assert buf[..] == buf[qjs..];
    } else {
      var qjs := WriteMagicBefore(buf, end);
      assert buf[..] == buf[qjs..];
    }
  }

  method WriteCountBefore(buf: array<byte>, end: nat, ready: nat) returns (start: nat)
    requires 2 <= end <= buf.Length
    modifies buf
    ensures start == end - 2
    ensures buf[start..] == [0xc1, Low(ready)] + old(buf[end..])
  {
    start := WriteBefore(buf, end, [Low(ready)]);
    start := WriteBefore(buf, start, [0xc1]);
  }

  method WriteMagicBefore(buf: array<byte>, end: nat) returns (start: nat)
    requires 4 <= end <= buf.Length
    modifies buf
    ensures start == end - 4
    ensures buf[start..] == [0x57, 0x58, Low(buf.Length), Low(buf.Length / 256)] + old(buf[end..])
  {
    ghost var after := buf[end..];
    var hi, lo := Low(buf.Length / 256), Low(buf.Length);
    start := WriteBefore(buf, end, [hi]);
    start := WriteBefore(buf, start, [lo]);
    start := WriteBefore(buf, start, [0x58]);
    start := WriteBefore(buf, start, [0x57]);
    FourBefore(0x57, 0x58, lo, hi, after);
  }

  lemma FourBefore(a: byte, b: byte, c: byte, d: byte, after: seq<byte>)
    ensures [a, b, c, d] + after == [a] + ([b] + ([c] + ([d] + after)))
  {
  }

  /** Where job i begins: the jobs before it and the header fill the buffer up to there. */
  function JobStart(style: Style, i: nat): nat {
    HeaderSize(style) + JobsSize(style, i)
  }

  lemma JobStartStep(style: Style, i: nat)
    ensures JobStart(style, i + 1) == JobStart(style, i) + JobSize(style)
    ensures PacketSize(style, i) == JobStart(style, i) + 1
  {
  }

  lemma {:induction false} BodyFrom(style: Style, jobs: seq<Work>, i: nat)
    requires i < |jobs|
    ensures Body(style, jobs[i..]) == EncodeJob(style, jobs[i]) + Body(style, jobs[i + 1..])
  {
    assert jobs[i..][1..] == jobs[i + 1..];
  }

  /** The jobs, last one first, behind room for the header. */
  method WriteJobs(style: Style, workList: seq<Work>, ready: nat) returns (qjp: array<byte>)
    requires 0 < ready <= |workList| && AllWellFormed(workList)
    ensures fresh(qjp) && qjp.Length == PacketSize(style, ready)
    ensures HeaderSize(style) <= qjp.Length
    ensures qjp[HeaderSize(style)..] == Body(style, workList[|workList| - ready..])
  {
    qjp := new byte[PacketSize(style, ready)];
    JobStartStep(style, ready);
    var qjs := WriteBefore(qjp, qjp.Length, [0xfe]);
    var work := |workList| - 1;
    var i := ready;
    ghost var jobs := workList[|workList| - ready..];
    while i > 0
      invariant 0 <= i <= ready && work == |workList| - ready + i - 1
      invariant qjs == JobStart(style, i) < qjp.Length
      invariant qjp[qjs..] == Body(style, jobs[i..])
    {
      JobStartStep(style, i - 1);
      BodyFrom(style, jobs, i - 1);
      assert workList[work] == jobs[i - 1];
      qjs := WriteJobBefore(style, qjp, qjs, workList[work]);
      i := i - 1;
      work := work - 1;
    }
    assert jobs[0..] == jobs;
  }

  /**
   The work list ends with the `ready` works to be sent.  The packet fills the buffer of the computed
   size exactly, and holds those works in list order.
   */
  method BuildPacket(style: Style, workList: seq<Work>, ready: nat) returns (qjp: array<byte>)
    requires 0 < ready <= |workList| && AllWellFormed(workList)
    ensures fresh(qjp) && qjp.Length == PacketSize(style, ready)
    ensures qjp[..] == Packet(style, workList[|workList| - ready..])
  {
    qjp := WriteJobs(style, workList, ready);
    var qjs := WriteCountBefore(qjp, HeaderSize(style), ready);
    WriteLengthBefore(style, qjp, qjs);
  }

  // ----- reading it forwards -----

  function DecodeJob(style: Style, bytes: seq<byte>): Option<JobKey> {
    var body := if style.Style65nm? then 1 else 0;
    if |bytes| != JobSize(style) || (style.Style65nm? && bytes[0] != 45) || bytes[|bytes| - 1] != 0xaa then None
    else Some(JobKey.Header(bytes[body..body + MIDSTATE_SIZE],
                            bytes[body + MIDSTATE_SIZE..body + MIDSTATE_SIZE + TAIL_SIZE]))
  }

  function DecodeJobs(style: Style, count: nat, bytes: seq<byte>): Option<seq<JobKey>> {
    if count == 0 then (if bytes == [0xfe] then Some([]) else None)
    else if |bytes| < JobSize(style) then None
    else
      var job := DecodeJob(style, bytes[..JobSize(style)]);
      var rest := DecodeJobs(style, count - 1, bytes[JobSize(style)..]);
      if job.Some? && rest.Some? then Some([job.value] + rest.value) else None
  }

  /** The length that the packet's own header states. */
  function StatedLength(style: Style, packet: seq<byte>): int
    requires |packet| >= 4
  {
    if style.Style65nm? then packet[0] as int + 1 else packet[2] as int + 256 * packet[3] as int
  }

  /** A receiver: it checks the length field and then reads as many jobs as the header says. */
  function Decode(style: Style, packet: seq<byte>): Option<seq<JobKey>> {
    var start := HeaderSize(style) - 2;
    if |packet| < start + 2 || |packet| < 4 || StatedLength(style, packet) != |packet| || packet[start] != 0xc1 then None
    else DecodeJobs(style, packet[start + 1], packet[start + 2..])
  }

  lemma DecodeEncodedJob(style: Style, job: Work)
    requires WellFormed(job)
    ensures DecodeJob(style, EncodeJob(style, job)) == Some(KeyOf(false, job))
  {
    var bytes := EncodeJob(style, job);
    var body := if style.Style65nm? then 1 else 0;
    assert bytes[body..body + MIDSTATE_SIZE] == job.midstate;
    assert bytes[body + MIDSTATE_SIZE..body + MIDSTATE_SIZE + TAIL_SIZE] == job.tail;
  }

  lemma {:induction false} DecodeEncodedJobs(style: Style, jobs: seq<Work>)
    requires AllWellFormed(jobs)
    ensures DecodeJobs(style, |jobs|, Body(style, jobs)) == Some(KeysOf(false, jobs))
  {
    if jobs != [] {
      var first := EncodeJob(style, jobs[0]);
      var rest := Body(style, jobs[1..]);
      var bytes := Body(style, jobs);
      DecodeEncodedJob(style, jobs[0]);
      DecodeEncodedJobs(style, jobs[1..]);
      assert |first| == JobSize(style) && bytes == first + rest;
      assert bytes[..JobSize(style)] == first && bytes[JobSize(style)..] == rest;
      assert KeysOf(false, jobs) == [KeyOf(false, jobs[0])] + KeysOf(false, jobs[1..]);
    }
  }

  lemma {:induction false} DecodedCount(style: Style, count: nat, bytes: seq<byte>)
    requires DecodeJobs(style, count, bytes).Some?
    ensures |DecodeJobs(style, count, bytes).value| == count
  {
    if count > 0 {
      DecodedCount(style, count - 1, bytes[JobSize(style)..]);
    }
  }

  lemma {:induction false} PacketParts(style: Style, jobs: seq<Work>)
    requires AllWellFormed(jobs)
    ensures var packet := Packet(style, jobs);
      var start := HeaderSize(style) - 2;
      && |packet| == PacketSize(style, |jobs|)
      && packet[start] == 0xc1 && packet[start + 1] == Low(|jobs|)
      && packet[start + 2..] == Body(style, jobs)
  {
    BodySize(style, jobs);
    assert |LengthField(style, PacketSize(style, |jobs|))| == HeaderSize(style) - 2;
  }

  lemma StatedLengthOf(style: Style, jobs: seq<Work>)
    requires AllWellFormed(jobs)
    ensures |Packet(style, jobs)| == PacketSize(style, |jobs|)
    ensures var packet := Packet(style, jobs);
      StatedLength(style, packet) == if style.Style65nm? then (|packet| - 1) % 256 + 1 else |packet| % TWO_TO_THE_16
  {
    PacketParts(style, jobs);
    TwoBytes(PacketSize(style, |jobs|));
  }

  lemma TwoBytes(n: nat)
    ensures n % 256 + 256 * (n / 256 % 256) == n % TWO_TO_THE_16
  {
    var q := n / TWO_TO_THE_16;
    assert n / 256 == 256 * q + (n % TWO_TO_THE_16) / 256;
  }

  /** The largest number of jobs whose packet length and count fit their fields. */
  function MostJobs(style: Style): nat {
    if style.Style65nm? then 5 else 255
  }

  lemma FieldsFit(style: Style, n: nat)
    requires n <= MostJobs(style)
    ensures var size := PacketSize(style, n);
      size == if style.Style65nm? then (size - 1) % 256 + 1 else size % TWO_TO_THE_16
    ensures Low(n) == n
  {
  }

  lemma {:induction false} HeaderAccepted(style: Style, jobs: seq<Work>)
    requires AllWellFormed(jobs) && |jobs| <= MostJobs(style)
    ensures var packet := Packet(style, jobs);
      && |packet| >= HeaderSize(style) && |packet| >= 4 && StatedLength(style, packet) == |packet|
      && packet[HeaderSize(style) - 2] == 0xc1 && packet[HeaderSize(style) - 1] == |jobs|
      && packet[HeaderSize(style)..] == Body(style, jobs)
  {
    FieldsFit(style, |jobs|);
    PacketParts(style, jobs);
    StatedLengthOf(style, jobs);
  }

  lemma FewEnoughJobs(style: Style, jobs: seq<Work>)
    requires AllWellFormed(jobs) && |jobs| <= MostJobs(style)
    ensures Decode(style, Packet(style, jobs)) == Some(KeysOf(false, jobs))
  {
    HeaderAccepted(style, jobs);
    DecodeEncodedJobs(style, jobs);
  }

  lemma TooManyJobs(style: Style, jobs: seq<Work>)
    requires AllWellFormed(jobs) && |jobs| > MostJobs(style)
    ensures Decode(style, Packet(style, jobs)) != Some(KeysOf(false, jobs))
  {
    PacketParts(style, jobs);
    StatedLengthOf(style, jobs);
    var packet := Packet(style, jobs);
    var start := HeaderSize(style) - 2;
    if style.Style65nm? {
      assert |packet| - 1 == 3 + 46 * |jobs| > 255;
    } else if Decode(style, packet).Some? {
      DecodedCount(style, packet[start + 1], packet[start + 2..]);
      assert packet[start + 1] < 256 <= |jobs|;
    }
  }

  /** A receiver gets exactly the jobs offered, in order, if and only if their number fits the fields of
      the header.  The driver offers at most 5 jobs to a 65nm board and 20 to a 28nm board. */
  lemma RoundTrip(style: Style, jobs: seq<Work>)
    requires AllWellFormed(jobs)
    ensures Decode(style, Packet(style, jobs)) == Some(KeysOf(false, jobs)) <==> |jobs| <= MostJobs(style)
  {
    if |jobs| <= MostJobs(style) {
      FewEnoughJobs(style, jobs);
    } else {
      TooManyJobs(style, jobs);
    }
  }
}
