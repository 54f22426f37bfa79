/**
 The result ring of the Bitfury driver (driver-bitfury.c). A chip reports sixteen result slots, which it fills
 in a ring, and its job. The driver keeps a copy of the last report, rotated so that the slot it waits on comes
 first, and compares every new report, rotated alike.

 The reference is a machine that keeps the report as it came and finds its way round the ring by modular
 indexing. The chip's replies are inputs, and so are the decoding of a result and what checking it against the
 works gives.
 */
module BitfuryRing {
  import opened Bytes
  import opened Options

  const SLOTS := 0x10
  const CALIBRATE := 99
  const TRIES := 4

  type Word = n: int | 0 <= n < TWO_TO_THE_32
  type Slots = s: seq<Word> | |s| == SLOTS witness seq(SLOTS, _ => 0)

  datatype Reply = Reply(slots: Slots, job: Word)

  function Around(active: nat, i: nat): (slot: nat)
    ensures slot < SLOTS
  {
    (active + i) % SLOTS
  }

  // Calibration

  predicate Differs(a: Slots, b: Slots, i: nat)
    requires i < SLOTS
  {
    a[i] != b[i]
  }

  /** The first slot from i on that differs, if any. */
  function FirstDiffer(a: Slots, b: Slots, i: nat): (r: Option<nat>)
    requires i <= SLOTS
    ensures r.Some? ==> i <= r.value < SLOTS && Differs(a, b, r.value)
    ensures forall k | i <= k < (if r.Some? then r.value else SLOTS) :: !Differs(a, b, k)
    decreases SLOTS - i
  {
    if i == SLOTS then None
    else if Differs(a, b, i) then Some(i)
    else FirstDiffer(a, b, i + 1)
  }

  /** The only slot that differs, if there is exactly one; at the last try, the first. */
  function Candidate(a: Slots, b: Slots, last: bool): (r: Option<nat>)
    ensures r.Some? ==> r.value < SLOTS && Differs(a, b, r.value)
    ensures r.Some? && !last ==> forall k | 0 <= k < SLOTS && Differs(a, b, k) :: k == r.value
    ensures r.None? ==> a == b || (!last && exists j, k :: 0 <= j < k < SLOTS && Differs(a, b, j) && Differs(a, b, k))
  {
    var first := FirstDiffer(a, b, 0);
    if first.None? then
      NoneDiffers(a, b);
      None
    else if last || FirstDiffer(a, b, first.value + 1).None? then first
    else None
  }

  lemma NoneDiffers(a: Slots, b: Slots)
    requires forall k | 0 <= k < SLOTS :: !Differs(a, b, k)
    ensures a == b
  {
    assert forall k | 0 <= k < SLOTS :: !Differs(a, b, k) ==> a[k] == b[k];
  }

  type Replies = r: seq<Reply> | |r| == TRIES + 1 witness seq(TRIES + 1, _ => Reply(seq(SLOTS, _ => 0), 0))

  /** Try t compares the replies t - 1 and t. */
  function Try(replies: Replies, t: nat): (r: Option<nat>)
    requires 1 <= t <= TRIES
    ensures r.Some? ==> r.value < SLOTS
  {
    Candidate(replies[t - 1].slots, replies[t].slots, t == TRIES)
  }

  /** The first try, from t on, that shows where the chip writes. */
  function Settled(replies: Replies, t: nat): (r: Option<nat>)
    requires 1 <= t <= TRIES + 1
    ensures r.Some? ==> t <= r.value <= TRIES && Try(replies, r.value).Some?
    ensures forall k | t <= k < (if r.Some? then r.value else TRIES + 1) :: Try(replies, k).None?
    decreases TRIES + 1 - t
  {
    if t > TRIES then None
    else if Try(replies, t).Some? then Some(t)
    else Settled(replies, t + 1)
  }

  // Handling results

  /** Whether a result belongs to a work; whether it may belong to one that is gone; or neither. */
  datatype Grade = Good | Ignored | Bad

  /** The chip's generation, 0 while it is not known, with the marks of generation 1 seen so far; and the sample of
      results, with the bad ones among them. */
  datatype Tally = Tally(chipgen: nat, probe: nat, tot: nat, hwe: nat)

  const SAMPLE := 0x40
  const MOST_BAD := 8

  predicate TallyValid(t: Tally) {
    t.chipgen <= 2 && t.hwe <= t.tot < SAMPLE && t.hwe < MOST_BAD
  }

  /** One poll's inputs: the replies to its reads; how a result is decoded and graded; whether the chip's generation
      has been looked for long enough; and whether a reinitialisation is forced. */
  datatype Input = Input(replies: Replies, decode: Word -> Word, grade: Word -> Grade, timeout: bool, forceReinit: bool)

  /** The nonce with its top three and low 22 bits. */
  function Masked(nonce: Word): Word {
    nonce / 0x2000_0000 * 0x2000_0000 + nonce % 0x40_0000
  }

  /** What a result says about a chip whose generation is not known. */
  function Detect(t: Tally, nonce: Word): (r: Tally)
    requires TallyValid(t) && t.chipgen == 0
    ensures TallyValid(r) && r.tot == t.tot && r.hwe == t.hwe
  {
    if Masked(nonce) in [0x40060f87, 0x600054e0, 0x80156423, 0x991abced, 0xa004b2a0] then
      t.(probe := t.probe + 1, chipgen := if t.probe + 1 > 0x10 then 1 else 0)
    else if Masked(nonce) in [0xe03081a3, 0xe003df88] then t.(chipgen := 2)
    else t
  }

  /** One more result in the sample, and whether it makes the sample a bad one; a sample that is full or bad ends. */
  function Sample(t: Tally, bad: bool): (r: (Tally, bool))
    requires TallyValid(t)
    ensures TallyValid(r.0) && r.0.chipgen == t.chipgen
    ensures r.1 <==> bad && t.hwe == MOST_BAD - 1
  {
    var hwe := t.hwe + if bad then 1 else 0;
    if t.tot + 1 >= SAMPLE || hwe >= MOST_BAD then (t.(tot := 0, hwe := 0), hwe >= MOST_BAD)
    else (t.(tot := t.tot + 1, hwe := hwe), false)
  }

  /** What one result leaves: the tally, whether to start over, and whether the others are left alone because the
      chip's generation has just been found. */
  function HandleOne(t: Tally, input: Input, value: Word): (r: (Tally, bool, bool))
    requires TallyValid(t)
    ensures TallyValid(r.0) && (r.2 <==> t.chipgen == 0 && r.0.chipgen != 0) && (t.chipgen != 0 ==> r.0.chipgen == t.chipgen)
  {
    var nonce := input.decode(value);
    var detected := if t.chipgen == 0 then Detect(t, nonce) else t;
    if t.chipgen == 0 && detected.chipgen != 0 then (detected, false, true)
    else
      var (sampled, reinit) := Sample(detected, t.chipgen != 0 && input.grade(nonce).Bad?);
      (sampled, reinit, false)
  }

  function HandleAll(t: Tally, input: Input, values: seq<Word>): (r: (Tally, bool))
    requires TallyValid(t)
    ensures TallyValid(r.0) && (t.chipgen != 0 ==> r.0.chipgen == t.chipgen)
    decreases |values|
  {
    if values == [] then (t, false)
    else
      var (t', reinit, stop) := HandleOne(t, input, values[0]);
      if stop then (t', reinit)
      else
        var (end, later) := HandleAll(t', input, values[1..]);
        (end, reinit || later)
  }

  /** Results handled one after the other. */
  function Then(reinit: bool, later: (Tally, bool)): (Tally, bool) {
    (later.0, reinit || later.1)
  }

  lemma {:induction false} HandleNext(t: Tally, input: Input, values: seq<Word>)
    requires TallyValid(t) && values != []
    ensures var (t', reinit, stop) := HandleOne(t, input, values[0]);
      HandleAll(t, input, values) == if stop then (t', reinit) else Then(reinit, HandleAll(t', input, values[1..]))
  {
  }

  /** After a poll with results, a generation that could not be found in time is taken to be 1. */
  function Settle(t: Tally, timeout: bool): Tally {
    if t.chipgen == 0 && timeout then t.(chipgen := 1) else t
  }

  // The reference machine

  /** The last report that was taken in, the slot waited on, and the count of reports that did not fit. */
  datatype Plain = Plain(last: Reply, active: nat, desync: nat, tally: Tally)

  predicate PlainValid(p: Plain) {
    p.active < SLOTS && TallyValid(p.tally)
  }

  function PlainCalibrate(p: Plain, replies: Replies): (r: Plain)
    requires PlainValid(p)
    ensures PlainValid(r)
  {
    var settled := Settled(replies, 1);
    if settled.None? then p.(desync := CALIBRATE)
    else
      Plain(replies[settled.value], Try(replies, settled.value).value, 0, p.tally)
  }

  /** How many slots from the one waited on are as they were, counted from i. */
  function Unchanged(p: Plain, slots: Slots, i: nat): (n: nat)
    requires PlainValid(p) && i <= SLOTS
    ensures i <= n <= SLOTS
    ensures forall k | i <= k < n :: slots[Around(p.active, k)] == p.last.slots[Around(p.active, k)]
    ensures n < SLOTS ==> slots[Around(p.active, n)] != p.last.slots[Around(p.active, n)]
    decreases SLOTS - i
  {
    if i == SLOTS || slots[Around(p.active, i)] != p.last.slots[Around(p.active, i)] then i
    else Unchanged(p, slots, i + 1)
  }

  /** A result as it was taken up: from which slot, and what. */
  datatype Taken = Taken(slot: nat, value: Word)

  function TakenFrom(active: nat, slots: Slots, n: nat): (r: seq<Taken>)
    ensures |r| == n
  {
    seq(n, i requires 0 <= i => Taken(Around(active, i), slots[Around(active, i)]))
  }

  function Values(taken: seq<Taken>): (r: seq<Word>)
    ensures |r| == |taken|
  {
    seq(|taken|, i requires 0 <= i < |taken| => taken[i].value)
  }

  predicate Mismatch(p: Plain, slots: Slots)
    requires PlainValid(p)
  {
    slots[Around(p.active, SLOTS - 1)] != p.last.slots[Around(p.active, SLOTS - 1)]
  }

  predicate Recalibrates(p: Plain, input: Input)
    requires PlainValid(p)
  {
    p.desync == CALIBRATE || (Mismatch(p, input.replies[0].slots) && p.desync + 1 >= 4)
  }

  /** What a poll makes of the state before a reinitialisation is forced, and the results it takes up: none while the
      chip's generation is not known. */
  function PlainRead(p: Plain, input: Input): (r: (Plain, seq<Taken>))
    requires PlainValid(p)
    ensures PlainValid(r.0)
  {
    var reply := input.replies[0];
    if Recalibrates(p, input) then (PlainCalibrate(p, input.replies), [])
    else if Mismatch(p, reply.slots) then (p.(desync := p.desync + 1), [])
    else
      var n := Unchanged(p, reply.slots, 0);
      if n == SLOTS then (p.(desync := CALIBRATE), [])
      else
        var taken := TakenFrom(p.active, reply.slots, n);
        var (tally, reinit) := HandleAll(p.tally, input, Values(taken));
        (Plain(reply, Around(p.active, n), if reinit then CALIBRATE else 0, if n > 0 then Settle(tally, input.timeout) else tally),
         if p.tally.chipgen == 0 then [] else taken)
  }

  /** The fourth misfit skips the forced reinitialisation; every other path ends with it. */
  function PlainPoll(p: Plain, input: Input): (r: (Plain, seq<Taken>))
    requires PlainValid(p)
    ensures PlainValid(r.0)
  {
    var (q, taken) := PlainRead(p, input);
    if input.forceReinit && !(p.desync != CALIBRATE && Recalibrates(p, input)) then (q.(desync := CALIBRATE), taken)
    else (q, taken)
  }

  function Run(p: Plain, inputs: seq<Input>): (r: (Plain, seq<Taken>))
    requires PlainValid(p)
    ensures PlainValid(r.0)
    decreases |inputs|
  {
    if inputs == [] then (p, [])
    else
      var (q, taken) := PlainPoll(p, inputs[0]);
      var (end, rest) := Run(q, inputs[1..]);
      (end, taken + rest)
  }

  /** No poll of the run calibrates anew. */
  predicate Steady(p: Plain, inputs: seq<Input>)
    requires PlainValid(p)
    decreases |inputs|
  {
    inputs == [] || (!Recalibrates(p, inputs[0]) && Steady(PlainPoll(p, inputs[0]).0, inputs[1..]))
  }

  /** What one poll takes up: the slots from the one waited on up to the first that changed, none of which
      changed since the last report; the first that changed is waited on next. */
  lemma PollTakes(p: Plain, input: Input)
    requires PlainValid(p) && p.tally.chipgen != 0 && !Recalibrates(p, input)
    ensures PlainPoll(p, input).0.tally.chipgen == p.tally.chipgen
    ensures var (q, taken) := PlainPoll(p, input);
      var n := |taken|;
      n < SLOTS && q.active == Around(p.active, n) &&
      (forall i | 0 <= i < n :: taken[i].slot == Around(p.active, i) &&
        taken[i].value == input.replies[0].slots[taken[i].slot] == p.last.slots[taken[i].slot]) &&
      (q.last == input.replies[0] ==>
        q.last == p.last || q.last.slots[q.active] != p.last.slots[q.active])
  {
    AroundNone(p.active);
    hide HandleAll, Around, PlainCalibrate;
  }

  lemma AroundAround(active: nat, n: nat, i: nat)
    ensures Around(Around(active, n), i) == Around(active, n + i)
    ensures Around(active, Around(n, i)) == Around(active, n + i)
  {
    WrapOnce(active + n, i);
    WrapOnce(n + i, active);
  }

  lemma WrapOnce(x: nat, i: nat)
    ensures (x % SLOTS + i) % SLOTS == (x + i) % SLOTS
  {
    assert x + i == SLOTS * (x / SLOTS) + (x % SLOTS + i);
  }

  lemma AroundNone(active: nat)
    requires active < SLOTS
    ensures Around(active, 0) == active
  {
  }

  /** Once the chip's generation is known and between calibrations, the results are taken up slot after slot,
      round and round the ring, none left out and none twice, however the polls fall. */
  lemma {:induction false} TakenInRingOrder(p: Plain, inputs: seq<Input>)
    requires PlainValid(p) && p.tally.chipgen != 0 && Steady(p, inputs)
    ensures var (end, taken) := Run(p, inputs);
      end.active == Around(p.active, |taken|) &&
      forall i | 0 <= i < |taken| :: taken[i].slot == Around(p.active, i)
    decreases |inputs|
  {
    hide PlainPoll, Around, Recalibrates;
    if inputs == [] {
      AroundNone(p.active);
    } else {
      var (q, taken) := PlainPoll(p, inputs[0]);
      var (end, rest) := Run(q, inputs[1..]);
      PollTakes(p, inputs[0]);
      TakenInRingOrder(q, inputs[1..]);
      AroundAround(p.active, |taken|, |rest|);
      forall i | 0 <= i < |rest|
        ensures rest[i].slot == Around(p.active, |taken| + i)
      {
        AroundAround(p.active, |taken|, i);
      }
    }
  }

  /** Until then nothing is taken up at all. */
  lemma NothingTakenUnknown(p: Plain, input: Input)
    requires PlainValid(p) && p.tally.chipgen == 0
    ensures PlainPoll(p, input).1 == []
  {
  }

  // The driver's state

  lemma RotatedValues(buf: Slots, active: nat, slots: Slots, n: nat)
    requires n < SLOTS && forall i | 0 <= i < SLOTS :: buf[i] == slots[Around(active, i)]
    ensures buf[..n] == Values(TakenFrom(active, slots, n))
  {
  }

  /** The driver's part of a device; the buffers are its own. */
  class Chip {
    const oldbuf: array<Word>
    const newbuf: array<Word>
    var active: nat
    var oldjob: Word
    var desync: nat
    var tally: Tally

    ghost predicate Valid()
      reads this
    {
      oldbuf.Length == newbuf.Length == SLOTS && oldbuf != newbuf && active < SLOTS && TallyValid(tally)
    }

    /** The rotated copy is the plain report, read from the slot waited on. */
    ghost predicate Follows(p: Plain)
      reads this, oldbuf
    {
      Valid() && active == p.active && desync == p.desync && tally == p.tally && oldjob == p.last.job &&
      forall i | 0 <= i < SLOTS :: oldbuf[i] == p.last.slots[Around(p.active, i)]
    }

    constructor ()
      ensures Follows(Plain(Reply(seq(SLOTS, _ => 0), 0), 0, CALIBRATE, Tally(0, 0, 0, 0)))
      ensures fresh(oldbuf) && fresh(newbuf)
    {
      oldbuf := new Word[SLOTS](_ => 0);
      newbuf := new Word[SLOTS](_ => 0);
      active, oldjob, desync, tally := 0, 0, CALIBRATE, Tally(0, 0, 0, 0);
    }

    /** Two block copies: the part of src from k on, then the part before it. */
    static method CopyRotated(dst: array<Word>, src: Slots, k: nat)
      requires dst.Length == SLOTS && k < SLOTS
      modifies dst
      ensures forall i | 0 <= i < SLOTS :: dst[i] == src[Around(k, i)]
    {
      forall i | 0 <= i < SLOTS - k {
        dst[i] := src[k + i];
      }
      forall i | 0 <= i < k {
        dst[SLOTS - k + i] := src[i];
      }
    }

    static method Copy(dst: array<Word>, src: Slots)
      requires dst.Length == SLOTS
      modifies dst
      ensures dst[..] == src
    {
      forall i | 0 <= i < SLOTS {
        dst[i] := src[i];
      }
    }

    /** bitfury_init_oldbuf */
    method InitOldbuf(replies: Replies, ghost p: Plain)
      requires Valid() && PlainValid(p) && Follows(p)
      modifies this, oldbuf, newbuf
      ensures Follows(PlainCalibrate(p, replies))
    {
      hide Around, Candidate;
      var tried := 0;
      while tried <= 3
        invariant tried <= TRIES
        invariant Follows(p) && Settled(replies, tried + 1) == Settled(replies, 1)
        decreases TRIES - tried
      {
        tried := tried + 1;
        Copy(newbuf, replies[tried - 1].slots);
        var differ := FindDiffer(replies[tried].slots, tried > 3);
        if differ.Some? {
          active := differ.value;
          CopyRotated(oldbuf, replies[tried].slots, active);
          oldjob := replies[tried].job;
          desync := 0;
          return;
        }
      }
      desync := CALIBRATE;
    }

    /** The comparison of two successive reports. */
    method FindDiffer(inp: Slots, last: bool) returns (differ: Option<nat>)
      requires Valid()
      ensures differ == Candidate(newbuf[..], inp, last)
    {
      ghost var buf := newbuf[..];
      differ := None;
      var i := 0;
      while i < SLOTS
        invariant i <= SLOTS
        invariant differ.None? ==> FirstDiffer(buf, inp, 0) == FirstDiffer(buf, inp, i)
        invariant differ.Some? ==>
          !last && differ.value < i && FirstDiffer(buf, inp, 0) == differ &&
          FirstDiffer(buf, inp, differ.value + 1) == FirstDiffer(buf, inp, i)
      {
        if inp[i] != newbuf[i] {
          if differ.Some? {
            return None;
          }
          differ := Some(i);
          if last {
            return;
          }
        }
        i := i + 1;
      }
    }

    /** One chip's share of bitfury_do_io. */
    method Poll(input: Input, ghost p: Plain) returns (taken: seq<Word>)
      requires Valid() && PlainValid(p) && Follows(p)
      modifies this, oldbuf, newbuf
      ensures Follows(PlainPoll(p, input).0)
      ensures taken == Values(PlainPoll(p, input).1)
    {
      var inp := input.replies[0];
      taken := [];
      if desync == CALIBRATE {
        InitOldbuf(input.replies, p);
      } else {
        CopyRotated(newbuf, inp.slots, active);
        if newbuf[0xf] != oldbuf[0xf] {
          desync := desync + 1;
          if desync >= 4 {
            InitOldbuf(input.replies, p.(desync := p.desync + 1));
            return;
          }
        } else {
          desync := 0;
          taken := TakeUp(input, p);
        }
      }
      if input.forceReinit {
        desync := CALIBRATE;
      }
    }

    /** The report fits: take up the results before the first slot that changed. */
    method TakeUp(input: Input, ghost p: Plain) returns (taken: seq<Word>)
      requires Valid() && PlainValid(p) && Follows(p.(desync := 0)) && p.desync != CALIBRATE
      requires forall i | 0 <= i < SLOTS :: newbuf[i] == input.replies[0].slots[Around(p.active, i)]
      requires !Mismatch(p, input.replies[0].slots)
      modifies this, oldbuf, newbuf
      ensures Follows(PlainRead(p, input).0)
      ensures taken == Values(PlainRead(p, input).1)
    {
      hide Around, HandleAll, TakenFrom, Values;
      taken := [];
      var slots := input.replies[0].slots;
      var n := CountUnchanged(slots, p);
      if n == SLOTS {
        desync := CALIBRATE;
        return;
      }
      var reinit;
      RotatedValues(newbuf[..], p.active, slots, n);
      assert newbuf[..n] == newbuf[..][..n];
      taken, reinit := HandleResults(n, input);
      if reinit {
        desync := CALIBRATE;
      }
      Advance(n, input.replies[0], p.(tally := tally));
    }

    /** The loop over the results before slot n of the rotated report; finding the chip's generation ends it. */
    method HandleResults(n: nat, input: Input) returns (taken: seq<Word>, reinit: bool)
      requires Valid() && n < SLOTS
      modifies this`tally
      ensures Valid()
      ensures var (t, bad) := HandleAll(old(tally), input, newbuf[..n]);
        tally == (if n > 0 then Settle(t, input.timeout) else t) && reinit == bad
      ensures taken == if old(tally).chipgen == 0 then [] else newbuf[..n]
    {
      hide HandleOne, Detect, Sample;
      taken, reinit := [], false;
      var stopped := false;
      var i := 0;
      while i < n && !stopped
        invariant i <= n && Valid()
        invariant taken == if old(tally).chipgen == 0 then [] else newbuf[..i]
        invariant old(tally).chipgen == 0 || (tally.chipgen == old(tally).chipgen && !stopped)
        invariant !stopped ==> (tally.chipgen == 0 <==> old(tally).chipgen == 0)
        invariant var (t, bad) := HandleAll(old(tally), input, newbuf[..n]);
          if stopped then tally == t && reinit == bad
          else (t, bad) == Then(reinit, HandleAll(tally, input, newbuf[i..n]))
        decreases n - i, !stopped
      {
        HandleNext(tally, input, newbuf[i..n]);
        assert newbuf[i..n][0] == newbuf[i] && newbuf[i..n][1..] == newbuf[i + 1..n];
        if tally.chipgen != 0 {
          taken := taken + [newbuf[i]];
        }
        var bad;
        tally, bad, stopped := HandleResult(newbuf[i], input);
        reinit := reinit || bad;
        i := i + 1;
      }
      if n > 0 {
        tally := Settle(tally, input.timeout);
      }
    }

    /** One result: what it says of an unknown chip, or how it grades; then the sample. */
    method HandleResult(value: Word, input: Input) returns (after: Tally, reinit: bool, stop: bool)
      requires Valid()
      ensures (after, reinit, stop) == HandleOne(tally, input, value)
    {
      var nonce := input.decode(value);
      after := tally;
      reinit, stop := false, false;
      var bad := false;
      if after.chipgen == 0 {
        after := Detect(after, nonce);
        if after.chipgen != 0 {
          stop := true;
          return;
        }
      } else {
        bad := input.grade(nonce).Bad?;
      }
      after, reinit := AddToSample(after, bad);
    }

    static method AddToSample(t: Tally, bad: bool) returns (after: Tally, reinit: bool)
      requires TallyValid(t)
      ensures (after, reinit) == Sample(t, bad)
    {
      after, reinit := t.(tot := t.tot + 1, hwe := t.hwe + if bad then 1 else 0), false;
      if after.tot >= SAMPLE || after.hwe >= MOST_BAD {
        reinit := after.hwe >= MOST_BAD;
        after := after.(tot := 0, hwe := 0);
      }
    }

    /** Wait on the slot n further on, and keep the report from there. */
    method Advance(n: nat, reply: Reply, ghost p: Plain)
      requires Valid() && n < SLOTS && active == p.active && tally == p.tally
      requires forall i | 0 <= i < SLOTS :: newbuf[i] == reply.slots[Around(active, i)]
      modifies this`active, this`oldjob, oldbuf
      ensures Follows(Plain(reply, Around(p.active, n), desync, tally))
    {
      hide Around;
      if n > 0 {
        active := Around(active, n);
      } else {
        AroundNone(active);
      }
      CopyRotated(oldbuf, newbuf[..], n);
      oldjob := reply.job;
      forall i | 0 <= i < SLOTS
        ensures oldbuf[i] == reply.slots[Around(active, i)]
      {
        AroundAround(p.active, n, i);
      }
    }

    /** The loop over unchanged slots; all sixteen unchanged is the full match that ends it early. */
    method CountUnchanged(slots: Slots, ghost p: Plain) returns (n: nat)
      requires Valid() && PlainValid(p)
      requires forall i | 0 <= i < SLOTS :: newbuf[i] == slots[Around(p.active, i)]
      requires forall i | 0 <= i < SLOTS :: oldbuf[i] == p.last.slots[Around(p.active, i)]
      ensures n == Unchanged(p, slots, 0)
    {
      hide Around;
      n := 0;
      while newbuf[n] == oldbuf[n]
        invariant n < SLOTS
        invariant Unchanged(p, slots, n) == Unchanged(p, slots, 0)
        decreases SLOTS - n
      {
        if n >= 0xf {
          return SLOTS;
        }
        n := n + 1;
      }
    }
  }
}
