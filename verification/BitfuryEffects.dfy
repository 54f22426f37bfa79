/**
 What a poll of a Bitfury chip does, path by path, and what successive polls add up to. BitfuryRing proves that the
 driver's rotated buffers follow the reference machine; these lemmas say what that machine does.
 */
module BitfuryEffects {
  import opened Bytes
  import opened Options
  import opened BitfuryRing

  // Calibration

  /** Two reports that do not show where the chip writes. */
  ghost predicate Undecided(a: Slots, b: Slots) {
    a == b || exists j, k | 0 <= j < k < SLOTS :: Differs(a, b, j) && Differs(a, b, k)
  }

  ghost predicate OnlyAt(a: Slots, b: Slots, slot: nat) {
    slot < SLOTS && forall k | 0 <= k < SLOTS :: a[k] != b[k] <==> k == slot
  }

  ghost predicate FirstAt(a: Slots, b: Slots, slot: nat) {
    slot < SLOTS && a[slot] != b[slot] && forall k | 0 <= k < slot :: a[k] == b[k]
  }

  /** The report before try t, and the one of try t. */
  ghost predicate UndecidedUntil(replies: Replies, t: nat)
    requires t <= TRIES + 1
  {
    forall k | 1 <= k < t :: Undecided(replies[k - 1].slots, replies[k].slots)
  }

  lemma CandidateExact(a: Slots, b: Slots, last: bool, slot: nat)
    requires OnlyAt(a, b, slot) || (last && FirstAt(a, b, slot))
    ensures Candidate(a, b, last) == Some(slot)
  {
    assert Differs(a, b, slot);
    assert forall k | 0 <= k < slot :: !Differs(a, b, k);
    if OnlyAt(a, b, slot) {
      assert forall k | slot < k < SLOTS :: !Differs(a, b, k);
    }
  }

  lemma NoCandidate(a: Slots, b: Slots, last: bool)
    requires if last then a == b else Undecided(a, b)
    ensures Candidate(a, b, last).None?
  {
    if a != b {
      var j, k :| 0 <= j < k < SLOTS && Differs(a, b, j) && Differs(a, b, k);
    }
  }

  /** The first try that shows a single change decides where the chip writes; at the fourth the first change will do.
      The report of that try becomes the last one, and the slot that changed is waited on. */
  lemma CalibratesAtChange(p: Plain, replies: Replies, t: nat, slot: nat)
    requires PlainValid(p) && 1 <= t <= 4 && UndecidedUntil(replies, t)
    requires OnlyAt(replies[t - 1].slots, replies[t].slots, slot)
          || (t == 4 && FirstAt(replies[t - 1].slots, replies[t].slots, slot))
    ensures PlainCalibrate(p, replies) == Plain(replies[t], slot, 0, p.tally)
  {
    CandidateExact(replies[t - 1].slots, replies[t].slots, t == 4, slot);
    forall k | 1 <= k < t ensures Try(replies, k).None? {
      NoCandidate(replies[k - 1].slots, replies[k].slots, false);
    }
    hide Candidate;
  }

  /** Without one, calibration is to be done again, and nothing is forgotten. */
  lemma StaysUncalibrated(p: Plain, replies: Replies)
    requires PlainValid(p) && UndecidedUntil(replies, 4) && replies[3].slots == replies[4].slots
    ensures PlainCalibrate(p, replies) == p.(desync := 99)
  {
    NoCandidate(replies[3].slots, replies[4].slots, true);
    forall k | 1 <= k < 4 ensures Try(replies, k).None? {
      NoCandidate(replies[k - 1].slots, replies[k].slots, false);
    }
    hide Candidate;
  }

  // Polls

  /** The slot filled just before the one waited on is as it was. */
  ghost predicate Fits(p: Plain, reply: Reply) {
    reply.slots[(p.active + 15) % 16] == p.last.slots[(p.active + 15) % 16]
  }

  lemma FitsExact(p: Plain, reply: Reply)
    requires PlainValid(p)
    ensures Fits(p, reply) <==> !Mismatch(p, reply.slots)
  {
  }

  /** An uncalibrated chip is calibrated, and nothing is taken up. */
  lemma UncalibratedCalibrates(p: Plain, input: Input)
    requires PlainValid(p) && p.desync == 99 && !input.forceReinit
    ensures PlainPoll(p, input) == (PlainCalibrate(p, input.replies), [])
  {
    hide PlainCalibrate;
  }

  /** Up to three reports in a row that do not fit are ignored: nothing is taken up and the last report stays. */
  lemma {:induction false} MisfitsAreIgnored(p: Plain, inputs: seq<Input>)
    requires PlainValid(p) && p.desync + |inputs| <= 3
    requires forall i | 0 <= i < |inputs| :: !inputs[i].forceReinit && !Fits(p, inputs[i].replies[0])
    ensures Run(p, inputs) == (p.(desync := p.desync + |inputs|), [])
    decreases |inputs|
  {
    hide Mismatch, PlainCalibrate, Unchanged, HandleAll;
    if inputs != [] {
      FitsExact(p, inputs[0].replies[0]);
      var q := p.(desync := p.desync + 1);
      assert PlainPoll(p, inputs[0]) == (q, []);
      assert forall i | 0 <= i < |inputs[1..]| :: inputs[1..][i] == inputs[i + 1];
      assert forall input: Input :: Fits(q, input.replies[0]) == Fits(p, input.replies[0]);
      MisfitsAreIgnored(q, inputs[1..]);
      var rest := Run(q, inputs[1..]).1;
      assert PlainPoll(p, inputs[0]).1 + rest == [];
    }
  }

  /** The fourth one calibrates anew, forced or not. */
  lemma FourthMisfitCalibrates(p: Plain, input: Input)
    requires PlainValid(p) && 3 <= p.desync < 99 && !Fits(p, input.replies[0])
    ensures var q := PlainPoll(p, input).0;
      q.last == PlainCalibrate(p, input.replies).last && q.active == PlainCalibrate(p, input.replies).active &&
      q.desync == PlainCalibrate(p, input.replies).desync && PlainPoll(p, input).1 == []
  {
    hide PlainCalibrate;
    FitsExact(p, input.replies[0]);
  }

  /** A report without any change means that the chip hangs: it is calibrated anew at the next poll. */
  lemma FullMatchIsAFault(p: Plain, input: Input)
    requires PlainValid(p) && p.desync != 99 && !input.forceReinit && input.replies[0].slots == p.last.slots
    ensures PlainPoll(p, input) == (p.(desync := 99), [])
  {
    hide Around, HandleAll;
    assert Unchanged(p, input.replies[0].slots, 0) == SLOTS;
  }

  /** The k-th slot from the one waited on has changed. */
  predicate ChangedAt(p: Plain, reply: Reply, k: nat) {
    reply.slots[(p.active + k) % 16] != p.last.slots[(p.active + k) % 16]
  }

  /** The n-th is the first one that has. */
  ghost predicate ChangesAt(p: Plain, reply: Reply, n: nat) {
    n < 16 && ChangedAt(p, reply, n) && forall k | 0 <= k < n :: !ChangedAt(p, reply, k)
  }

  lemma ChangedAtExact(p: Plain, reply: Reply, k: nat)
    requires PlainValid(p)
    ensures ChangedAt(p, reply, k) <==> reply.slots[Around(p.active, k)] != p.last.slots[Around(p.active, k)]
  {
  }

  lemma {:induction false} ChangesAtExact(p: Plain, reply: Reply, n: nat)
    requires PlainValid(p) && ChangesAt(p, reply, n)
    ensures Unchanged(p, reply.slots, 0) == n
  {
    ChangedAtExact(p, reply, n);
    ChangedAtExact(p, reply, Unchanged(p, reply.slots, 0));
    hide Around, ChangedAt;
  }

  /** The slots of a report from the one waited on, round the ring. */
  function Reported(p: Plain, reply: Reply, n: nat): (r: seq<Word>)
    ensures |r| == n
  {
    seq(n, i requires 0 <= i => reply.slots[(p.active + i) % 16])
  }

  lemma ReportedExact(p: Plain, reply: Reply, n: nat)
    ensures Values(TakenFrom(p.active, reply.slots, n)) == Reported(p, reply, n)
  {
  }

  /** A report that fits ends any row of misfits. The results before the first change are handled, the slot that changed
      is waited on, and the report becomes the last one; a bad sample starts over. */
  lemma {:induction false} TakesUpToChange(p: Plain, input: Input, n: nat)
    requires PlainValid(p) && p.desync != 99 && !input.forceReinit
    requires Fits(p, input.replies[0]) && ChangesAt(p, input.replies[0], n)
    ensures var (q, taken) := PlainPoll(p, input);
      var (handled, bad) := HandleAll(p.tally, input, Reported(p, input.replies[0], n));
      q.last == input.replies[0] && q.active == (p.active + n) % 16 && q.desync == (if bad then 99 else 0) &&
      q.tally == (if handled.chipgen == 0 && n > 0 && input.timeout then handled.(chipgen := 1) else handled) &&
      (p.tally.chipgen != 0 ==> Values(taken) == Reported(p, input.replies[0], n))
  {
    FitsExact(p, input.replies[0]);
    ChangesAtExact(p, input.replies[0], n);
    ReportedExact(p, input.replies[0], n);
    assert Around(p.active, n) == (p.active + n) % 16;
    hide HandleAll, Unchanged, Fits, ChangesAt, Values, TakenFrom, Reported, Mismatch, Around, PlainCalibrate;
  }

  /** A forced reinitialisation changes nothing but that the chip is to be calibrated; the fourth misfit, which has
      calibrated just now, passes over it. */
  lemma ForcedReinitialisation(p: Plain, input: Input)
    requires PlainValid(p) && input.forceReinit
    ensures var (q, taken) := PlainPoll(p, input.(forceReinit := false));
      if p.desync != 99 && p.desync >= 3 && !Fits(p, input.replies[0]) then PlainPoll(p, input) == (q, taken)
      else PlainPoll(p, input) == (q.(desync := 99), taken)
  {
    FitsExact(p, input.replies[0]);
    SameHandling(p, input);
    hide PlainRead;
  }

  lemma SameHandling(p: Plain, input: Input)
    requires PlainValid(p)
    ensures PlainRead(p, input) == PlainRead(p, input.(forceReinit := false))
  {
    var other := input.(forceReinit := false);
    var taken := Values(TakenFrom(p.active, input.replies[0].slots, Unchanged(p, input.replies[0].slots, 0)));
    SameResults(p.tally, input, other, taken);
    hide HandleAll, PlainCalibrate, Mismatch, Around;
  }

  lemma {:induction false} SameResults(t: Tally, input: Input, other: Input, values: seq<Word>)
    requires TallyValid(t) && other == input.(forceReinit := false)
    ensures HandleAll(t, input, values) == HandleAll(t, other, values)
    decreases |values|
  {
    if values != [] {
      assert HandleOne(t, input, values[0]) == HandleOne(t, other, values[0]);
      SameResults(HandleOne(t, input, values[0]).0, input, other, values[1..]);
    }
  }

  // The sample

  /** How many results are bad. */
  function BadOnes(input: Input, values: seq<Word>): nat {
    if values == [] then 0
    else (if input.grade(input.decode(values[0])).Bad? then 1 else 0) + BadOnes(input, values[1..])
  }

  lemma {:induction false} HandledInTurn(t: Tally, input: Input, a: seq<Word>, b: seq<Word>)
    requires TallyValid(t) && t.chipgen != 0
    ensures var (t', reinit) := HandleAll(t, input, a);
      HandleAll(t, input, a + b) == Then(reinit, HandleAll(t', input, b))
    decreases |a|
  {
    hide HandleOne;
    if a == [] {
      assert a + b == b;
    } else {
      assert (a + b)[0] == a[0] && (a + b)[1..] == a[1..] + b;
      HandledInTurn(HandleOne(t, input, a[0]).0, input, a[1..], b);
    }
  }

  /** The sample counts all results and the bad ones, as long as it is neither full nor bad. */
  lemma {:induction false} SampleCounts(t: Tally, input: Input, values: seq<Word>)
    requires TallyValid(t) && t.chipgen != 0
    requires t.tot + |values| < 0x40 && t.hwe + BadOnes(input, values) < 8
    ensures HandleAll(t, input, values)
         == (t.(tot := t.tot + |values|, hwe := t.hwe + BadOnes(input, values)), false)
    decreases |values|
  {
    if values != [] {
      var bad := input.grade(input.decode(values[0])).Bad?;
      var t' := t.(tot := t.tot + 1, hwe := t.hwe + if bad then 1 else 0);
      assert HandleOne(t, input, values[0]) == (t', false, false);
      SampleCounts(t', input, values[1..]);
    }
  }

  /** The eighth bad result makes the chip start over, with a new sample for the results after it. */
  lemma {:induction false} EighthBadStartsOver(t: Tally, input: Input, a: seq<Word>, v: Word, b: seq<Word>)
    requires TallyValid(t) && t.chipgen != 0 && t.tot + |a| < 0x40
    requires t.hwe + BadOnes(input, a) == 7 && input.grade(input.decode(v)).Bad?
    ensures HandleAll(t, input, a + ([v] + b)) == (HandleAll(t.(tot := 0, hwe := 0), input, b).0, true)
  {
    SampleCounts(t, input, a);
    HandledInTurn(t, input, a, [v] + b);
    assert ([v] + b)[1..] == b;
    hide BadOnes;
  }

  /** The 64th result ends the sample; seven bad ones are forgiven. */
  lemma {:induction false} FullSampleStartsAnew(t: Tally, input: Input, a: seq<Word>, v: Word, b: seq<Word>)
    requires TallyValid(t) && t.chipgen != 0 && t.tot + |a| == 0x3f
    requires t.hwe + BadOnes(input, a) + BadOnes(input, [v]) < 8
    ensures HandleAll(t, input, a + ([v] + b)) == HandleAll(t.(tot := 0, hwe := 0), input, b)
  {
    SampleCounts(t, input, a);
    HandledInTurn(t, input, a, [v] + b);
    assert ([v] + b)[1..] == b;
    assert BadOnes(input, [v]) == if input.grade(input.decode(v)).Bad? then 1 else 0;
  }

  // The chip's generation

  /** Seven bits of a nonce do not matter for the generation. */
  lemma SevenBitsAreIgnored(top: nat, mid: nat, low: nat)
    requires top < 8 && mid < 0x80 && low < 0x40_0000
    ensures Masked(top * 0x2000_0000 + mid * 0x40_0000 + low) == top * 0x2000_0000 + low
  {
  }

  /** A nonce is a mark when it has its first three and its last 22 bits. */
  predicate IsMark(nonce: Word, top: nat, low: nat) {
    nonce / 0x2000_0000 == top && nonce % 0x40_0000 == low
  }

  predicate MarksFirst(nonce: Word) {
    IsMark(nonce, 2, 0x060f87) || IsMark(nonce, 3, 0x0054e0) || IsMark(nonce, 4, 0x156423) || IsMark(nonce, 5, 0x04b2a0)
  }

  predicate MarksSecond(nonce: Word) {
    IsMark(nonce, 7, 0x3081a3) || IsMark(nonce, 7, 0x03df88)
  }

  lemma MaskedParts(nonce: Word, top: nat, low: nat)
    requires low < 0x40_0000
    ensures Masked(nonce) == top * 0x2000_0000 + low <==> IsMark(nonce, top, low)
  {
  }

  /** One of the five values that the driver compares with has one of the seven bits set, and is never found. */
  lemma FifthMarkIsNeverSeen(nonce: Word)
    ensures Masked(nonce) != 0x991abced
  {
    MaskedParts(nonce, 4, 0x191abced % 0x40_0000);
  }

  /** One mark shows generation 2; it takes more than sixteen to show generation 1. */
  lemma Detects(t: Tally, nonce: Word)
    requires TallyValid(t) && t.chipgen == 0
    ensures Detect(t, nonce) ==
      if MarksFirst(nonce) then t.(probe := t.probe + 1, chipgen := if t.probe >= 16 then 1 else 0)
      else if MarksSecond(nonce) then t.(chipgen := 2)
      else t
  {
    MaskedParts(nonce, 2, 0x060f87);
    MaskedParts(nonce, 3, 0x0054e0);
    MaskedParts(nonce, 4, 0x156423);
    MaskedParts(nonce, 5, 0x04b2a0);
    MaskedParts(nonce, 7, 0x3081a3);
    MaskedParts(nonce, 7, 0x03df88);
    FifthMarkIsNeverSeen(nonce);
    hide Masked, IsMark;
  }

  /** How many results mark generation 1. */
  function Marks(input: Input, values: seq<Word>): nat {
    if values == [] then 0
    else (if MarksFirst(input.decode(values[0])) then 1 else 0) + Marks(input, values[1..])
  }

  lemma OneUndecided(t: Tally, input: Input, v: Word)
    requires TallyValid(t) && t.chipgen == 0 && t.hwe == 0 && !MarksSecond(input.decode(v))
    requires t.probe < 16 || !MarksFirst(input.decode(v))
    ensures HandleOne(t, input, v) ==
      (t.(probe := t.probe + if MarksFirst(input.decode(v)) then 1 else 0, tot := (t.tot + 1) % 0x40), false, false)
  {
    Detects(t, input.decode(v));
    hide Detect, MarksFirst, MarksSecond;
  }

  /** Until the generation is known the marks add up over results and polls, and results are not graded. */
  lemma {:induction false} MarksAddUp(t: Tally, input: Input, values: seq<Word>)
    requires TallyValid(t) && t.chipgen == 0 && t.hwe == 0
    requires t.probe + Marks(input, values) <= 16
    requires forall i | 0 <= i < |values| :: !MarksSecond(input.decode(values[i]))
    ensures var (t', reinit) := HandleAll(t, input, values);
      t'.chipgen == 0 && t'.probe == t.probe + Marks(input, values) && t'.hwe == 0 &&
      t'.tot == (t.tot + |values|) % 0x40 && !reinit
    decreases |values|
  {
    hide HandleOne, MarksFirst, MarksSecond;
    if values != [] {
      OneUndecided(t, input, values[0]);
      WrapAround(t.tot, |values| - 1);
      MarksAddUp(HandleOne(t, input, values[0]).0, input, values[1..]);
    }
  }

  /** The result that decides ends the handling of a poll: it and those after it are not counted in the sample. */
  lemma {:induction false} DecidingResultIsLast(t: Tally, input: Input, a: seq<Word>, v: Word, b: seq<Word>)
    requires TallyValid(t) && t.chipgen == 0 && t.hwe == 0 && t.probe + Marks(input, a) <= 16
    requires forall i | 0 <= i < |a| :: !MarksSecond(input.decode(a[i]))
    requires var nonce := input.decode(v);
      MarksSecond(nonce) || (MarksFirst(nonce) && t.probe + Marks(input, a) == 16)
    ensures var (t', reinit) := HandleAll(t, input, a + ([v] + b));
      t'.chipgen == (if MarksFirst(input.decode(v)) then 1 else 2) && t'.tot == (t.tot + |a|) % 0x40 && t'.hwe == 0 && !reinit
    decreases |a|
  {
    hide HandleOne, MarksFirst, MarksSecond;
    if a == [] {
      OneDeciding(t, input, v);
      assert a + ([v] + b) == [v] + b;
    } else {
      OneUndecided(t, input, a[0]);
      WrapAround(t.tot, |a| - 1);
      assert (a + ([v] + b))[0] == a[0] && (a + ([v] + b))[1..] == a[1..] + ([v] + b);
      DecidingResultIsLast(HandleOne(t, input, a[0]).0, input, a[1..], v, b);
    }
  }

  lemma OneDeciding(t: Tally, input: Input, v: Word)
    requires TallyValid(t) && t.chipgen == 0
    requires var nonce := input.decode(v);
      MarksSecond(nonce) || (MarksFirst(nonce) && t.probe == 16)
    ensures var (t', reinit, stop) := HandleOne(t, input, v);
      stop && !reinit && t'.tot == t.tot && t'.hwe == t.hwe && t'.chipgen == if MarksFirst(input.decode(v)) then 1 else 2
  {
    Detects(t, input.decode(v));
    assert !(MarksFirst(input.decode(v)) && MarksSecond(input.decode(v)));
    hide Detect, MarksFirst, MarksSecond;
  }

  lemma WrapAround(tot: nat, n: nat)
    ensures ((tot + 1) % 0x40 + n) % 0x40 == (tot + (n + 1)) % 0x40
  {
  }
}
