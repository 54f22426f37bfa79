/**
 The buffered SHA-256 of SHA256Digest.c: a context that takes a message in pieces, and what it computes
 compared with FIPS 180-4.
 */
module Sha256Context {
  import opened Bytes
  import opened Sha256

  const CHUNK_SIZE := 64
  const TWO_TO_THE_64 := 0x1_0000_0000_0000_0000

  /** The loop over a piece of a message counts in an int. */
  const INT_MAX := 0x7fff_ffff

  class Context {
    const data: array<byte>
    var dataLength: nat
    const hash: array<Word>
    var totalLength: nat  // in bits, modulo 2^64

    ghost predicate Valid()
      reads this
    {
      data.Length == CHUNK_SIZE && hash.Length == 8 && dataLength < CHUNK_SIZE
    }

    /** The whole chunks of the message are in the hash and the rest of it is in the buffer. */
    ghost predicate HoldsBytes(message: seq<byte>)
      requires Valid()
      reads this, data, hash
    {
      && dataLength == |message| % CHUNK_SIZE
      && data[..dataLength] == message[|message| - dataLength..]
      && hash[..] == Absorb(H0, message, |message| / CHUNK_SIZE)
    }

    /** The context has taken exactly this message. */
    ghost predicate Holds(message: seq<byte>)
      requires Valid()
      reads this, data, hash
    {
      HoldsBytes(message) && totalLength == 8 * |message| % TWO_TO_THE_64
    }

    constructor ()
      ensures Valid() && fresh(data) && fresh(hash) && Holds([])
    {
      data := new byte[CHUNK_SIZE](_ => 0);
      hash := new Word[8](_ => 0);
      new;
      Initialize();
    }

    /** SHA256Initialize, also on a context that has been used. */
    method Initialize()
      requires data.Length == CHUNK_SIZE && hash.Length == 8
      modifies this, hash
      ensures Valid() && Holds([])
    {
      forall i | 0 <= i < 8 {
        hash[i] := H0[i];
      }
      assert hash[..] == H0;
      dataLength := 0;
      totalLength := 0;
    }

    method ExpandChunk() returns (w: array<Word>)
      requires data.Length == CHUNK_SIZE
      ensures fresh(w) && w.Length == 64
      ensures w[..] == ScheduleOf(data[..])
    {
      hide Add, SmallSigma0, SmallSigma1, BigEndianWord;
      ghost var block := data[..];
      w := new Word[64];
      var j := 0;
      for i := 0 to 16
        invariant j == 4 * i && data[..] == block
        invariant w[..i] == ScheduleOf(block)[..i]
      {
        w[i] := BigEndianWord(data[j], data[j + 1], data[j + 2], data[j + 3]);
        assert w[i] == Schedule(block, i);
        assert w[..i + 1] == w[..i] + [w[i]];
        j := j + 4;
      }
      for i := 16 to 64
        invariant data[..] == block
        invariant w[..i] == ScheduleOf(block)[..i]
      {
        assert w[..i][i - 16] == w[i - 16] && w[..i][i - 15] == w[i - 15] && w[..i][i - 7] == w[i - 7] && w[..i][i - 2] == w[i - 2];
        ScheduleStep(block, i);
        w[i] := Add(Add(Add(w[i - 16], SmallSigma0(w[i - 15])), w[i - 7]), SmallSigma1(w[i - 2]));
        assert w[..i + 1] == w[..i] + [w[i]];
      }
      assert w[..64] == w[..];
    }

    method ProcessChunk()
      requires data.Length == CHUNK_SIZE && hash.Length == 8
      modifies hash
      ensures hash[..] == Compress(old(hash[..]), data[..])
    {
      hide Add, Round, Schedule;
      ghost var block := data[..];
      var w := ExpandChunk();
      var v := Working(hash[0], hash[1], hash[2], hash[3], hash[4], hash[5], hash[6], hash[7]);
      ghost var start := v;
      assert start == WorkingOf(hash[..]);
      for i := 0 to |K|
        invariant v == Rounds(start, block, i)
        invariant w[..] == ScheduleOf(block) && hash[..] == old(hash[..])
      {
        assert w[i] == w[..][i];
        v := CodeRound(v, K[i], w[i]);
      }
      AddToHash(v);
    }

    method AddToHash(v: Working)
      requires hash.Length == 8
      modifies hash
      ensures hash[..] == AddWorking(old(hash[..]), v)
    {
      hide Add;
      hash[0] := Add(hash[0], v.a);
      hash[1] := Add(hash[1], v.b);
      hash[2] := Add(hash[2], v.c);
      hash[3] := Add(hash[3], v.d);
      hash[4] := Add(hash[4], v.e);
      hash[5] := Add(hash[5], v.f);
      hash[6] := Add(hash[6], v.g);
      hash[7] := Add(hash[7], v.h);
    }

    method PutByte(ghost message: seq<byte>, b: byte)
      requires Valid() && HoldsBytes(message)
      modifies this`dataLength, data, hash
      ensures Valid() && HoldsBytes(message + [b])
    {
      hide Compress;
      ghost var longer := message + [b];
      data[dataLength] := b;
      dataLength := dataLength + 1;
      assert data[..dataLength] == longer[|longer| - dataLength..];
      AbsorbPrefix(H0, message, [b], |message| / CHUNK_SIZE);
      if dataLength == CHUNK_SIZE {
        FullChunk(|message|);
        assert data[..] == data[..dataLength];
        ProcessChunk();
        LastChunkAbsorbed(longer, |message| / CHUNK_SIZE);
        dataLength := 0;
      } else {
        PartialChunk(|message|);
      }
    }

    method Update(ghost message: seq<byte>, input: seq<byte>)
      requires Valid() && Holds(message) && |input| <= INT_MAX
      modifies this, data, hash
      ensures Valid() && Holds(message + input)
    {
      hide Absorb;
      totalLength := (totalLength + 8 * |input|) % TWO_TO_THE_64;
      var i := 0;
      assert message + input[..0] == message;
      while i < |input|
        invariant 0 <= i <= |input|
        invariant Valid() && HoldsBytes(message + input[..i])
        invariant totalLength == (old(totalLength) + 8 * |input|) % TWO_TO_THE_64
      {
        assert message + input[..i + 1] == message + input[..i] + [input[i]];
        PutByte(message + input[..i], input[i]);
        i := i + 1;
      }
      assert input[..i] == input;
      BitsAdd(|message|, |input|);
    }

    /** The length of the padding that the code adds. */
    static function PadLength(dataLength: nat): nat
      requires dataLength < CHUNK_SIZE
    {
      if dataLength < 56 then 64 - dataLength else 120 - dataLength
    }

    /** The code's padding: a one bit, zeros, and the length in bits in the last eight bytes. */
    method MakePadding() returns (padding: array<byte>)
      requires Valid()
      ensures fresh(padding) && padding.Length == 2 * CHUNK_SIZE
      ensures padding[..PadLength(dataLength)] == [0x80] + Zeros(PadLength(dataLength) - 9) + BigEndian(totalLength, 8)
    {
      hide BigEndian, ShiftBytes, Low;
      var padLength := PadLength(dataLength);
      padding := new byte[2 * CHUNK_SIZE](_ => 0);
      padding[0] := 0x80;
      for i := 0 to 8
        invariant padding[..padLength] == [0x80] + Zeros(padLength - i - 1) + BigEndian(totalLength, 8)[8 - i..]
      {
        ghost var before := padding[..padLength];
        BigEndianAt(totalLength, 8, i);
        LengthByte(padLength - i - 2, BigEndian(totalLength, 8)[8 - i..], Low(ShiftBytes(totalLength, i)));
        padding[padLength - 1 - i] := Low(ShiftBytes(totalLength, i));
        assert padding[..padLength] == before[padLength - 1 - i := Low(ShiftBytes(totalLength, i))];
      }
    }

    method WriteOutput(out: array<byte>)
      requires hash.Length == 8 && out.Length >= 32
      modifies out
      ensures out[..32] == OutputOf(hash[..])
      ensures out[32..] == old(out[32..])
    {
      hide WordBytes;
      var j := 0;
      for i := 0 to 8
        invariant j == 4 * i && out[..j] == OutputOf(hash[..i])
        invariant out[32..] == old(out[32..])
      {
        var bytes := WordBytes(hash[i]);
        ghost var done := out[..j];
        out[j], out[j + 1], out[j + 2], out[j + 3] := bytes[0], bytes[1], bytes[2], bytes[3];
        OutputAppend(hash[..i], hash[i]);
        assert hash[..i + 1] == hash[..i] + [hash[i]];
        j := j + 4;
        assert out[..j] == done + bytes;
      }
      assert hash[..8] == hash[..];
    }

    method Finalize(ghost message: seq<byte>, out: array<byte>)
      requires Valid() && Holds(message) && out.Length >= 32
      requires out != data && 8 * |message| < TWO_TO_THE_64
      modifies this, data, hash, out
      ensures Valid() && HoldsBytes(PaddedStream(message))
      ensures out[..32] == CodeDigest(message)
      ensures out[32..] == old(out[32..])
    {
      hide Absorb, Zeros, BigEndian;
      var padLength := PadLength(dataLength);
      var padding := MakePadding();
      assert padding[..padLength] == CodePadding(message);
      Update(message, padding[..padLength]);
      WriteOutput(out);
    }
  }

  /** One pass of the code's compression loop over its eight local variables. */
  method CodeRound(v: Working, k: Word, w: Word) returns (r: Working)
    ensures r == Round(v, k, w)
  {
    var a, b, c, d, e, f, g, h := v.a, v.b, v.c, v.d, v.e, v.f, v.g, v.h;
    var t1 := Add(Add(Add(Add(h, BigSigma1(e)), Ch(e, f, g)), k), w);
    var t2 := Add(BigSigma0(a), Maj(a, b, c));
    h := g;
    g := f;
    f := e;
    e := Add(d, t1);
    d := c;
    c := b;
    b := a;
    a := Add(t1, t2);
    r := Working(a, b, c, d, e, f, g, h);
  }

  /** The packaged form: one message in, its digest out. */
  method ComputeDigest(input: seq<byte>, out: array<byte>)
    requires |input| <= INT_MAX && out.Length >= 32
    modifies out
    ensures out[..32] == CodeDigest(input)
  {
    var ctx := new Context();
    ctx.Update([], input);
    assert [] + input == input;
    ctx.Finalize(input, out);
  }

  function CodePadding(message: seq<byte>): seq<byte> {
    [0x80] + Zeros(Context.PadLength(|message| % CHUNK_SIZE) - 9) + BigEndian(8 * |message|, 8)
  }

  /** Everything that goes through the context until the digest is read off. */
  function PaddedStream(message: seq<byte>): seq<byte> {
    message + CodePadding(message)
  }

  /** What the code computes for a message: only whole chunks of the padded stream reach the hash. */
  function CodeDigest(message: seq<byte>): (r: seq<byte>)
    ensures |r| == 32
  {
    OutputOf(Absorb(H0, PaddedStream(message), |PaddedStream(message)| / CHUNK_SIZE))
  }

  /** x shifted right by 8 * i bits. */
  function ShiftBytes(x: nat, i: nat): nat {
    if i == 0 then x else ShiftBytes(x, i - 1) / 256
  }

  lemma {:induction false} ShiftBytesFirst(x: nat, i: nat)
    requires i > 0
    ensures ShiftBytes(x, i) == ShiftBytes(x / 256, i - 1)
  {
    if i > 1 {
      ShiftBytesFirst(x, i - 1);
    }
  }

  lemma {:induction false} BigEndianAt(x: nat, n: nat, i: nat)
    requires i < n
    ensures BigEndian(x, n)[n - 1 - i] == Low(ShiftBytes(x, i))
  {
    if i > 0 {
      ShiftBytesFirst(x, i);
      BigEndianAt(x / 256, n - 1, i - 1);
    }
  }

  lemma {:induction false} OutputAppend(h: seq<Word>, w: Word)
    ensures OutputOf(h + [w]) == OutputOf(h) + WordBytes(w)
  {
    if h != [] {
      OutputAppend(h[1..], w);
      assert (h + [w])[1..] == h[1..] + [w];
    }
  }

  /** The last zero gives way to a byte of the length. */
  lemma LengthByte(n: nat, length: seq<byte>, b: byte)
    ensures ([0x80] + Zeros(n + 1) + length)[n + 1 := b] == [0x80] + Zeros(n) + ([b] + length)
  {
  }

  lemma LastChunkAbsorbed(message: seq<byte>, n: nat)
    requires |message| == CHUNK_SIZE * (n + 1)
    ensures Absorb(H0, message, n + 1) == Compress(Absorb(H0, message, n), message[|message| - CHUNK_SIZE..])
  {
    hide Compress;
    AbsorbStep(H0, message, n);
    assert message[CHUNK_SIZE * n..CHUNK_SIZE * n + CHUNK_SIZE] == message[|message| - CHUNK_SIZE..];
  }

  lemma FullChunk(n: nat)
    requires n % CHUNK_SIZE + 1 == CHUNK_SIZE
    ensures (n + 1) % CHUNK_SIZE == 0 && (n + 1) / CHUNK_SIZE == n / CHUNK_SIZE + 1
    ensures CHUNK_SIZE * (n / CHUNK_SIZE + 1) == n + 1
  {
  }

  lemma PartialChunk(n: nat)
    requires n % CHUNK_SIZE + 1 < CHUNK_SIZE
    ensures (n + 1) % CHUNK_SIZE == n % CHUNK_SIZE + 1 && (n + 1) / CHUNK_SIZE == n / CHUNK_SIZE
  {
  }

  lemma BitsAdd(m: nat, n: nat)
    ensures (8 * m % TWO_TO_THE_64 + 8 * n) % TWO_TO_THE_64 == 8 * (m + n) % TWO_TO_THE_64
  {
  }

  function ScheduleOf(block: Block): (r: seq<Word>)
    ensures |r| == 64
  {
    seq(64, t requires 0 <= t < 64 => Schedule(block, t))
  }

  /** The code adds the same four words in the opposite order. */
  lemma ScheduleStep(block: Block, t: nat)
    requires 16 <= t < 64
    ensures Schedule(block, t) == Add(Add(Add(Schedule(block, t - 16), SmallSigma0(Schedule(block, t - 15))),
                                              Schedule(block, t - 7)), SmallSigma1(Schedule(block, t - 2)))
  {
    SumInAnyOrder(Schedule(block, t - 16), SmallSigma0(Schedule(block, t - 15)), Schedule(block, t - 7),
                  SmallSigma1(Schedule(block, t - 2)));
  }

  lemma AddComm(a: Word, b: Word)
    ensures Add(a, b) == Add(b, a)
  {
  }

  lemma AddAssoc(a: Word, b: Word, c: Word)
    ensures Add(Add(a, b), c) == Add(a, Add(b, c))
  {
  }

  lemma SumInAnyOrder(a: Word, b: Word, c: Word, d: Word)
    ensures Add(Add(Add(a, b), c), d) == Add(Add(Add(d, c), b), a)
  {
    AddComm(Add(Add(a, b), c), d);
    AddComm(Add(a, b), c);
    AddAssoc(d, c, Add(a, b));
    AddComm(a, b);
    AddAssoc(Add(d, c), b, a);
  }

  // ----- against the standard -----

  /** The padded message as the standard has it, but without its last block. */
  function WithoutLastBlock(padded: seq<byte>): seq<byte>
    requires |padded| >= CHUNK_SIZE
  {
    padded[..|padded| - CHUNK_SIZE]
  }

  lemma PadIsWholeBlocks(message: seq<byte>)
    ensures |Pad(message)| % CHUNK_SIZE == 0
    ensures |Pad(message)| == CHUNK_SIZE * (|message| / CHUNK_SIZE + if |message| % CHUNK_SIZE < 56 then 1 else 2)
  {
    var q, r := |message| / CHUNK_SIZE, |message| % CHUNK_SIZE;
    ZeroBytesBy(|message|, q, r);
    WholeBlocks(|Pad(message)|, q + if r < 56 then 1 else 2);
  }

  lemma ZeroBytesBy(length: nat, q: int, r: int)
    requires length == CHUNK_SIZE * q + r && 0 <= r < CHUNK_SIZE
    ensures ZeroBytes(length) == if r < 56 then 55 - r else 119 - r
  {
    var k := if r < 56 then -q else -q - 1;
    var zeros := if r < 56 then 55 - r else 119 - r;
    assert 55 - length == CHUNK_SIZE * k + zeros;
  }

  lemma WholeBlocks(n: nat, k: nat)
    requires n == CHUNK_SIZE * k
    ensures n % CHUNK_SIZE == 0
  {
  }

  /** With fewer than 56 bytes left over, the code pads as the standard does. */
  lemma ShortPadding(message: seq<byte>)
    requires |message| % CHUNK_SIZE < 56
    ensures PaddedStream(message) == Pad(message)
  {
    hide BigEndian;
  }

  /** Otherwise it adds eight zeros too few: its stream ends in the middle of a block, so the block that
      carries the length is never hashed. */
  lemma LongPadding(message: seq<byte>)
    requires |message| % CHUNK_SIZE >= 56
    ensures |PaddedStream(message)| == |Pad(message)| - 8
    ensures |PaddedStream(message)| / CHUNK_SIZE == |Pad(message)| / CHUNK_SIZE - 1
    ensures PaddedStream(message)[..|Pad(message)| - CHUNK_SIZE] == WithoutLastBlock(Pad(message))
  {
    PadIsWholeBlocks(message);
    var n, m := |message|, |message| % CHUNK_SIZE;
    var head := message + [0x80] + Zeros(63 - m);
    assert |head| == |Pad(message)| - CHUNK_SIZE;
    assert PaddedStream(message)[..|head|] == head == Pad(message)[..|head|];
  }

  /** The blocks that reach the hash: all those of the standard's padded message if and only if fewer
      than 56 bytes are left over; otherwise all but the last one. */
  lemma HashedBlocks(message: seq<byte>)
    ensures PaddedStream(message) == Pad(message) <==> |message| % CHUNK_SIZE < 56
    ensures CodeDigest(message) == OutputOf(Absorb(H0, Pad(message),
              |Pad(message)| / CHUNK_SIZE - if |message| % CHUNK_SIZE < 56 then 0 else 1))
  {
    hide Absorb, Pad, PaddedStream;
    if |message| % CHUNK_SIZE < 56 {
      ShortPadding(message);
    } else {
      LongPadding(message);
      PadIsWholeBlocks(message);
      var padded, stream := Pad(message), PaddedStream(message);
      var n := |padded| / CHUNK_SIZE - 1;
      assert CHUNK_SIZE * n == |padded| - CHUNK_SIZE;
      var common := WithoutLastBlock(padded);
      assert padded == common + padded[CHUNK_SIZE * n..] && stream == common + stream[CHUNK_SIZE * n..];
      AbsorbPrefix(H0, common, padded[CHUNK_SIZE * n..], n);
      AbsorbPrefix(H0, common, stream[CHUNK_SIZE * n..], n);
    }
  }

  /** With fewer than 56 bytes left over, the digest is the standard's. */
  lemma ShortDigest(message: seq<byte>)
    requires |message| % CHUNK_SIZE < 56
    ensures CodeDigest(message) == Digest(message)
  {
    ShortPadding(message);
  }

  lemma WordBytesInjective(v: Word, w: Word)
    requires WordBytes(v) == WordBytes(w)
    ensures v == w
  {
    WordOfBytes(v);
    WordOfBytes(w);
    assert WordBytes(v)[0] == WordBytes(w)[0] && WordBytes(v)[1] == WordBytes(w)[1];
    assert WordBytes(v)[2] == WordBytes(w)[2] && WordBytes(v)[3] == WordBytes(w)[3];
  }

  lemma WordOfBytes(w: Word)
    ensures var b := WordBytes(w); w == 0x100_0000 * b[0] as int + 0x1_0000 * b[1] as int + 0x100 * b[2] as int + b[3] as int
  {
    var h := w / 0x100;
    assert w == 0x100 * h + w % 0x100;
    assert w / 0x1_0000 == h / 0x100 && w / 0x100_0000 == h / 0x100 / 0x100;
  }

  lemma {:induction false} OutputInjective(g: seq<Word>, h: seq<Word>)
    requires |g| == |h| && OutputOf(g) == OutputOf(h)
    ensures g == h
  {
    if g != [] {
      assert OutputOf(g)[..4] == WordBytes(g[0]) && OutputOf(h)[..4] == WordBytes(h[0]);
      assert OutputOf(g)[4..] == OutputOf(g[1..]) && OutputOf(h)[4..] == OutputOf(h[1..]);
      WordBytesInjective(g[0], h[0]);
      OutputInjective(g[1..], h[1..]);
    }
  }

  /** The hash value before the last block of the padded message, that block, and the value after it. */
  ghost function BeforeLastBlock(message: seq<byte>): HashValue {
    Absorb(H0, Pad(message), |Pad(message)| / CHUNK_SIZE - 1)
  }

  ghost function LastBlock(message: seq<byte>): Block {
    PadIsWholeBlocks(message);
    Pad(message)[|Pad(message)| - CHUNK_SIZE..]
  }

  ghost function AfterLastBlock(message: seq<byte>): HashValue {
    Compress(BeforeLastBlock(message), LastBlock(message))
  }

  lemma DigestOfLastBlock(message: seq<byte>)
    ensures Digest(message) == OutputOf(AfterLastBlock(message))
  {
    hide Compress, Absorb, Pad;
    PadIsWholeBlocks(message);
    var n := |Pad(message)| / CHUNK_SIZE - 1;
    AbsorbStep(H0, Pad(message), n);
    assert Pad(message)[CHUNK_SIZE * n..CHUNK_SIZE * n + CHUNK_SIZE] == LastBlock(message);
  }

  /** With 56 or more bytes left over, the standard's digest takes one more block than the code's, so the
      two agree only when that block happens to compress the hash value to itself. */
  lemma LongDigest(message: seq<byte>)
    requires |message| % CHUNK_SIZE >= 56
    ensures CodeDigest(message) == OutputOf(BeforeLastBlock(message))
    ensures Digest(message) == OutputOf(AfterLastBlock(message))
    ensures CodeDigest(message) == Digest(message) <==> AfterLastBlock(message) == BeforeLastBlock(message)
  {
    hide Absorb, Pad, PaddedStream, CodeDigest, AfterLastBlock;
    HashedBlocks(message);
    DigestOfLastBlock(message);
    if CodeDigest(message) == Digest(message) {
      OutputInjective(BeforeLastBlock(message), AfterLastBlock(message));
    }
  }

  /** The shortest message that is affected: the standard hashes two blocks for it, the code one. */
  lemma FiftySixBytes()
    ensures var message := Zeros(56);
      && |Pad(message)| == 128 && |PaddedStream(message)| == 120
      && CodeDigest(message) == OutputOf(Absorb(H0, Pad(message), 1))
  {
    hide Absorb;
    PadIsWholeBlocks(Zeros(56));
    HashedBlocks(Zeros(56));
    LongPadding(Zeros(56));
  }

  /** Pieces of a message, each short enough for one update. */
  predicate Pieces(pieces: seq<seq<byte>>) {
    forall i | 0 <= i < |pieces| :: |pieces[i]| <= INT_MAX
  }

  function Joined(pieces: seq<seq<byte>>): seq<byte> {
    if pieces == [] then [] else Joined(pieces[..|pieces| - 1]) + pieces[|pieces| - 1]
  }

  lemma JoinedStep(pieces: seq<seq<byte>>, i: nat)
    requires i < |pieces|
    ensures Joined(pieces[..i + 1]) == Joined(pieces[..i]) + pieces[i]
  {
    assert pieces[..i + 1][..i] == pieces[..i];
  }

  method UpdateAll(ctx: Context, pieces: seq<seq<byte>>)
    requires Pieces(pieces) && ctx.Valid() && ctx.Holds([])
    modifies ctx, ctx.data, ctx.hash
    ensures ctx.Valid() && ctx.Holds(Joined(pieces))
  {
    hide Absorb, Joined;
    assert pieces[..0] == [];
    assert Joined([]) == [] by { EmptyJoined(); }
    for i := 0 to |pieces|
      invariant ctx.Valid() && ctx.Holds(Joined(pieces[..i]))
    {
      JoinedStep(pieces, i);
      ctx.Update(Joined(pieces[..i]), pieces[i]);
    }
    assert pieces[..|pieces|] == pieces;
  }

  lemma EmptyJoined()
    ensures Joined([]) == []
  {
  }

  /** However a message is cut into pieces, the digest is that of the message. */
  method DigestOfPieces(pieces: seq<seq<byte>>, out: array<byte>)
    requires Pieces(pieces) && out.Length >= 32 && 8 * |Joined(pieces)| < TWO_TO_THE_64
    modifies out
    ensures out[..32] == CodeDigest(Joined(pieces))
  {
    hide Absorb, Joined, CodeDigest;
    var ctx := new Context();
    UpdateAll(ctx, pieces);
    ctx.Finalize(Joined(pieces), out);
  }
}
