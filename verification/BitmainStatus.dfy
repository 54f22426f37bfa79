/**
 The status packet of the Bitmain driver (driver-bitmain.c): a fixed header, two groups of bitmaps whose lengths
 depend on numbers that come after them, those numbers, temperatures, fan speeds and a checksum.

 Bitmap words are kept as their bytes, least significant first, as they lie in a little-endian host's memory.
 */
module BitmainStatus {
  import opened Bytes
  import BitmainCrc

  const RXSTATUS := 0xa1
  const HEADER := 28
  const MAX_CHAINS := 16
  const MAX_TEMPS := 32
  const MAX_FANS := 32

  type Word16 = n: int | 0 <= n < TWO_TO_THE_16
  type Word32 = n: int | 0 <= n < TWO_TO_THE_32

  datatype Header = Header(
    flags: byte, fifoSpace: Word16, hwVersion: seq<byte>, fanExist: Word16,
    tempExist: Word32, nonceError: Word32, regValue: Word32)

  datatype Status = Status(
    header: Header, exist: seq<seq<byte>>, status: seq<seq<byte>>, asicNum: seq<byte>, temp: seq<byte>, fan: seq<byte>)

  // Lengths

  /** Bitmap words of a chain of so many chips: one bit a chip, and a word even for none. */
  function Words(asicNum: byte): (r: nat)
    ensures 1 <= r <= 8
    ensures asicNum > 0 ==> 32 * (r - 1) < asicNum <= 32 * r
  {
    if asicNum <= 0 then 1 else if asicNum % 32 == 0 then asicNum / 32 else asicNum / 32 + 1
  }

  /** Bytes of one group of bitmaps. */
  function GroupSize(nums: seq<byte>): (r: nat)
    ensures r <= 32 * |nums|
  {
    if nums == [] then 0 else GroupSize(nums[..|nums| - 1]) + 4 * Words(nums[|nums| - 1])
  }

  predicate PiecesFit(pieces: seq<seq<byte>>, nums: seq<byte>) {
    |pieces| == |nums| && forall i | 0 <= i < |nums| :: |pieces[i]| == 4 * Words(nums[i])
  }

  predicate WellFormed(st: Status) {
    |st.header.hwVersion| == 4 &&
    PiecesFit(st.exist, st.asicNum) && PiecesFit(st.status, st.asicNum) &&
    |st.asicNum| <= MAX_CHAINS && |st.temp| <= MAX_TEMPS && |st.fan| <= MAX_FANS
  }

  // The serializer

  function Le16(n: Word16): (r: seq<byte>)
    ensures |r| == 2
  {
    [n % 0x100, n / 0x100]
  }

  function Le32(n: Word32): (r: seq<byte>)
    ensures |r| == 4
  {
    [n % 0x100, n / 0x100 % 0x100, n / 0x1_0000 % 0x100, n / 0x100_0000]
  }

  function Concat(pieces: seq<seq<byte>>): seq<byte> {
    if pieces == [] then [] else Concat(pieces[..|pieces| - 1]) + pieces[|pieces| - 1]
  }

  function HeaderBytes(h: Header, length: Word16, chains: byte, fans: byte, temps: byte): (r: seq<byte>)
    requires |h.hwVersion| == 4
    ensures |r| == HEADER
  {
    [RXSTATUS, 0] + Le16(length) + [h.flags, chains] + Le16(h.fifoSpace) + h.hwVersion + [fans, temps] +
    Le16(h.fanExist) + Le32(h.tempExist) + Le32(h.nonceError) + Le32(h.regValue)
  }

  function AsBits(data: seq<byte>): (r: seq<bv8>)
    ensures |r| == |data|
  {
    seq(|data|, i requires 0 <= i < |data| => data[i] as bv8)
  }

  function Checksum(data: seq<byte>): Word16 {
    BitmainCrc.Modbus(AsBits(data)) as int
  }

  function PacketSize(st: Status): nat {
    HEADER + 2 * GroupSize(st.asicNum) + |st.asicNum| + |st.temp| + |st.fan| + 2
  }

  /** Everything but the checksum. */
  function Body(st: Status): (r: seq<byte>)
    requires WellFormed(st)
    ensures |r| == PacketSize(st) - 2
  {
    ConcatSize(st.exist, st.asicNum);
    ConcatSize(st.status, st.asicNum);
    HeaderBytes(st.header, PacketSize(st) - 4, |st.asicNum|, |st.fan|, |st.temp|) +
    Concat(st.exist) + Concat(st.status) + st.asicNum + st.temp + st.fan
  }

  function Serialize(st: Status): (r: seq<byte>)
    requires WellFormed(st)
    ensures |r| == PacketSize(st)
  {
    Body(st) + Le16(Checksum(Body(st)))
  }

  lemma {:induction false} ConcatSize(pieces: seq<seq<byte>>, nums: seq<byte>)
    requires PiecesFit(pieces, nums)
    ensures |Concat(pieces)| == GroupSize(nums)
  {
    if nums != [] {
      ConcatSize(pieces[..|pieces| - 1], nums[..|nums| - 1]);
    }
  }

  /** The longest packet is the longest that the driver's callers let through: a length field of 1130. */
  lemma LongestPacket(st: Status)
    requires WellFormed(st)
    ensures PacketSize(st) <= 1130 + 4
  {
  }

  // The parser

  function FromLe16(b: seq<byte>): Word16
    requires |b| == 2
  {
    0x100 * b[1] as int + b[0]
  }

  function FromLe32(b: seq<byte>): Word32
    requires |b| == 4
  {
    0x100_0000 * b[3] as int + 0x1_0000 * b[2] as int + 0x100 * b[1] as int + b[0]
  }

  function ReadHeader(data: seq<byte>): (h: Header)
    requires |data| >= HEADER
    ensures |h.hwVersion| == 4
  {
    Header(data[4], FromLe16(data[6..8]), data[8..12], FromLe16(data[14..16]),
           FromLe32(data[16..20]), FromLe32(data[20..24]), FromLe32(data[24..28]))
  }

  /** The bitmaps of one group, which starts at the given offset. */
  function Pieces(data: seq<byte>, at: nat, nums: seq<byte>): (r: seq<seq<byte>>)
    requires at + GroupSize(nums) <= |data|
    ensures |r| == |nums|
  {
    if nums == [] then []
    else
      var front := nums[..|nums| - 1];
      Pieces(data, at, front) + [data[at + GroupSize(front)..at + GroupSize(nums)]]
  }

  /** Overrun: the code reads before or after the packet, or writes past an array of the result. */
  datatype Outcome = Accepted(status: Status) | Rejected | Overrun

  /** The numbers of chips, which are found by counting back from the end. */
  function AsicNums(data: seq<byte>): (nums: seq<byte>)
    requires |data| >= HEADER && (data[5] > 0 ==> |data| - 2 - data[5] - data[13] - data[12] >= 0)
    ensures |nums| == data[5]
  {
    var tail := |data| - 2 - data[5] - data[13] - data[12];
    if data[5] > 0 then data[tail..tail + data[5]] else []
  }

  /** The checks on the type, the version, the length and the checksum. */
  predicate Plausible(data: seq<byte>)
    requires |data| >= HEADER
  {
    data[0] == RXSTATUS && data[1] == 0 && FromLe16(data[2..4]) + 4 == |data| &&
    Checksum(data[..(|data| - 2) % TWO_TO_THE_16]) == FromLe16(data[|data| - 2..])
  }

  function Parse(data: seq<byte>): Outcome {
    if |data| == 0 then Rejected
    else if |data| < HEADER then Overrun
    else if !Plausible(data) || data[5] > MAX_CHAINS then Rejected
    else if data[5] > 0 && |data| - 2 - data[5] - data[13] - data[12] < 0 then Overrun
    else ParseRest(data, AsicNums(data))
  }

  /** Everything after the numbers of chips. */
  function ParseRest(data: seq<byte>, nums: seq<byte>): Outcome
    requires |data| >= HEADER
  {
    var size := GroupSize(nums);
    if HEADER + 2 * size > |data| then Overrun
    else if HEADER + 2 * size + |nums| + data[13] + data[12] + 2 != |data| then Rejected
    else if data[13] > MAX_TEMPS || data[12] > MAX_FANS then Overrun
    else Accepted(Contents(data, nums))
  }

  /** The fields of a packet whose numbers of chips are given. */
  function Contents(data: seq<byte>, nums: seq<byte>): Status
    requires |data| >= HEADER
    requires HEADER + 2 * GroupSize(nums) + |nums| + data[13] + data[12] + 2 == |data|
  {
    var size := GroupSize(nums);
    var at := HEADER + 2 * size + |nums|;
    Status(ReadHeader(data), Pieces(data, HEADER, nums), Pieces(data, HEADER + size, nums), nums,
           data[at..at + data[13]], data[at + data[13]..at + data[13] + data[12]])
  }

  // Parsing undoes serializing

  lemma Le16RoundTrip(n: Word16, b: seq<byte>)
    requires |b| == 2
    ensures FromLe16(Le16(n)) == n && Le16(FromLe16(b)) == b
  {
  }

  lemma FromLe32OfLe32(n: Word32)
    ensures FromLe32(Le32(n)) == n
  {
    var h := n / 0x100;
    assert n == 0x100 * h + n % 0x100;
    assert n / 0x1_0000 == h / 0x100 && n / 0x100_0000 == h / 0x100 / 0x100;
  }

  lemma Le32OfFromLe32(b: seq<byte>)
    requires |b| == 4
    ensures Le32(FromLe32(b)) == b
  {
    var n := FromLe32(b);
    var h3: nat := b[3];
    var h2: nat := 0x100 * h3 + b[2];
    var h1: nat := 0x100 * h2 + b[1];
    assert n == 0x100 * h1 + b[0];
    assert n / 0x100 == h1 && n / 0x1_0000 == h2 && n / 0x100_0000 == h3;
  }

  lemma SplitSlice(data: seq<byte>, at: nat, m: nat, n: nat)
    requires m <= n && at + n <= |data|
    ensures data[at..at + n][..m] == data[at..at + m]
    ensures data[at..at + n][m..] == data[at + m..at + n]
    ensures data[at..at + n] == data[at..at + m] + data[at + m..at + n]
  {
  }

  lemma {:induction false} GroupStep(nums: seq<byte>)
    requires nums != []
    ensures GroupSize(nums) == GroupSize(nums[..|nums| - 1]) + 4 * Words(nums[|nums| - 1])
  {
  }

  lemma PiecesStep(data: seq<byte>, at: nat, nums: seq<byte>)
    requires nums != [] && at + GroupSize(nums) <= |data|
    ensures var front := nums[..|nums| - 1];
      GroupSize(front) <= GroupSize(nums) &&
      Pieces(data, at, nums) == Pieces(data, at, front) + [data[at + GroupSize(front)..at + GroupSize(nums)]]
  {
  }

  lemma {:induction false} ConcatStep(pieces: seq<seq<byte>>)
    requires pieces != []
    ensures var front, last := Concat(pieces[..|pieces| - 1]), pieces[|pieces| - 1];
      Concat(pieces) == front + last && Concat(pieces)[..|front|] == front && Concat(pieces)[|front|..] == last
  {
  }

  lemma FrontFits(pieces: seq<seq<byte>>, nums: seq<byte>)
    requires PiecesFit(pieces, nums) && nums != []
    ensures |pieces| == |nums| && PiecesFit(pieces[..|pieces| - 1], nums[..|nums| - 1])
    ensures |pieces[|pieces| - 1]| == 4 * Words(nums[|nums| - 1])
  {
  }

  lemma {:induction false} PiecesOfConcat(data: seq<byte>, at: nat, pieces: seq<seq<byte>>, nums: seq<byte>)
    requires PiecesFit(pieces, nums)
    requires at + GroupSize(nums) <= |data| && data[at..at + GroupSize(nums)] == Concat(pieces)
    ensures Pieces(data, at, nums) == pieces
  {
    if nums != [] {
      hide PiecesFit, Words, GroupSize, Pieces, Concat;
      var m := |nums| - 1;
      var before, size := GroupSize(nums[..m]), GroupSize(nums);
      FrontFits(pieces, nums);
      ConcatSize(pieces[..m], nums[..m]);
      ConcatStep(pieces);
      PiecesStep(data, at, nums);
      SplitSlice(data, at, before, size);
      PiecesOfConcat(data, at, pieces[..m], nums[..m]);
      assert data[at + before..at + size] == pieces[m];
      WithLast(pieces);
    }
  }

  lemma WithLast(pieces: seq<seq<byte>>)
    requires pieces != []
    ensures pieces == pieces[..|pieces| - 1] + [pieces[|pieces| - 1]]
  {
  }

  lemma FitsWithLast(pieces: seq<seq<byte>>, nums: seq<byte>, piece: seq<byte>)
    requires nums != [] && PiecesFit(pieces, nums[..|nums| - 1]) && |piece| == 4 * Words(nums[|nums| - 1])
    ensures PiecesFit(pieces + [piece], nums)
  {
  }

  lemma {:induction false} ConcatOfPieces(data: seq<byte>, at: nat, nums: seq<byte>)
    requires at + GroupSize(nums) <= |data|
    ensures PiecesFit(Pieces(data, at, nums), nums)
    ensures Concat(Pieces(data, at, nums)) == data[at..at + GroupSize(nums)]
  {
    if nums != [] {
      hide PiecesFit, Words, GroupSize, Pieces, Concat;
      var m := |nums| - 1;
      var front, all := Pieces(data, at, nums[..m]), Pieces(data, at, nums);
      PiecesStep(data, at, nums);
      GroupStep(nums);
      ConcatOfPieces(data, at, nums[..m]);
      SplitSlice(data, at, GroupSize(nums[..m]), GroupSize(nums));
      FitsWithLast(front, nums, all[m]);
      assert all[..m] == front;
      ConcatStep(all);
    }
  }

  lemma HeaderReads(data: seq<byte>, h: Header, length: Word16, chains: byte, fans: byte, temps: byte)
    requires |h.hwVersion| == 4 && |data| >= HEADER
    requires data[..HEADER] == HeaderBytes(h, length, chains, fans, temps)
    ensures data[0] == RXSTATUS && data[1] == 0 && FromLe16(data[2..4]) == length
    ensures data[5] == chains && data[12] == fans && data[13] == temps
    ensures ReadHeader(data) == h
  {
    var b := data[..HEADER];
    assert data[2..4] == b[2..4] == Le16(length);
    assert data[6..8] == b[6..8] == Le16(h.fifoSpace);
    assert data[8..12] == b[8..12] == h.hwVersion;
    assert data[14..16] == b[14..16] == Le16(h.fanExist);
    assert data[16..20] == b[16..20] == Le32(h.tempExist);
    assert data[20..24] == b[20..24] == Le32(h.nonceError);
    assert data[24..28] == b[24..28] == Le32(h.regValue);
    Le16RoundTrip(length, Le16(length));
    Le16RoundTrip(h.fifoSpace, Le16(length));
    Le16RoundTrip(h.fanExist, Le16(length));
    FromLe32OfLe32(h.tempExist);
    FromLe32OfLe32(h.nonceError);
    FromLe32OfLe32(h.regValue);
  }

  lemma HeaderWrites(data: seq<byte>)
    requires |data| >= HEADER && data[0] == RXSTATUS && data[1] == 0
    ensures HeaderBytes(ReadHeader(data), FromLe16(data[2..4]), data[5], data[12], data[13]) == data[..HEADER]
  {
    Le16RoundTrip(0, data[2..4]);
    Le16RoundTrip(0, data[6..8]);
    Le16RoundTrip(0, data[14..16]);
    Le32OfFromLe32(data[16..20]);
    Le32OfFromLe32(data[20..24]);
    Le32OfFromLe32(data[24..28]);
    assert data[..HEADER] == data[0..2] + data[2..4] + data[4..6] + data[6..8] + data[8..12] + data[12..14] +
                             data[14..16] + data[16..20] + data[20..24] + data[24..28];
  }

  // The parts of a serialized packet

  lemma BodyParts(st: Status)
    requires WellFormed(st)
    ensures var b, size := Body(st), GroupSize(st.asicNum);
      var at := HEADER + 2 * size;
      |b| == at + |st.asicNum| + |st.temp| + |st.fan| &&
      b[..HEADER] == HeaderBytes(st.header, PacketSize(st) - 4, |st.asicNum|, |st.fan|, |st.temp|) &&
      b[HEADER..HEADER + size] == Concat(st.exist) && b[HEADER + size..at] == Concat(st.status) &&
      b[at..at + |st.asicNum|] == st.asicNum &&
      b[at + |st.asicNum|..at + |st.asicNum| + |st.temp|] == st.temp &&
      b[at + |st.asicNum| + |st.temp|..] == st.fan
  {
    hide HeaderBytes, Concat, PiecesFit, GroupSize;
    var header := HeaderBytes(st.header, PacketSize(st) - 4, |st.asicNum|, |st.fan|, |st.temp|);
    assert Body(st) == header + Concat(st.exist) + Concat(st.status) + st.asicNum + st.temp + st.fan;
    hide Body;
    ConcatSize(st.exist, st.asicNum);
    ConcatSize(st.status, st.asicNum);
    SixParts(header, Concat(st.exist), Concat(st.status), st.asicNum, st.temp, st.fan);
  }

  lemma SixParts(a: seq<byte>, b: seq<byte>, c: seq<byte>, d: seq<byte>, e: seq<byte>, f: seq<byte>)
    ensures var s := a + b + c + d + e + f;
      var to2 := |a| + |b|;
      var to3 := to2 + |c|;
      var to4 := to3 + |d|;
      var to5 := to4 + |e|;
      s[..|a|] == a && s[|a|..to2] == b && s[to2..to3] == c && s[to3..to4] == d && s[to4..to5] == e && s[to5..] == f
  {
    var s2 := a + b;
    var s3 := s2 + c;
    var s4 := s3 + d;
    var s5 := s4 + e;
    LastPart(s5, f);
    LastPart(s4, e);
    LastPart(s3, d);
    LastPart(s2, c);
    LastPart(a, b);
    var s := s5 + f;
    SliceOfPrefix(s, s5, |s4|, |s5|);
    SliceOfPrefix(s, s4, |s3|, |s4|);
    SliceOfPrefix(s, s3, |s2|, |s3|);
    SliceOfPrefix(s, s2, |a|, |s2|);
    SliceOfPrefix(s, a, 0, |a|);
  }

  lemma LastPart(x: seq<byte>, y: seq<byte>)
    ensures (x + y)[|x|..] == y && x <= x + y
  {
  }

  lemma SliceOfPrefix(data: seq<byte>, b: seq<byte>, from: nat, to: nat)
    requires from <= to <= |b| && b <= data
    ensures data[from..to] == b[from..to]
  {
  }

  lemma SerializedHead(st: Status)
    requires WellFormed(st)
    ensures var data := Serialize(st);
      Plausible(data) && ReadHeader(data) == st.header &&
      data[5] == |st.asicNum| && data[12] == |st.fan| && data[13] == |st.temp|
  {
    hide HeaderBytes, Concat, Checksum, ReadHeader, Body, GroupSize, PiecesFit;
    var b := Body(st);
    var data := Serialize(st);
    BodyParts(st);
    assert data[..|b|] == b && data[|b|..] == Le16(Checksum(b));
    Le16RoundTrip(Checksum(b), Le16(0));
    SliceOfPrefix(data, b, 0, HEADER);
    HeaderReads(data, st.header, PacketSize(st) - 4, |st.asicNum|, |st.fan|, |st.temp|);
    LongestPacket(st);
  }

  lemma SerializedContents(st: Status)
    requires WellFormed(st) && ReadHeader(Serialize(st)) == st.header
    requires Serialize(st)[12] == |st.fan| && Serialize(st)[13] == |st.temp|
    ensures Contents(Serialize(st), st.asicNum) == st
  {
    hide HeaderBytes, Concat, Pieces, Checksum, ReadHeader, Body, GroupSize, PiecesFit;
    var b, size := Body(st), GroupSize(st.asicNum);
    var data := Serialize(st);
    var at := HEADER + 2 * size;
    var n, t, f := |st.asicNum|, |st.temp|, |st.fan|;
    BodyParts(st);
    SliceOfPrefix(data, b, HEADER, HEADER + size);
    SliceOfPrefix(data, b, HEADER + size, at);
    SliceOfPrefix(data, b, at + n, at + n + t);
    SliceOfPrefix(data, b, at + n + t, at + n + t + f);
    PiecesOfConcat(data, HEADER, st.exist, st.asicNum);
    PiecesOfConcat(data, HEADER + size, st.status, st.asicNum);
  }

  lemma SerializedNums(st: Status)
    requires WellFormed(st)
    requires var data := Serialize(st);
      data[5] == |st.asicNum| && data[12] == |st.fan| && data[13] == |st.temp|
    ensures AsicNums(Serialize(st)) == st.asicNum
  {
    hide HeaderBytes, Concat, Checksum, Body, GroupSize, PiecesFit;
    var at := HEADER + 2 * GroupSize(st.asicNum);
    BodyParts(st);
    SliceOfPrefix(Serialize(st), Body(st), at, at + |st.asicNum|);
  }

  /** The parser takes every packet apart as it was put together. */
  lemma ParseSerialized(st: Status)
    requires WellFormed(st)
    ensures Parse(Serialize(st)) == Accepted(st)
  {
    hide Plausible, ReadHeader, AsicNums, Contents, GroupSize, Body;
    SerializedHead(st);
    SerializedNums(st);
    SerializedContents(st);
  }

  lemma Cut(data: seq<byte>, a: nat, b: nat, c: nat, d: nat, e: nat, f: nat)
    requires a <= b <= c <= d <= e <= f <= |data|
    ensures data[..f] == data[..a] + data[a..b] + data[b..c] + data[c..d] + data[d..e] + data[e..f]
  {
  }

  /** What the parser has checked by the time it accepts. */
  lemma AcceptedMeans(data: seq<byte>)
    requires Parse(data).Accepted?
    ensures |data| >= HEADER && Plausible(data)
    ensures (data[5] > 0 ==> |data| - 2 - data[5] - data[13] - data[12] >= 0) && data[5] <= MAX_CHAINS
    ensures data[13] <= MAX_TEMPS && data[12] <= MAX_FANS
    ensures var nums := AsicNums(data);
      var at := HEADER + 2 * GroupSize(nums);
      at + |nums| + data[13] + data[12] + 2 == |data| && nums == data[at..at + |nums|] &&
      Parse(data).status == Contents(data, nums)
  {
    hide Plausible, Contents, GroupSize;
  }

  /** The sizes that the contents of a packet have to have. */
  predicate Measured(data: seq<byte>, nums: seq<byte>)
    requires |data| >= HEADER
  {
    |nums| == data[5] <= MAX_CHAINS && data[13] <= MAX_TEMPS && data[12] <= MAX_FANS &&
    HEADER + 2 * GroupSize(nums) + |nums| + data[13] + data[12] + 2 == |data| &&
    nums == data[HEADER + 2 * GroupSize(nums)..HEADER + 2 * GroupSize(nums) + |nums|]
  }

  lemma ContentsWellFormed(data: seq<byte>, nums: seq<byte>)
    requires |data| >= HEADER && Measured(data, nums)
    ensures WellFormed(Contents(data, nums)) && PacketSize(Contents(data, nums)) == |data| <= 1134
  {
    hide Pieces, ReadHeader, PiecesFit, GroupSize;
    ConcatOfPieces(data, HEADER, nums);
    ConcatOfPieces(data, HEADER + GroupSize(nums), nums);
    LongestPacket(Contents(data, nums));
  }

  lemma ContentsBody(data: seq<byte>, nums: seq<byte>)
    requires |data| >= HEADER && Measured(data, nums) && WellFormed(Contents(data, nums))
    requires data[0] == RXSTATUS && data[1] == 0 && FromLe16(data[2..4]) + 4 == |data|
    requires PacketSize(Contents(data, nums)) == |data|
    ensures Body(Contents(data, nums)) == data[..|data| - 2]
  {
    hide HeaderBytes, Concat, Pieces, ReadHeader, WellFormed, GroupSize, PacketSize, FromLe16;
    var size := GroupSize(nums);
    var temps := HEADER + 2 * size + |nums|;
    ConcatOfPieces(data, HEADER, nums);
    ConcatOfPieces(data, HEADER + size, nums);
    hide PiecesFit;
    HeaderWrites(data);
    Cut(data, HEADER, HEADER + size, HEADER + 2 * size, temps, temps + data[13], |data| - 2);
  }

  lemma PlausibleChecksum(data: seq<byte>)
    requires HEADER <= |data| <= 1134 && Plausible(data)
    ensures data == data[..|data| - 2] + Le16(Checksum(data[..|data| - 2]))
  {
    hide Checksum;
    Le16RoundTrip(0, data[|data| - 2..]);
    assert (|data| - 2) % TWO_TO_THE_16 == |data| - 2;
  }

  /** What the parser accepts is a packet of what it returns: nothing else gets through. */
  lemma AcceptedIsSerialized(data: seq<byte>)
    requires Parse(data).Accepted?
    ensures WellFormed(Parse(data).status) && Serialize(Parse(data).status) == data
  {
    AcceptedMeans(data);
    var nums := AsicNums(data);
    hide Contents, WellFormed, GroupSize, Parse, AsicNums, Body, PacketSize;
    ContentsWellFormed(data, nums);
    ContentsBody(data, nums);
    PlausibleChecksum(data);
  }

  /** The numbers of chips, of temperatures and of fans, with the checksum, are more than the packet holds. */
  predicate CountsTooMuch(data: seq<byte>)
    requires |data| >= HEADER
  {
    data[5] > 0 && data[5] as int + data[12] as int + data[13] as int + 2 > |data|
  }

  /** The parser leaves its bounds on a packet shorter than a header, and on one that is sound so far but whose counts
      point before its beginning or behind its end, or whose readings do not fit the record; on nothing else. */
  lemma OverrunExact(data: seq<byte>)
    ensures Parse(data) == Overrun <==>
      0 < |data| < 28 ||
      (|data| >= 28 && Plausible(data) && data[5] <= 16 &&
       (CountsTooMuch(data) ||
        (var size := 28 + 2 * GroupSize(AsicNums(data));
         size > |data| ||
         (size + data[5] as int + data[12] as int + data[13] as int + 2 == |data| && (data[13] > 32 || data[12] > 32)))))
  {
    hide Plausible, Contents, GroupSize;
  }

  /** The packets that the parser accepts are exactly the well-formed ones. */
  lemma AcceptsExactlyWellFormed(data: seq<byte>, st: Status)
    ensures Parse(data) == Accepted(st) <==> WellFormed(st) && data == Serialize(st)
  {
    hide Serialize, WellFormed, Parse;
    if WellFormed(st) {
      ParseSerialized(st);
    }
    if Parse(data).Accepted? {
      AcceptedIsSerialized(data);
    }
  }

  // The driver's record of a status, filled in place

  const SLOT := 32

  predicate PiecesInSlots(pieces: seq<seq<byte>>) {
    |pieces| <= MAX_CHAINS && forall i | 0 <= i < |pieces| :: |pieces[i]| <= SLOT
  }

  /** Every bitmap at the start of a slot of eight words of its own, with zeros after it. */
  function Slots(pieces: seq<seq<byte>>): (r: seq<byte>)
    requires PiecesInSlots(pieces)
    ensures |r| == SLOT * |pieces|
  {
    if pieces == [] then []
    else
      var m := |pieces| - 1;
      Slots(pieces[..m]) + pieces[m] + Zeros(SLOT - |pieces[m]|)
  }

  /** The array of a group: the slots of the chains there are, and zeros for the others. */
  function GroupArray(pieces: seq<seq<byte>>): (r: seq<byte>)
    requires PiecesInSlots(pieces)
    ensures |r| == SLOT * MAX_CHAINS
  {
    Slots(pieces) + Zeros(SLOT * MAX_CHAINS - SLOT * |pieces|)
  }

  /** No bitmap touches another's slot. */
  lemma SlotHoldsPiece(pieces: seq<seq<byte>>, j: nat)
    requires PiecesInSlots(pieces) && j < |pieces|
    ensures GroupArray(pieces)[SLOT * j..SLOT * j + SLOT] == pieces[j] + Zeros(SLOT - |pieces[j]|)
  {
    SlotAt(pieces, j);
    SliceOfPrefix(GroupArray(pieces), Slots(pieces), SLOT * j, SLOT * j + SLOT);
  }

  lemma {:induction false} SlotAt(pieces: seq<seq<byte>>, j: nat)
    requires PiecesInSlots(pieces) && j < |pieces|
    ensures Slots(pieces)[SLOT * j..SLOT * j + SLOT] == pieces[j] + Zeros(SLOT - |pieces[j]|)
    decreases |pieces|
  {
    var m := |pieces| - 1;
    var front, slot := Slots(pieces[..m]), pieces[m] + Zeros(SLOT - |pieces[m]|);
    assert Slots(pieces) == front + slot;
    if j < m {
      SlotAt(pieces[..m], j);
      SliceOfPrefix(front + slot, front, SLOT * j, SLOT * j + SLOT);
    } else {
      assert (front + slot)[SLOT * m..SLOT * m + SLOT] == slot;
    }
  }

  lemma {:induction false} PiecesPrefix(data: seq<byte>, at: nat, nums: seq<byte>, j: nat)
    requires j < |nums|
    ensures GroupSize(nums[..j + 1]) == GroupSize(nums[..j]) + 4 * Words(nums[j])
    ensures at + GroupSize(nums[..j + 1]) <= |data| ==>
      Pieces(data, at, nums[..j + 1]) ==
      Pieces(data, at, nums[..j]) + [data[at + GroupSize(nums[..j])..at + GroupSize(nums[..j + 1])]]
  {
    assert nums[..j + 1][..j] == nums[..j];
    GroupStep(nums[..j + 1]);
    if at + GroupSize(nums[..j + 1]) <= |data| {
      PiecesStep(data, at, nums[..j + 1]);
    }
  }

  lemma {:induction false} GroupGrows(nums: seq<byte>, j: nat)
    requires j <= |nums|
    ensures GroupSize(nums[..j]) <= GroupSize(nums)
    decreases |nums| - j
  {
    if j < |nums| {
      PiecesPrefix([], 0, nums, j);
      GroupGrows(nums, j + 1);
    } else {
      assert nums[..j] == nums;
    }
  }

  lemma GroupArrayStep(pieces: seq<seq<byte>>, piece: seq<byte>)
    requires |pieces| < MAX_CHAINS && PiecesInSlots(pieces) && |piece| <= SLOT
    ensures PiecesInSlots(pieces + [piece])
    ensures var before := GroupArray(pieces);
      var pos := SLOT * |pieces|;
      GroupArray(pieces + [piece]) == before[..pos] + piece + before[pos + |piece|..]
  {
    assert (pieces + [piece])[..|pieces|] == pieces;
  }

  /** memcpy into an array */
  method CopyTo(dst: array<byte>, pos: nat, src: seq<byte>)
    requires pos + |src| <= dst.Length
    modifies dst
    ensures dst[..] == old(dst[..])[..pos] + src + old(dst[..])[pos + |src|..]
  {
    forall k | 0 <= k < |src| {
      dst[pos + k] := src[k];
    }
  }

  /** One of the two copying loops: each chain's words go to the start of its own slot. */
  method CopyGroup(dst: array<byte>, data: seq<byte>, at: nat, nums: seq<byte>) returns (dataindex: nat, overrun: bool)
    requires dst[..] == Zeros(SLOT * MAX_CHAINS) && |nums| <= MAX_CHAINS && at <= |data|
    modifies dst
    ensures overrun <==> at + GroupSize(nums) > |data|
    ensures !overrun ==> dataindex == at + GroupSize(nums) && PiecesInSlots(Pieces(data, at, nums))
    ensures !overrun ==> dst[..] == GroupArray(Pieces(data, at, nums))
  {
    hide GroupSize, Pieces, GroupArray, PiecesInSlots, Words;
    dataindex := at;
    overrun := false;
    EmptyGroup(data, at, nums);
    for i := 0 to |nums|
      invariant dataindex == at + GroupSize(nums[..i]) <= |data|
      invariant PiecesInSlots(Pieces(data, at, nums[..i]))
      invariant dst[..] == GroupArray(Pieces(data, at, nums[..i]))
    {
      var size := 4 * Words(nums[i]);
      PiecesPrefix(data, at, nums, i);
      if dataindex + size > |data| {
        GroupGrows(nums, i + 1);
        overrun := true;
        return;
      }
      var piece := data[dataindex..dataindex + size];
      GroupArrayStep(Pieces(data, at, nums[..i]), piece);
      CopyTo(dst, SLOT * i, piece);
      dataindex := dataindex + size;
    }
    assert nums[..|nums|] == nums;
  }

  lemma {:induction false} EmptyGroup(data: seq<byte>, at: nat, nums: seq<byte>)
    requires at <= |data|
    ensures GroupSize(nums[..0]) == 0 && Pieces(data, at, nums[..0]) == []
    ensures PiecesInSlots([]) && GroupArray([]) == Zeros(SLOT * MAX_CHAINS)
  {
  }

  lemma AsBitsPrefix(data: seq<byte>, n: nat)
    requires n <= |data|
    ensures AsBits(data)[..n] == AsBits(data[..n])
  {
  }

  /** 0, -1, and what the model does not follow. */
  datatype Verdict = Success | Failure | OutOfBounds

  /** struct bitmain_rxstatus_data */
  class RxStatus {
    var header: Header
    var chainNum: byte
    var fanNum: byte
    var tempNum: byte
    const exist: array<byte>
    const status: array<byte>
    const asicNum: array<byte>
    const temp: array<byte>
    const fan: array<byte>

    ghost predicate Valid() {
      exist.Length == status.Length == SLOT * MAX_CHAINS && asicNum.Length == MAX_CHAINS &&
      temp.Length == MAX_TEMPS && fan.Length == MAX_FANS &&
      exist != status && exist != asicNum && exist != temp && exist != fan && status != asicNum && status != temp &&
      status != fan && asicNum != temp && asicNum != fan && temp != fan
    }

    /** The record holds the status: each part at the start of its array, the rest zero. */
    ghost predicate Holds(st: Status)
      reads this, exist, status, asicNum, temp, fan
    {
      header == st.header && chainNum == |st.asicNum| && fanNum == |st.fan| && tempNum == |st.temp| &&
      PiecesInSlots(st.exist) && exist[..] == GroupArray(st.exist) &&
      PiecesInSlots(st.status) && status[..] == GroupArray(st.status) &&
      |st.asicNum| <= MAX_CHAINS && |st.temp| <= MAX_TEMPS && |st.fan| <= MAX_FANS &&
      asicNum[..] == st.asicNum + Zeros(MAX_CHAINS - |st.asicNum|) &&
      temp[..] == st.temp + Zeros(MAX_TEMPS - |st.temp|) &&
      fan[..] == st.fan + Zeros(MAX_FANS - |st.fan|)
    }

    constructor ()
      ensures Valid()
      ensures fresh(exist) && fresh(status) && fresh(asicNum) && fresh(temp) && fresh(fan)
    {
      header := Header(0, 0, [0, 0, 0, 0], 0, 0, 0, 0);
      chainNum, fanNum, tempNum := 0, 0, 0;
      exist := new byte[SLOT * MAX_CHAINS];
      status := new byte[SLOT * MAX_CHAINS];
      asicNum := new byte[MAX_CHAINS];
      temp := new byte[MAX_TEMPS];
      fan := new byte[MAX_FANS];
    }

    static method Clear(dst: array<byte>)
      modifies dst
      ensures dst[..] == Zeros(dst.Length)
    {
      forall k | 0 <= k < dst.Length {
        dst[k] := 0;
      }
    }

    /** memcpy into an array just cleared */
    static method CopyToStart(dst: array<byte>, src: seq<byte>)
      requires dst[..] == Zeros(dst.Length) && |src| <= dst.Length
      modifies dst
      ensures dst[..] == src + Zeros(dst.Length - |src|)
    {
      forall k | 0 <= k < |src| {
        dst[k] := src[k];
      }
    }

    /** memset of the arrays */
    method ClearAll()
      requires Valid()
      modifies exist, status, asicNum, temp, fan
      ensures exist[..] == status[..] == Zeros(SLOT * MAX_CHAINS) && asicNum[..] == Zeros(MAX_CHAINS)
      ensures temp[..] == Zeros(MAX_TEMPS) && fan[..] == Zeros(MAX_FANS)
    {
      Clear(exist);
      Clear(status);
      Clear(asicNum);
      Clear(temp);
      Clear(fan);
    }

    /** The two loops over the chains. */
    method FillGroups(data: seq<byte>, nums: seq<byte>) returns (dataindex: nat, overrun: bool)
      requires Valid() && |nums| <= MAX_CHAINS && HEADER <= |data|
      requires exist[..] == status[..] == Zeros(SLOT * MAX_CHAINS)
      modifies exist, status
      ensures overrun <==> HEADER + 2 * GroupSize(nums) > |data|
      ensures !overrun ==> dataindex == HEADER + 2 * GroupSize(nums)
      ensures !overrun ==> PiecesInSlots(Pieces(data, HEADER, nums)) && exist[..] == GroupArray(Pieces(data, HEADER, nums))
      ensures var start := HEADER + GroupSize(nums);
        !overrun ==> PiecesInSlots(Pieces(data, start, nums)) && status[..] == GroupArray(Pieces(data, start, nums))
    {
      hide GroupSize, Pieces, GroupArray, PiecesInSlots;
      dataindex, overrun := CopyGroup(exist, data, HEADER, nums);
      if !overrun {
        dataindex, overrun := CopyGroup(status, data, dataindex, nums);
      }
    }

    /** The temperatures and the fans, from where the walk over the chains ended. */
    method FillTail(data: seq<byte>, start: nat)
      requires Valid() && tempNum <= MAX_TEMPS && fanNum <= MAX_FANS && start + tempNum + fanNum <= |data|
      requires temp[..] == Zeros(MAX_TEMPS) && fan[..] == Zeros(MAX_FANS)
      modifies temp, fan
      ensures temp[..] == data[start..start + tempNum] + Zeros(MAX_TEMPS - tempNum)
      ensures fan[..] == data[start + tempNum..start + tempNum + fanNum] + Zeros(MAX_FANS - fanNum)
    {
      CopyToStart(temp, data[start..start + tempNum]);
      var dataindex := start + tempNum;
      CopyToStart(fan, data[dataindex..dataindex + fanNum]);
    }

    /** The numbers of chips, copied from the offset counted back from the end. */
    method FillNums(data: seq<byte>) returns (overrun: bool)
      requires Valid() && |data| >= HEADER && asicNum[..] == Zeros(MAX_CHAINS)
      requires chainNum == data[5] <= MAX_CHAINS && fanNum == data[12] && tempNum == data[13]
      modifies asicNum
      ensures overrun <==> data[5] > 0 && |data| - 2 - data[5] - data[13] - data[12] < 0
      ensures !overrun ==> asicNum[..] == AsicNums(data) + Zeros(MAX_CHAINS - data[5])
    {
      var tail := |data| - 2 - chainNum - tempNum - fanNum;
      overrun := false;
      if chainNum > 0 {
        if tail < 0 {
          return true;
        }
        CopyToStart(asicNum, data[tail..tail + chainNum]);
      }
    }

    /** bitmain_parse_rxstatus */
    method ParseRxStatus(data: seq<byte>) returns (verdict: Verdict)
      requires Valid()
      modifies this, exist, status, asicNum, temp, fan
      ensures verdict.Success? <==> Parse(data).Accepted?
      ensures verdict.Failure? <==> Parse(data).Rejected?
      ensures verdict.Success? ==> WellFormed(Parse(data).status) && Holds(Parse(data).status)
    {
      hide Plausible, Checksum, GroupSize, Pieces, GroupArray, ReadHeader, WellFormed, AsicNums, ParseRest, Holds, Serialize;
      if |data| == 0 {
        return Failure;
      }
      if |data| < HEADER {
        return OutOfBounds;
      }
      header := ReadHeader(data);
      chainNum, fanNum, tempNum := data[5], data[12], data[13];
      var plausible := Check(data);
      if !plausible || chainNum > MAX_CHAINS {
        return Failure;
      }
      ClearAll();
      var overrun := FillNums(data);
      if overrun {
        return OutOfBounds;
      }
      var nums := asicNum[..chainNum];
      assert nums == AsicNums(data);
      verdict := FillRest(data, nums);
      if Parse(data).Accepted? {
        AcceptedIsSerialized(data);
      }
    }

    /** Everything after the numbers of chips. */
    method FillRest(data: seq<byte>, nums: seq<byte>) returns (verdict: Verdict)
      requires Valid() && |data| >= HEADER && |nums| == chainNum == data[5] <= MAX_CHAINS
      requires header == ReadHeader(data) && fanNum == data[12] && tempNum == data[13]
      requires asicNum[..] == nums + Zeros(MAX_CHAINS - |nums|)
      requires exist[..] == status[..] == Zeros(SLOT * MAX_CHAINS)
      requires temp[..] == Zeros(MAX_TEMPS) && fan[..] == Zeros(MAX_FANS)
      modifies exist, status, temp, fan
      ensures verdict.Success? <==> ParseRest(data, nums).Accepted?
      ensures verdict.Failure? <==> ParseRest(data, nums).Rejected?
      ensures verdict.Success? ==> Holds(ParseRest(data, nums).status)
    {
      hide GroupSize, Pieces, GroupArray, ReadHeader, PiecesInSlots;
      var dataindex, overrun := FillGroups(data, nums);
      if overrun {
        return OutOfBounds;
      }
      dataindex := dataindex + chainNum;
      if dataindex + tempNum + fanNum + 2 != |data| {
        return Failure;
      }
      if tempNum > MAX_TEMPS || fanNum > MAX_FANS {
        return OutOfBounds;
      }
      FillTail(data, dataindex);
      return Success;
    }

    static method Check(data: seq<byte>) returns (plausible: bool)
      requires |data| >= HEADER
      ensures plausible == Plausible(data)
    {
      if data[0] != RXSTATUS || data[1] != 0 || FromLe16(data[2..4]) + 4 != |data| {
        return false;
      }
      var length := (|data| - 2) % TWO_TO_THE_16;
      var crc := BitmainCrc.Crc16(AsBits(data), length);
      AsBitsPrefix(data, length);
      return crc as int == FromLe16(data[|data| - 2..]);
    }
  }
}
