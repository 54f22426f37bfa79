/**
 The packets of the Avalon MM protocol (driver-avalonmm.c): a command's data is cut into numbered packets
 of fixed size, and a reply is put together from such packets.

 The checksum function and its byte order are parameters: the driver writes it most significant byte first
 and reads it least significant byte first.
 */
module AvalonPackets {
  import opened Bytes
  import opened Options

  const DATA_SIZE := 0x20
  const PKT_SIZE := DATA_SIZE + 7

  type Word16 = n: int | 0 <= n < TWO_TO_THE_16

  datatype Wire = Wire(crc: seq<byte> -> Word16, bigEndian: bool) {
    function CrcBytes(data: seq<byte>): (r: seq<byte>)
      ensures |r| == 2
    {
      if bigEndian then [crc(data) / 256, crc(data) % 256] else [crc(data) % 256, crc(data) / 256]
    }
  }

  /** Even no data takes a packet. */
  function PacketCount(size: nat): (n: nat)
    ensures n > 0 && DATA_SIZE * (n - 1) <= size <= DATA_SIZE * n
  {
    if size == 0 then 1 else (size + DATA_SIZE - 1) / DATA_SIZE
  }

  function Padded(data: seq<byte>): (r: seq<byte>)
    ensures |r| == DATA_SIZE * PacketCount(|data|)
  {
    data + Zeros(DATA_SIZE * PacketCount(|data|) - |data|)
  }

  function Chunk(data: seq<byte>, i: nat): (r: seq<byte>)
    requires i < PacketCount(|data|)
    ensures |r| == DATA_SIZE
  {
    Padded(data)[DATA_SIZE * i..DATA_SIZE * i + DATA_SIZE]
  }

  /** Packet i, counting from 0: its index field counts from 1, and both counts are cut to a byte. */
  function Packet(w: Wire, cmd: byte, data: seq<byte>, i: nat): (r: seq<byte>)
    requires i < PacketCount(|data|)
    ensures |r| == PKT_SIZE
  {
    [0x41, 0x56, cmd, Low(i + 1), Low(PacketCount(|data|))] + Chunk(data, i) + w.CrcBytes(Chunk(data, i))
  }

  /** The first n packets. */
  function Packets(w: Wire, cmd: byte, data: seq<byte>, n: nat): (r: seq<seq<byte>>)
    requires n <= PacketCount(|data|)
    ensures |r| == n
  {
    if n == 0 then [] else Packets(w, cmd, data, n - 1) + [Packet(w, cmd, data, n - 1)]
  }

  // ----- writing -----

  method FillData(pkt: array<byte>, data: seq<byte>, at: nat, copySize: nat)
    requires pkt.Length == PKT_SIZE && at + copySize <= |data| && copySize <= DATA_SIZE
    modifies pkt
    ensures pkt[..5] == old(pkt[..5])
    ensures pkt[5..5 + DATA_SIZE] == data[at..at + copySize] + Zeros(DATA_SIZE - copySize)
  {
    forall i | 0 <= i < DATA_SIZE {
      pkt[5 + i] := if i < copySize then data[at + i] else 0;
    }
  }

  method FillCrc(w: Wire, pkt: array<byte>)
    requires pkt.Length == PKT_SIZE
    modifies pkt
    ensures pkt[..5 + DATA_SIZE] == old(pkt[..5 + DATA_SIZE])
    ensures pkt[..5] == old(pkt[..5]) && pkt[5..5 + DATA_SIZE] == old(pkt[5..5 + DATA_SIZE])
    ensures pkt[5 + DATA_SIZE..] == w.CrcBytes(old(pkt[5..5 + DATA_SIZE]))
  {
    var crc := w.CrcBytes(pkt[5..5 + DATA_SIZE]);
    pkt[5 + DATA_SIZE], pkt[6 + DATA_SIZE] := crc[0], crc[1];
  }

  /** `accepts` writes succeed, and then one fails. */
  method WriteCmd(w: Wire, cmd: byte, data: seq<byte>, accepts: nat) returns (ok: bool, sent: seq<seq<byte>>)
    ensures ok <==> PacketCount(|data|) <= accepts
    ensures sent == Packets(w, cmd, data, if ok then PacketCount(|data|) else accepts)
  {
    assert Low(1) == 1 && Packets(w, cmd, data, 0) == [];
    hide Chunk, Padded, Zeros, PacketCount, Packet, Packets, Low;
    var packets := Low(PacketCount(|data|));
    var pkt := StartPacket(cmd, packets);
    var dataSize, at := |data|, 0;
    sent := [];
    while true
      invariant |sent| < PacketCount(|data|) && |sent| <= accepts
      invariant at == DATA_SIZE * |sent| && dataSize == |data| - at
      invariant sent == Packets(w, cmd, data, |sent|)
      invariant pkt[..5] == [0x41, 0x56, cmd, Low(|sent| + 1), packets]
      decreases PacketCount(|data|) - |sent|
    {
      ghost var n := |sent|;
      var copySize := if dataSize < DATA_SIZE then dataSize else DATA_SIZE;
      CopySizes(|data|, n, copySize);
      FillPacket(w, cmd, pkt, data, n, at, copySize);
      if |sent| == accepts {
        return false, sent;
      }
      sent := sent + [pkt[..]];
      NextPacket(w, cmd, data, n);
      dataSize := dataSize - copySize;
      if dataSize == 0 {
        return true, sent;
      }
      at := at + copySize;
      CountUp(pkt, cmd, packets, n);
    }
  }

  method StartPacket(cmd: byte, packets: byte) returns (pkt: array<byte>)
    ensures fresh(pkt) && pkt.Length == PKT_SIZE && pkt[..5] == [0x41, 0x56, cmd, 1, packets]
  {
    pkt := new byte[PKT_SIZE](_ => 0);
    pkt[0], pkt[1], pkt[2], pkt[3], pkt[4] := 0x41, 0x56, cmd, 1, packets;
  }

  method CountUp(pkt: array<byte>, ghost cmd: byte, ghost packets: byte, ghost n: nat)
    requires pkt.Length == PKT_SIZE && pkt[..5] == [0x41, 0x56, cmd, Low(n + 1), packets]
    modifies pkt
    ensures pkt[..5] == [0x41, 0x56, cmd, Low(n + 2), packets]
  {
    NextIndex(n);
    assert pkt[3] == pkt[..5][3];
    hide Low;
    pkt[3] := Low(pkt[3] as int + 1);
  }

  lemma NextPacket(w: Wire, cmd: byte, data: seq<byte>, n: nat)
    requires n < PacketCount(|data|)
    ensures Packets(w, cmd, data, n + 1) == Packets(w, cmd, data, n) + [Packet(w, cmd, data, n)]
  {
  }

  lemma NextIndex(n: nat)
    ensures Low(Low(n + 1) as int + 1) == Low(n + 2)
  {
  }

  /** Everything behind the header, which is there already. */
  method FillPacket(w: Wire, ghost cmd: byte, pkt: array<byte>, data: seq<byte>, ghost n: nat, at: nat, copySize: nat)
    requires pkt.Length == PKT_SIZE && at == DATA_SIZE * n && n < PacketCount(|data|)
    requires copySize == if |data| - DATA_SIZE * n < DATA_SIZE then |data| - DATA_SIZE * n else DATA_SIZE
    requires pkt[..5] == [0x41, 0x56, cmd, Low(n + 1), Low(PacketCount(|data|))]
    modifies pkt
    ensures pkt[..] == Packet(w, cmd, data, n) && pkt[..5] == old(pkt[..5])
  {
    hide Padded, Zeros, PacketCount, Low;
    ChunkOf(data, n, copySize);
    FillData(pkt, data, at, copySize);
    FillCrc(w, pkt);
    assert pkt[..5 + DATA_SIZE] == pkt[..5] + pkt[5..5 + DATA_SIZE];
    assert pkt[..] == pkt[..5 + DATA_SIZE] + pkt[5 + DATA_SIZE..];
  }

  lemma ChunkOf(data: seq<byte>, i: nat, copySize: nat)
    requires i < PacketCount(|data|)
    requires copySize == if |data| - DATA_SIZE * i < DATA_SIZE then |data| - DATA_SIZE * i else DATA_SIZE
    ensures DATA_SIZE * i + copySize <= |data|
    ensures Chunk(data, i) == data[DATA_SIZE * i..DATA_SIZE * i + copySize] + Zeros(DATA_SIZE - copySize)
  {
  }

  lemma CopySizes(size: nat, i: nat, copySize: int)
    requires i < PacketCount(size)
    requires copySize == if size - DATA_SIZE * i < DATA_SIZE then size - DATA_SIZE * i else DATA_SIZE
    ensures 0 <= copySize && DATA_SIZE * i + copySize <= size
    ensures copySize == size - DATA_SIZE * i <==> i + 1 == PacketCount(size)
  {
  }

  // ----- reading -----

  datatype Reply = Reply(size: nat, buf: seq<byte>, reply: byte)

  /** A packet that may be taken: complete, with the right header and checksum. */
  predicate Intact(w: Wire, pkt: seq<byte>) {
    && |pkt| == PKT_SIZE && pkt[0] == 0x41 && pkt[1] == 0x56
    && w.CrcBytes(pkt[5..5 + DATA_SIZE]) == pkt[5 + DATA_SIZE..]
  }

  /** The state of a read: how many packets were taken, as a byte; how many there should be; what the
      caller's buffer holds; and how much room it has left. */
  datatype Progress = Progress(got: byte, packets: byte, buf: seq<byte>, room: nat)

  /** Takes a packet, or fails. */
  function Take(w: Wire, p: Progress, pkt: seq<byte>): Option<Progress> {
    if !Intact(w, pkt) then None
    else
      var got := Low(p.got as int + 1);
      var packets := if p.got == 0 then pkt[4] else p.packets;
      if pkt[3] != (if p.got == 0 then 1 else got) || pkt[4] != packets then None
      else
        var n := if p.room > DATA_SIZE then DATA_SIZE else p.room;
        Some(Progress(got, packets, p.buf + pkt[5..5 + n], p.room - n))
  }

  function ReadFrom(w: Wire, p: Progress, received: seq<seq<byte>>): Option<Reply>
    decreases |received|
  {
    if received == [] then None
    else
      var p' := Take(w, p, received[0]);
      if p'.None? then None
      else if p'.value.got == p'.value.packets then
        Some(Reply(p'.value.got as int * DATA_SIZE, p'.value.buf, received[0][2]))
      else ReadFrom(w, p'.value, received[1..])
  }

  method Read(w: Wire, received: seq<seq<byte>>, bufSize: nat) returns (r: Option<Reply>)
    ensures r == ReadFrom(w, Progress(0, 0, [], bufSize), received)
  {
    var got, packets, buf, room := 0, 0, [], bufSize;
    var i := 0;
    while i < |received|
      invariant 0 <= i <= |received| && 0 <= got < 256 && 0 <= packets < 256 && room >= 0
      invariant ReadFrom(w, Progress(0, 0, [], bufSize), received) == ReadFrom(w, Progress(got, packets, buf, room), received[i..])
    {
      var pkt := received[i];
      assert received[i..][1..] == received[i + 1..];
      if !Intact(w, pkt) {
        return None;
      }
      if got == 0 {
        if pkt[3] != 1 {
          return None;
        }
        got := 1;
        packets := pkt[4];
      } else {
        got := Low(got + 1);
        if pkt[3] != got || pkt[4] != packets {
          return None;
        }
      }
      if room > DATA_SIZE {
        buf := buf + pkt[5..5 + DATA_SIZE];
        room := room - DATA_SIZE;
      } else {
        buf := buf + pkt[5..5 + room];
        room := 0;
      }
      if got == packets {
        return Some(Reply(got * DATA_SIZE, buf, pkt[2]));
      }
      i := i + 1;
    }
    return None;
  }

  // ----- reading what was written -----

  /** The data, padded to whole packets, as far as it fits the buffer. */
  function Prefix(data: seq<byte>, bufSize: nat, packets: nat): seq<byte>
    requires packets <= PacketCount(|data|)
  {
    Padded(data)[..if bufSize < DATA_SIZE * packets then bufSize else DATA_SIZE * packets]
  }

  lemma PacketFields(w: Wire, cmd: byte, data: seq<byte>, i: nat)
    requires i < PacketCount(|data|)
    ensures var pkt := Packet(w, cmd, data, i);
      && Intact(w, pkt) && pkt[2] == cmd && pkt[3] == Low(i + 1) && pkt[4] == Low(PacketCount(|data|))
      && pkt[5..5 + DATA_SIZE] == Chunk(data, i)
  {
  }

  /** After n packets, none of which was the last one expected. */
  function After(data: seq<byte>, bufSize: nat, n: nat): Progress
    requires n <= PacketCount(|data|)
  {
    Progress(Low(n), if n == 0 then 0 else Low(PacketCount(|data|)), Prefix(data, bufSize, n),
             if bufSize < DATA_SIZE * n then 0 else bufSize - DATA_SIZE * n)
  }

  lemma TakeNext(w: Wire, cmd: byte, data: seq<byte>, bufSize: nat, n: nat)
    requires n < PacketCount(|data|) && n < 256
    ensures Take(w, After(data, bufSize, n), Packet(w, cmd, data, n)) == Some(After(data, bufSize, n + 1))
  {
    var pkt, p := Packet(w, cmd, data, n), After(data, bufSize, n);
    PacketFields(w, cmd, data, n);
    var m := if p.room > DATA_SIZE then DATA_SIZE else p.room;
    SliceSlice(pkt, 5, 5 + DATA_SIZE, m);
    SliceSlice(Padded(data), DATA_SIZE * n, DATA_SIZE * n + DATA_SIZE, m);
    assert pkt[5..5 + m] == Padded(data)[DATA_SIZE * n..DATA_SIZE * n + m];
    assert p.buf + pkt[5..5 + m] == Prefix(data, bufSize, n + 1);
  }

  lemma SliceSlice(s: seq<byte>, from: nat, to: nat, m: nat)
    requires from + m <= to <= |s|
    ensures s[from..to][..m] == s[from..from + m]
  {
  }

  /** How many packets are read: the count field has a byte, and a full byte reads as 256. */
  function PacketsRead(packets: nat): nat {
    if packets % 256 == 0 then 256 else packets % 256
  }

  lemma {:induction false} ReadWritten(w: Wire, cmd: byte, data: seq<byte>, bufSize: nat, n: nat)
    requires n < PacketsRead(PacketCount(|data|)) <= PacketCount(|data|)
    ensures var p := PacketCount(|data|);
      ReadFrom(w, After(data, bufSize, n), Packets(w, cmd, data, p)[n..])
        == Some(Reply(DATA_SIZE * (p % 256), Prefix(data, bufSize, PacketsRead(p)), cmd))
    decreases PacketCount(|data|) - n
  {
    hide Take, Packets, Packet, Prefix, PacketCount;
    var p := PacketCount(|data|);
    var all := Packets(w, cmd, data, p);
    PacketAt(w, cmd, data, p, n);
    TakeNext(w, cmd, data, bufSize, n);
    PacketFields(w, cmd, data, n);
    assert all[n..][0] == all[n] && all[n..][1..] == all[n + 1..];
    if n + 1 < PacketsRead(p) {
      assert Low(n + 1) != Low(p);
      ReadWritten(w, cmd, data, bufSize, n + 1);
    }
  }

  lemma {:induction false} PacketAt(w: Wire, cmd: byte, data: seq<byte>, n: nat, i: nat)
    requires i < n <= PacketCount(|data|)
    ensures Packets(w, cmd, data, n)[i] == Packet(w, cmd, data, i)
  {
    if i < n - 1 {
      PacketAt(w, cmd, data, n - 1, i);
    }
  }

  /**
   Reading back what was written: for up to 255 packets, the data padded to whole packets comes back, cut
   to the buffer, and its size is reported.  With more, the one-byte count makes the reader stop early and
   report too little.
   */
  lemma {:induction false} RoundTrip(w: Wire, cmd: byte, data: seq<byte>, bufSize: nat)
    ensures var p := PacketCount(|data|);
      && PacketsRead(p) <= p
      && ReadFrom(w, Progress(0, 0, [], bufSize), Packets(w, cmd, data, p))
        == Some(Reply(DATA_SIZE * (p % 256), Prefix(data, bufSize, PacketsRead(p)), cmd))
      && (p % 256 == p <==> |data| <= 8160)
      && (|data| <= 8160 ==> PacketsRead(p) == p)
  {
    var p := PacketCount(|data|);
    assert After(data, bufSize, 0) == Progress(0, 0, [], bufSize);
    assert Packets(w, cmd, data, p)[0..] == Packets(w, cmd, data, p);
    ReadWritten(w, cmd, data, bufSize, 0);
  }
}
