/**
 What an Avalon packet looks like on the wire, and which packets make a reply that is accepted. AvalonPackets proves
 that the driver's loops write and read as its functions say; here those functions are tied to the bytes.
 */
module AvalonWire {
  import opened Bytes
  import opened Options
  import opened AvalonPackets

  /** A packet's checksum field, as one number. */
  function CrcField(w: Wire, pkt: seq<byte>): int
    requires |pkt| == 39
  {
    if w.bigEndian then pkt[37] as int * 256 + pkt[38] else pkt[38] as int * 256 + pkt[37]
  }

  /** The data, continued with zeros. */
  function DataAt(data: seq<byte>, i: nat): byte {
    if i < |data| then data[i] else 0
  }

  /** Every packet starts with AV, then the command, its number and the count of packets, and ends with the checksum of
      its 32 bytes of data. */
  lemma PacketLayout(w: Wire, cmd: byte, data: seq<byte>, i: nat)
    requires i < PacketCount(|data|)
    ensures var pkt := Packet(w, cmd, data, i);
      |pkt| == 39 && pkt[0] as char == 'A' && pkt[1] as char == 'V' && pkt[2] == cmd &&
      pkt[3] == (i + 1) % 256 && pkt[4] == PacketCount(|data|) % 256 && CrcField(w, pkt) == w.crc(pkt[5..37]) &&
      forall j | 5 <= j < 37 :: pkt[j] == DataAt(data, 32 * i + j - 5)
  {
    PacketFields(w, cmd, data, i);
    var pkt := Packet(w, cmd, data, i);
    forall j | 5 <= j < 37 ensures pkt[j] == DataAt(data, 32 * i + j - 5) {
      assert pkt[j] == pkt[5..5 + DATA_SIZE][j - 5] == Padded(data)[32 * i + j - 5];
    }
  }

  /** How many packets the first one announces; 0 stands for 256. */
  function Announced(received: seq<seq<byte>>): (n: nat)
    requires received != [] && |received[0]| == 39
    ensures 0 < n <= 256
  {
    if received[0][4] == 0 then 256 else received[0][4]
  }

  /** Packet i of a transmission is as it should be. */
  predicate Acceptable(w: Wire, received: seq<seq<byte>>, i: nat) {
    i < |received| && |received[0]| == |received[i]| == 39 &&
    received[i][0] == 0x41 && received[i][1] == 0x56 && CrcField(w, received[i]) == w.crc(received[i][5..37]) &&
    received[i][3] == (i + 1) % 256 && received[i][4] == received[0][4]
  }

  predicate AllAcceptable(w: Wire, received: seq<seq<byte>>, n: nat) {
    n <= |received| && forall i | 0 <= i < n :: Acceptable(w, received, i)
  }

  predicate Complete(w: Wire, received: seq<seq<byte>>) {
    Acceptable(w, received, 0) && AllAcceptable(w, received, Announced(received))
  }

  function Joined(w: Wire, received: seq<seq<byte>>, n: nat): (r: seq<byte>)
    requires AllAcceptable(w, received, n)
    ensures |r| == 32 * n
  {
    if n == 0 then []
    else
      assert Acceptable(w, received, n - 1);
      Joined(w, received, n - 1) + received[n - 1][5..37]
  }

  function Cut(s: seq<byte>, size: nat): seq<byte> {
    if |s| <= size then s else s[..size]
  }

  /** What a complete transmission amounts to: its size, its data as far as it fits, and the last packet's code. */
  function Received(w: Wire, received: seq<seq<byte>>, bufSize: nat): Reply
    requires Complete(w, received)
  {
    var n := Announced(received);
    assert Acceptable(w, received, n - 1);
    Reply(32 * (n % 256), Cut(Joined(w, received, n), bufSize), received[n - 1][2])
  }

  /** The read after n good packets. */
  function TakenSoFar(w: Wire, received: seq<seq<byte>>, bufSize: nat, n: nat): Progress
    requires AllAcceptable(w, received, n)
  {
    assert n > 0 ==> Acceptable(w, received, 0);
    Progress(n % 256, if n == 0 then 0 else received[0][4], Cut(Joined(w, received, n), bufSize),
             if bufSize < 32 * n then 0 else bufSize - 32 * n)
  }

  lemma IntactExact(w: Wire, pkt: seq<byte>)
    ensures Intact(w, pkt) <==> |pkt| == 39 && pkt[0] == 0x41 && pkt[1] == 0x56 && CrcField(w, pkt) == w.crc(pkt[5..37])
  {
    if |pkt| == 39 {
      assert pkt[37..] == [pkt[37], pkt[38]];
    }
  }

  lemma CutMore(s: seq<byte>, more: seq<byte>, size: nat, m: nat)
    requires m == if size <= |s| then 0 else if size - |s| > |more| then |more| else size - |s|
    ensures Cut(s, size) + more[..m] == Cut(s + more, size)
  {
  }

  lemma TakeAcceptable(w: Wire, received: seq<seq<byte>>, bufSize: nat, n: nat)
    requires AllAcceptable(w, received, n) && n < |received| && n < 256
    ensures Acceptable(w, received, n) ==> AllAcceptable(w, received, n + 1)
    ensures Take(w, TakenSoFar(w, received, bufSize, n), received[n]) ==
      if Acceptable(w, received, n) then Some(TakenSoFar(w, received, bufSize, n + 1)) else None
  {
    var p, pkt := TakenSoFar(w, received, bufSize, n), received[n];
    IntactExact(w, pkt);
    hide Intact, CrcField, Cut;
    assert n > 0 ==> Acceptable(w, received, 0);
    if Acceptable(w, received, n) {
      var m := if p.room > DATA_SIZE then DATA_SIZE else p.room;
      SliceSlice(pkt, 5, 37, m);
      CutMore(Joined(w, received, n), pkt[5..37], bufSize, m);
    }
  }

  lemma {:induction false} ReadNext(w: Wire, p: Progress, received: seq<seq<byte>>, n: nat)
    requires n < |received|
    ensures var p' := Take(w, p, received[n]);
      ReadFrom(w, p, received[n..]) ==
        if p'.None? then None
        else if p'.value.got == p'.value.packets then Some(Reply(p'.value.got as int * 32, p'.value.buf, received[n][2]))
        else ReadFrom(w, p'.value, received[n + 1..])
  {
    assert received[n..][0] == received[n] && received[n..][1..] == received[n + 1..];
    hide Take;
  }

  lemma LastOne(w: Wire, received: seq<seq<byte>>, bufSize: nat, n: nat)
    requires Acceptable(w, received, 0) && AllAcceptable(w, received, n) && 0 < n <= Announced(received)
    requires Acceptable(w, received, n - 1)
    ensures var p := TakenSoFar(w, received, bufSize, n);
      (p.got == p.packets <==> n == Announced(received)) &&
      (n == Announced(received) ==>
        Complete(w, received) && Received(w, received, bufSize) == Reply(p.got as int * 32, p.buf, received[n - 1][2]))
  {
    hide Cut, Joined;
  }

  lemma {:induction false} ReadOn(w: Wire, received: seq<seq<byte>>, bufSize: nat, n: nat)
    requires AllAcceptable(w, received, n)
    requires n > 0 ==> Acceptable(w, received, 0) && n < Announced(received)
    ensures ReadFrom(w, TakenSoFar(w, received, bufSize, n), received[n..])
         == if Complete(w, received) then Some(Received(w, received, bufSize)) else None
    decreases |received| - n
  {
    if n == |received| {
      assert Complete(w, received) ==> Acceptable(w, received, n);
    } else {
      ReadNext(w, TakenSoFar(w, received, bufSize, n), received, n);
      TakeAcceptable(w, received, bufSize, n);
      assert !Acceptable(w, received, n) ==> !Complete(w, received);
      if Acceptable(w, received, n) {
        assert Acceptable(w, received, 0);
        LastOne(w, received, bufSize, n + 1);
        hide Take, ReadFrom, TakenSoFar, Received, Complete, AllAcceptable, Acceptable;
        if n + 1 < Announced(received) {
          ReadOn(w, received, bufSize, n + 1);
        }
      } else {
        hide Take, ReadFrom, TakenSoFar, Received, Complete, AllAcceptable, Acceptable;
      }
    }
  }

  /** A reply is accepted if and only if each of the packets that the first one announces came, with its header, number,
      count and checksum right; then it is their joined data, cut to the buffer, with the last packet's code. */
  lemma {:induction false} ReadExact(w: Wire, received: seq<seq<byte>>, bufSize: nat)
    ensures ReadFrom(w, Progress(0, 0, [], bufSize), received)
         == if Complete(w, received) then Some(Received(w, received, bufSize)) else None
  {
    assert received[0..] == received;
    ReadOn(w, received, bufSize, 0);
  }
}
