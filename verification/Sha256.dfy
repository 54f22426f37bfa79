/**
 SHA-256 as FIPS 180-4 defines it: the reference that the buffered digest is measured against.
 Words are numbers below 2^32.
 */
module Sha256 {
  import opened Bits
  import opened Bytes

  type Word = n: int | 0 <= n < TWO_TO_THE_32

  /** Addition modulo 2^32. */
  function Add(x: Word, y: Word): Word {
    (x + y) % TWO_TO_THE_32
  }

  lemma WordBits()
    ensures Pow2(32) == TWO_TO_THE_32
  {
    assert Pow2(8) == 0x100;
    assert Pow2(16) == 0x1_0000;
    assert Pow2(24) == 0x100_0000;
  }

  function OnWords(op: BitOp, x: Word, y: Word): Word {
    WordBits();
    BitwiseBelow(op, x, y, 32);
    Bitwise(op, x, y)
  }

  function And(x: Word, y: Word): Word { OnWords(BitAnd, x, y) }
  function Or(x: Word, y: Word): Word { OnWords(BitOr, x, y) }
  function Xor(x: Word, y: Word): Word { OnWords(BitXor, x, y) }
  function Not(x: Word): Word { TWO_TO_THE_32 - 1 - x }

  function ShR(x: Word, n: nat): (r: Word)
    ensures r <= x
  {
    if n == 0 then x else ShR(x, n - 1) / 2
  }

  function ShL(x: Word, n: nat): Word {
    if n == 0 then x else 2 * ShL(x, n - 1) % TWO_TO_THE_32
  }

  // Section 3.2, item 4
  function RotR(x: Word, n: nat): Word
    requires n < 32
  {
    Or(ShR(x, n), ShL(x, 32 - n))
  }

  // Section 4.1.2
  function Ch(x: Word, y: Word, z: Word): Word { Xor(And(x, y), And(Not(x), z)) }
  function Maj(x: Word, y: Word, z: Word): Word { Xor(Xor(And(x, y), And(x, z)), And(y, z)) }
  function BigSigma0(x: Word): Word { Xor(Xor(RotR(x, 2), RotR(x, 13)), RotR(x, 22)) }
  function BigSigma1(x: Word): Word { Xor(Xor(RotR(x, 6), RotR(x, 11)), RotR(x, 25)) }
  function SmallSigma0(x: Word): Word { Xor(Xor(RotR(x, 7), RotR(x, 18)), ShR(x, 3)) }
  function SmallSigma1(x: Word): Word { Xor(Xor(RotR(x, 17), RotR(x, 19)), ShR(x, 10)) }

  // Section 4.2.2, row by row
  const K0: seq<Word> := [0x428a2f98, 0x71374491, 0xb5c0fbcf, 0xe9b5dba5, 0x3956c25b, 0x59f111f1, 0x923f82a4, 0xab1c5ed5]
  const K1: seq<Word> := [0xd807aa98, 0x12835b01, 0x243185be, 0x550c7dc3, 0x72be5d74, 0x80deb1fe, 0x9bdc06a7, 0xc19bf174]
  const K2: seq<Word> := [0xe49b69c1, 0xefbe4786, 0x0fc19dc6, 0x240ca1cc, 0x2de92c6f, 0x4a7484aa, 0x5cb0a9dc, 0x76f988da]
  const K3: seq<Word> := [0x983e5152, 0xa831c66d, 0xb00327c8, 0xbf597fc7, 0xc6e00bf3, 0xd5a79147, 0x06ca6351, 0x14292967]
  const K4: seq<Word> := [0x27b70a85, 0x2e1b2138, 0x4d2c6dfc, 0x53380d13, 0x650a7354, 0x766a0abb, 0x81c2c92e, 0x92722c85]
  const K5: seq<Word> := [0xa2bfe8a1, 0xa81a664b, 0xc24b8b70, 0xc76c51a3, 0xd192e819, 0xd6990624, 0xf40e3585, 0x106aa070]
  const K6: seq<Word> := [0x19a4c116, 0x1e376c08, 0x2748774c, 0x34b0bcb5, 0x391c0cb3, 0x4ed8aa4a, 0x5b9cca4f, 0x682e6ff3]
  const K7: seq<Word> := [0x748f82ee, 0x78a5636f, 0x84c87814, 0x8cc70208, 0x90befffa, 0xa4506ceb, 0xbef9a3f7, 0xc67178f2]

  const K: seq<Word> := K0 + K1 + K2 + K3 + K4 + K5 + K6 + K7

  // Section 5.3.3
  const H0: seq<Word> := [0x6a09e667, 0xbb67ae85, 0x3c6ef372, 0xa54ff53a, 0x510e527f, 0x9b05688c, 0x1f83d9ab, 0x5be0cd19]

  type HashValue = h: seq<Word> | |h| == 8 witness [0, 0, 0, 0, 0, 0, 0, 0]
  type Block = b: seq<byte> | |b| == 64 witness seq(64, _ => 0)

  /** Four bytes, most significant first. */
  function BigEndianWord(a: byte, b: byte, c: byte, d: byte): Word {
    0x100_0000 * a + 0x1_0000 * b + 0x100 * c + d
  }

  // Section 6.2.2, step 1
  function Schedule(block: Block, t: nat): Word
    requires t < 64
  {
    if t < 16 then BigEndianWord(block[4 * t], block[4 * t + 1], block[4 * t + 2], block[4 * t + 3])
    else Add(Add(Add(SmallSigma1(Schedule(block, t - 2)), Schedule(block, t - 7)), SmallSigma0(Schedule(block, t - 15))),
             Schedule(block, t - 16))
  }

  // Section 6.2.2, step 3
  datatype Working = Working(a: Word, b: Word, c: Word, d: Word, e: Word, f: Word, g: Word, h: Word)

  function Round(v: Working, k: Word, w: Word): Working {
    var t1 := Add(Add(Add(Add(v.h, BigSigma1(v.e)), Ch(v.e, v.f, v.g)), k), w);
    var t2 := Add(BigSigma0(v.a), Maj(v.a, v.b, v.c));
    Working(Add(t1, t2), v.a, v.b, v.c, Add(v.d, t1), v.e, v.f, v.g)
  }

  function Rounds(v: Working, block: Block, n: nat): Working
    requires n <= |K|
  {
    if n == 0 then v else Round(Rounds(v, block, n - 1), K[n - 1], Schedule(block, n - 1))
  }

  // Section 6.2.2, step 2
  function WorkingOf(h: HashValue): Working {
    Working(h[0], h[1], h[2], h[3], h[4], h[5], h[6], h[7])
  }

  // Section 6.2.2, step 4
  function AddWorking(h: HashValue, v: Working): HashValue {
    [Add(h[0], v.a), Add(h[1], v.b), Add(h[2], v.c), Add(h[3], v.d),
     Add(h[4], v.e), Add(h[5], v.f), Add(h[6], v.g), Add(h[7], v.h)]
  }

  function Compress(h: HashValue, block: Block): HashValue {
    AddWorking(h, Rounds(WorkingOf(h), block, |K|))
  }

  /** The hash value after the first n blocks of a message. */
  function Absorb(h: HashValue, message: seq<byte>, n: nat): HashValue
    requires 64 * n <= |message|
  {
    if n == 0 then h else Compress(Absorb(h, message, n - 1), message[64 * (n - 1)..64 * n])
  }

  lemma {:induction false} AbsorbPrefix(h: HashValue, message: seq<byte>, more: seq<byte>, n: nat)
    requires 64 * n <= |message|
    ensures Absorb(h, message + more, n) == Absorb(h, message, n)
  {
    hide Compress;
    if n > 0 {
      AbsorbPrefix(h, message, more, n - 1);
      assert (message + more)[64 * (n - 1)..64 * n] == message[64 * (n - 1)..64 * n];
    }
  }

  lemma AbsorbStep(h: HashValue, message: seq<byte>, n: nat)
    requires 64 * (n + 1) <= |message|
    ensures Absorb(h, message, n + 1) == Compress(Absorb(h, message, n), message[64 * n..64 * n + 64])
  {
    hide Compress;
    assert 64 * (n + 1) == 64 * n + 64;
  }

  // Section 5.1.1
  /** A number as n bytes, most significant first, cut to that many bytes. */
  function BigEndian(x: nat, n: nat): (r: seq<byte>)
    ensures |r| == n
  {
    if n == 0 then [] else BigEndian(x / 256, n - 1) + [Low(x)]
  }

  /** The number of zero bytes between the 0x80 byte and the length. */
  function ZeroBytes(length: nat): nat {
    (55 - length) % 64
  }

  function Pad(message: seq<byte>): seq<byte> {
    message + [0x80] + Zeros(ZeroBytes(|message|)) + BigEndian(8 * |message|, 8)
  }

  predicate LeavesRoomForLength(length: nat, zeros: nat) {
    (length + 1 + zeros) % 64 == 56
  }

  /** The standard asks for the least number of zeros that leaves 64 bits of a block for the length. */
  lemma ZeroBytesIsLeast(length: nat)
    ensures LeavesRoomForLength(length, ZeroBytes(length))
    ensures forall k: nat | LeavesRoomForLength(length, k) :: ZeroBytes(length) <= k
  {
  }

  /** The output: the words of the hash value, each most significant byte first. */
  function WordBytes(w: Word): (r: seq<byte>)
    ensures |r| == 4
  {
    [w / 0x100_0000, w / 0x1_0000 % 256, w / 0x100 % 256, w % 256]
  }

  function OutputOf(h: seq<Word>): (r: seq<byte>)
    ensures |r| == 4 * |h|
  {
    if h == [] then [] else WordBytes(h[0]) + OutputOf(h[1..])
  }

  function Digest(message: seq<byte>): (r: seq<byte>)
    ensures |r| == 32
  {
    var padded := Pad(message);
    OutputOf(Absorb(H0, padded, |padded| / 64))
  }
}
