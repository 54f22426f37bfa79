/**
 The checksum of the Bitmain driver (driver-bitmain.c): a table-driven loop over two state bytes, measured
 against the bit-by-bit CRC of MODBUS over Serial Line V1.02, section 6.2.2.
 */
module BitmainCrc {
  const POLYNOMIAL: bv16 := 0xA001
  const INITIAL: bv16 := 0xFFFF

  function Xor(x: bv16, y: bv16): bv16 {
    x ^ y
  }

  function Wide(b: bv8): bv16 {
    b as bv16
  }

  /** The standard's steps 3 and 4: shift right, and fold in the polynomial if a 1 fell out. */
  function Shift(crc: bv16): bv16 {
    if crc & 1 == 1 then (crc >> 1) ^ POLYNOMIAL else crc >> 1
  }

  /** Step 5. */
  function Shifts(crc: bv16, n: nat): bv16
    decreases n
  {
    if n == 0 then crc else Shifts(Shift(crc), n - 1)
  }

  /** Steps 1, 2 and 6: one byte after the other is folded into the low half and shifted through. */
  function Modbus(data: seq<bv8>): bv16 {
    if data == [] then INITIAL
    else Shifts(Xor(Modbus(data[..|data| - 1]), Wide(data[|data| - 1])), 8)
  }

  // The two tables, eight entries a word

  /** chCRCHTalbe, which is folded into the low byte. */
  function HighWord(w: bv8): bv64 {
    match w
    case 0x00 => 0x00C1814001C08041 case 0x01 => 0x01C0804100C18140 case 0x02 => 0x01C0804100C18140 case 0x03 => 0x00C1814001C08041
    case 0x04 => 0x01C0804100C18140 case 0x05 => 0x00C1814001C08041 case 0x06 => 0x00C1814001C08041 case 0x07 => 0x01C0804100C18140
    case 0x08 => 0x01C0804100C18140 case 0x09 => 0x00C1814001C08041 case 0x0A => 0x00C1814001C08041 case 0x0B => 0x01C0804100C18140
    case 0x0C => 0x00C1814001C08041 case 0x0D => 0x01C0804100C18140 case 0x0E => 0x01C0804100C18140 case 0x0F => 0x00C1814001C08041
    case 0x10 => 0x01C0804100C18140 case 0x11 => 0x00C1814001C08041 case 0x12 => 0x00C1814001C08041 case 0x13 => 0x01C0804100C18140
    case 0x14 => 0x00C1814001C08041 case 0x15 => 0x01C0804100C18140 case 0x16 => 0x01C0804100C18140 case 0x17 => 0x00C1814001C08041
    case 0x18 => 0x00C1814001C08041 case 0x19 => 0x01C0804100C18140 case 0x1A => 0x01C0804100C18140 case 0x1B => 0x00C1814001C08041
    case 0x1C => 0x01C0804100C18140 case 0x1D => 0x00C1814001C08041 case 0x1E => 0x00C1814001C08041 case _ => 0x01C0804100C18140
  }

  /** chCRCLTalbe, which becomes the high byte. */
  function LowWord(w: bv8): bv64 {
    match w
    case 0x00 => 0x00C0C101C30302C2 case 0x01 => 0xC60607C705C5C404 case 0x02 => 0xCC0C0DCD0FCFCE0E case 0x03 => 0x0ACACB0BC90908C8
    case 0x04 => 0xD81819D91BDBDA1A case 0x05 => 0x1EDEDF1FDD1D1CDC case 0x06 => 0x14D4D515D71716D6 case 0x07 => 0xD21213D311D1D010
    case 0x08 => 0xF03031F133F3F232 case 0x09 => 0x36F6F737F53534F4 case 0x0A => 0x3CFCFD3DFF3F3EFE case 0x0B => 0xFA3A3BFB39F9F838
    case 0x0C => 0x28E8E929EB2B2AEA case 0x0D => 0xEE2E2FEF2DEDEC2C case 0x0E => 0xE42425E527E7E626 case 0x0F => 0x22E2E323E12120E0
    case 0x10 => 0xA06061A163A3A262 case 0x11 => 0x66A6A767A56564A4 case 0x12 => 0x6CACAD6DAF6F6EAE case 0x13 => 0xAA6A6BAB69A9A868
    case 0x14 => 0x78B8B979BB7B7ABA case 0x15 => 0xBE7E7FBF7DBDBC7C case 0x16 => 0xB47475B577B7B676 case 0x17 => 0x72B2B373B17170B0
    case 0x18 => 0x5090915193535292 case 0x19 => 0x9656579755959454 case 0x1A => 0x9C5C5D9D5F9F9E5E case 0x1B => 0x5A9A9B5B99595898
    case 0x1C => 0x884849894B8B8A4A case 0x1D => 0x4E8E8F4F8D4D4C8C case 0x1E => 0x4484854587474686 case _ => 0x8242438341818040
  }

  /** The n'th byte of a word, from the left. */
  function Cell(word: bv64, n: bv8): bv8
    requires n < 8
  {
    match n
    case 0 => (word >> 56) as bv8
    case 1 => ((word >> 48) & 0xFF) as bv8
    case 2 => ((word >> 40) & 0xFF) as bv8
    case 3 => ((word >> 32) & 0xFF) as bv8
    case 4 => ((word >> 24) & 0xFF) as bv8
    case 5 => ((word >> 16) & 0xFF) as bv8
    case 6 => ((word >> 8) & 0xFF) as bv8
    case _ => (word & 0xFF) as bv8
  }

  function HighTable(i: bv8): bv8 {
    Cell(HighWord(i >> 3), i & 7)
  }

  function LowTable(i: bv8): bv8 {
    Cell(LowWord(i >> 3), i & 7)
  }

  function Join(hi: bv8, lo: bv8): bv16 {
    ((hi as bv16) << 8) | (lo as bv16)
  }

  // The shifts are linear, so an entry is the sum of the entries of the bits of its index

  lemma XorTerms(x: bv16, y: bv16, p: bv16)
    ensures (x ^ p) ^ (y ^ p) == x ^ y
    ensures (x ^ p) ^ y == (x ^ y) ^ p && x ^ (y ^ p) == (x ^ y) ^ p
    ensures (x ^ y) >> 1 == (x >> 1) ^ (y >> 1)
    ensures (x ^ y) & 1 == (x & 1) ^ (y & 1)
  {
  }

  lemma LastBit(x: bv16)
    ensures x & 1 == 0 || x & 1 == 1
  {
  }

  lemma ShiftXor(x: bv16, y: bv16)
    ensures Shift(x ^ y) == Shift(x) ^ Shift(y)
  {
    LastBit(x);
    LastBit(y);
    XorTerms(x, y, 0);
    XorTerms(x >> 1, y >> 1, POLYNOMIAL);
  }

  lemma ShiftOfXor(x: bv16, y: bv16)
    ensures Shift(Xor(x, y)) == Xor(Shift(x), Shift(y))
  {
    hide Shift;
    ShiftXor(x, y);
  }

  lemma {:induction false} ShiftsXor(x: bv16, y: bv16, n: nat)
    ensures Shifts(Xor(x, y), n) == Xor(Shifts(x, n), Shifts(y, n))
    decreases n
  {
    hide Shift, Xor;
    if n > 0 {
      ShiftOfXor(x, y);
      ShiftsXor(Shift(x), Shift(y), n - 1);
    }
  }

  function OfBit(i: bv8, bit: bv8, entry: bv16): bv16 {
    if i & bit == 0 then 0 else entry
  }

  function OfBits(i: bv8): bv16 {
    OfBit(i, 0x01, 0xC0C1) ^ OfBit(i, 0x02, 0xC181) ^ OfBit(i, 0x04, 0xC301) ^ OfBit(i, 0x08, 0xC601) ^
    OfBit(i, 0x10, 0xCC01) ^ OfBit(i, 0x20, 0xD801) ^ OfBit(i, 0x40, 0xF001) ^ OfBit(i, 0x80, 0xA001)
  }

  // Eight shifts, a quarter of the bytes at a time

  lemma FirstQuarterShifts(i: bv8)
    requires i & 0xC0 == 0x00
    ensures Shifts(Wide(i), 8) == OfBits(i)
  {
  }

  lemma SecondQuarterShifts(i: bv8)
    requires i & 0xC0 == 0x40
    ensures Shifts(Wide(i), 8) == OfBits(i)
  {
  }

  lemma ThirdQuarterShifts(i: bv8)
    requires i & 0xC0 == 0x80
    ensures Shifts(Wide(i), 8) == OfBits(i)
  {
  }

  lemma FourthQuarterShifts(i: bv8)
    requires i & 0xC0 == 0xC0
    ensures Shifts(Wide(i), 8) == OfBits(i)
  {
  }

  // The tables, a quarter at a time

  lemma FirstQuarter(i: bv8)
    requires i & 0xC0 == 0x00
    ensures Join(LowTable(i), HighTable(i)) == OfBits(i)
  {
  }

  lemma SecondQuarter(i: bv8)
    requires i & 0xC0 == 0x40
    ensures Join(LowTable(i), HighTable(i)) == OfBits(i)
  {
  }

  lemma ThirdQuarter(i: bv8)
    requires i & 0xC0 == 0x80
    ensures Join(LowTable(i), HighTable(i)) == OfBits(i)
  {
  }

  lemma FourthQuarter(i: bv8)
    requires i & 0xC0 == 0xC0
    ensures Join(LowTable(i), HighTable(i)) == OfBits(i)
  {
  }

  lemma InSomeQuarter(i: bv8)
    ensures i & 0xC0 == 0x00 || i & 0xC0 == 0x40 || i & 0xC0 == 0x80 || i & 0xC0 == 0xC0
  {
  }

  /** Each pair of table entries is what eight shifts make of its index. */
  lemma TableEntry(i: bv8)
    ensures Shifts(Wide(i), 8) == Join(LowTable(i), HighTable(i))
  {
    hide *;
    InSomeQuarter(i);
    if i & 0xC0 == 0x00 {
      FirstQuarterShifts(i);
      FirstQuarter(i);
    } else if i & 0xC0 == 0x40 {
      SecondQuarterShifts(i);
      SecondQuarter(i);
    } else if i & 0xC0 == 0x80 {
      ThirdQuarterShifts(i);
      ThirdQuarter(i);
    } else {
      FourthQuarterShifts(i);
      FourthQuarter(i);
    }
  }

  lemma ShiftsOfHighByte(hi: bv8)
    ensures Shifts(Join(hi, 0), 8) == Wide(hi)
  {
  }

  lemma SplitsIntoBytes(hi: bv8, lo: bv8, b: bv8)
    ensures Xor(Join(hi, lo), Wide(b)) == Xor(Join(hi, 0), Wide(lo ^ b))
  {
  }

  lemma JoinXor(hi: bv8, l: bv8, h: bv8)
    ensures Xor(Wide(hi), Join(l, h)) == Join(l, hi ^ h)
  {
  }

  /** A state whose low byte is the index of the tables. */
  lemma IndexStep(hi: bv8, i: bv8)
    ensures Shifts(Xor(Join(hi, 0), Wide(i)), 8) == Join(LowTable(i), hi ^ HighTable(i))
  {
    hide *;
    ShiftsXor(Join(hi, 0), Wide(i), 8);
    ShiftsOfHighByte(hi);
    TableEntry(i);
    JoinXor(hi, LowTable(i), HighTable(i));
  }

  /** One pass of the loop is one byte of the standard's procedure. */
  lemma Step(hi: bv8, lo: bv8, b: bv8)
    ensures Shifts(Xor(Join(hi, lo), Wide(b)), 8) == Join(LowTable(lo ^ b), hi ^ HighTable(lo ^ b))
  {
    hide *;
    SplitsIntoBytes(hi, lo, b);
    IndexStep(hi, lo ^ b);
  }

  lemma Start()
    ensures Join(0xFF, 0xFF) == INITIAL
  {
  }

  /** CRC16 */
  method Crc16(data: seq<bv8>, length: nat) returns (crc: bv16)
    requires length <= |data|
    ensures crc == Modbus(data[..length])
  {
    hide Shifts, HighTable, LowTable, Join, Xor, Wide;
    var hi: bv8, lo: bv8 := 0xFF, 0xFF;
    Start();
    for k := 0 to length
      invariant Join(hi, lo) == Modbus(data[..k])
    {
      var index := lo ^ data[k];
      Step(hi, lo, data[k]);
      lo := hi ^ HighTable(index);
      hi := LowTable(index);
      assert data[..k + 1][..k] == data[..k];
    }
    return Join(hi, lo);
  }
}
