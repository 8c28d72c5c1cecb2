/**
  The CRC-32 of the JMB39x protocol (lib/dev_jmb39x_raid.cpp, `jmb_crc`): the
  register as a linear map over GF(2), and the table that does eight bits at once.
 */
module Crc32 {

  function Xor(a: bv32, b: bv32): bv32 { a ^ b }

  function Shl(a: bv32): bv32 { a << 1 }

  predicate Msb(a: bv32) { a & 0x8000_0000 != 0 }

  /** What the polynomial 0x04c11db7 adds when a one leaves the register. */
  function Carry(crc: bv32): (r: bv32)
    ensures r == 0 || r == 0x04c1_1db7
  {
    if Msb(crc) then 0x04c1_1db7 else 0
  }

  /** Shifts the register by one bit. */
  function Shift(crc: bv32): bv32 { Xor(Shl(crc), Carry(crc)) }

  function Shifts(crc: bv32, n: nat): bv32
    decreases n
  {
    if n == 0 then crc else Shift(Shifts(crc, n - 1))
  }

  // ---------------------------------------------------------------------
  // Exclusive or

  lemma XorCommutes(a: bv32, b: bv32)
    ensures Xor(a, b) == Xor(b, a)
  {
  }

  lemma XorAssociates(a: bv32, b: bv32, c: bv32)
    ensures Xor(Xor(a, b), c) == Xor(a, Xor(b, c))
  {
  }

  lemma XorUnit(a: bv32)
    ensures Xor(a, a) == 0 && Xor(a, 0) == a && Xor(0, a) == a
  {
  }

  lemma XorSwap(a: bv32, b: bv32, c: bv32, d: bv32)
    ensures Xor(Xor(a, b), Xor(c, d)) == Xor(Xor(a, c), Xor(b, d))
  {
    XorAssociates(a, b, Xor(c, d));
    XorAssociates(b, c, d);
    XorCommutes(b, c);
    XorAssociates(c, b, d);
    XorAssociates(a, c, Xor(b, d));
  }

  lemma XorCancels(a: bv32, b: bv32)
    requires Xor(a, b) == 0
    ensures a == b
  {
    XorAssociates(a, b, b);
    XorUnit(b);
    XorUnit(a);
  }

  lemma ShlXor(a: bv32, b: bv32)
    ensures Shl(Xor(a, b)) == Xor(Shl(a), Shl(b))
  {
  }

  lemma MsbXor(a: bv32, b: bv32)
    ensures Msb(Xor(a, b)) == (Msb(a) != Msb(b))
  {
  }

  // ---------------------------------------------------------------------
  // The register is linear and loses nothing

  lemma CarryXor(a: bv32, b: bv32)
    ensures Carry(Xor(a, b)) == Xor(Carry(a), Carry(b))
  {
    MsbXor(a, b);
    XorUnit(Carry(a));
    XorUnit(Carry(b));
  }

  lemma ShiftXor(a: bv32, b: bv32)
    ensures Shift(Xor(a, b)) == Xor(Shift(a), Shift(b))
  {
    CarryXor(a, b);
    ShlXor(a, b);
    XorSwap(Shl(a), Carry(a), Shl(b), Carry(b));
  }

  lemma {:induction false} ShiftsXor(a: bv32, b: bv32, n: nat)
    ensures Shifts(Xor(a, b), n) == Xor(Shifts(a, n), Shifts(b, n))
    decreases n
  {
    if n > 0 {
      ShiftsXor(a, b, n - 1);
      ShiftXor(Shifts(a, n - 1), Shifts(b, n - 1));
    }
  }

  lemma ShiftZero(a: bv32)
    requires Shift(a) == 0
    ensures a == 0
  {
  }

  lemma ShiftInjective(a: bv32, b: bv32)
    requires Shift(a) == Shift(b)
    ensures a == b
  {
    ShiftXor(a, b);
    XorUnit(Shift(a));
    ShiftZero(Xor(a, b));
    XorCancels(a, b);
  }

  /** No two register values ever meet. */
  lemma {:induction false} ShiftsInjective(a: bv32, b: bv32, n: nat)
    requires Shifts(a, n) == Shifts(b, n)
    ensures a == b
    decreases n
  {
    if n > 0 {
      ShiftInjective(Shifts(a, n - 1), Shifts(b, n - 1));
      ShiftsInjective(a, b, n - 1);
    }
  }

  // ---------------------------------------------------------------------
  // Bytes

  /** A byte at the top of the register. */
  function Top(b: bv8): bv32 { (b as bv32) << 24 }

  /** The low three bytes. */
  predicate Low(a: bv32) { a & 0xff00_0000 == 0 }

  function Shl8(a: bv32): bv32 { a << 8 }

  lemma ShiftLow(a: bv32)
    requires !Msb(a)
    ensures Shift(a) == Shl(a)
  {
    XorUnit(Shl(a));
  }

  /** The low bytes just move up. */
  lemma ShiftsLow(a: bv32)
    requires Low(a)
    ensures Shifts(a, 8) == Shl8(a)
  {
  }

  // ---------------------------------------------------------------------
  // The table

  function Pick(i: bv8, c0: bv32, c1: bv32, c2: bv32, c3: bv32, c4: bv32, c5: bv32, c6: bv32, c7: bv32,
                c8: bv32, c9: bv32, ca: bv32, cb: bv32, cc: bv32, cd: bv32, ce: bv32, cf: bv32): bv32
  {
    if i == 0 then c0 else if i == 1 then c1 else if i == 2 then c2 else if i == 3 then c3
    else if i == 4 then c4 else if i == 5 then c5 else if i == 6 then c6 else if i == 7 then c7
    else if i == 8 then c8 else if i == 9 then c9 else if i == 10 then ca else if i == 11 then cb
    else if i == 12 then cc else if i == 13 then cd else if i == 14 then ce else cf
  }

  function Row0(i: bv8): bv32 {
    Pick(i, 0x00000000, 0x04c11db7, 0x09823b6e, 0x0d4326d9, 0x130476dc, 0x17c56b6b, 0x1a864db2, 0x1e475005,
         0x2608edb8, 0x22c9f00f, 0x2f8ad6d6, 0x2b4bcb61, 0x350c9b64, 0x31cd86d3, 0x3c8ea00a, 0x384fbdbd)
  }

  function Row1(i: bv8): bv32 {
    Pick(i, 0x4c11db70, 0x48d0c6c7, 0x4593e01e, 0x4152fda9, 0x5f15adac, 0x5bd4b01b, 0x569796c2, 0x52568b75,
         0x6a1936c8, 0x6ed82b7f, 0x639b0da6, 0x675a1011, 0x791d4014, 0x7ddc5da3, 0x709f7b7a, 0x745e66cd)
  }

  function Row2(i: bv8): bv32 {
    Pick(i, 0x9823b6e0, 0x9ce2ab57, 0x91a18d8e, 0x95609039, 0x8b27c03c, 0x8fe6dd8b, 0x82a5fb52, 0x8664e6e5,
         0xbe2b5b58, 0xbaea46ef, 0xb7a96036, 0xb3687d81, 0xad2f2d84, 0xa9ee3033, 0xa4ad16ea, 0xa06c0b5d)
  }

  function Row3(i: bv8): bv32 {
    Pick(i, 0xd4326d90, 0xd0f37027, 0xddb056fe, 0xd9714b49, 0xc7361b4c, 0xc3f706fb, 0xceb42022, 0xca753d95,
         0xf23a8028, 0xf6fb9d9f, 0xfbb8bb46, 0xff79a6f1, 0xe13ef6f4, 0xe5ffeb43, 0xe8bccd9a, 0xec7dd02d)
  }

  function Row4(i: bv8): bv32 {
    Pick(i, 0x34867077, 0x30476dc0, 0x3d044b19, 0x39c556ae, 0x278206ab, 0x23431b1c, 0x2e003dc5, 0x2ac12072,
         0x128e9dcf, 0x164f8078, 0x1b0ca6a1, 0x1fcdbb16, 0x018aeb13, 0x054bf6a4, 0x0808d07d, 0x0cc9cdca)
  }

  function Row5(i: bv8): bv32 {
    Pick(i, 0x7897ab07, 0x7c56b6b0, 0x71159069, 0x75d48dde, 0x6b93dddb, 0x6f52c06c, 0x6211e6b5, 0x66d0fb02,
         0x5e9f46bf, 0x5a5e5b08, 0x571d7dd1, 0x53dc6066, 0x4d9b3063, 0x495a2dd4, 0x44190b0d, 0x40d816ba)
  }

  function Row6(i: bv8): bv32 {
    Pick(i, 0xaca5c697, 0xa864db20, 0xa527fdf9, 0xa1e6e04e, 0xbfa1b04b, 0xbb60adfc, 0xb6238b25, 0xb2e29692,
         0x8aad2b2f, 0x8e6c3698, 0x832f1041, 0x87ee0df6, 0x99a95df3, 0x9d684044, 0x902b669d, 0x94ea7b2a)
  }

  function Row7(i: bv8): bv32 {
    Pick(i, 0xe0b41de7, 0xe4750050, 0xe9362689, 0xedf73b3e, 0xf3b06b3b, 0xf771768c, 0xfa325055, 0xfef34de2,
         0xc6bcf05f, 0xc27dede8, 0xcf3ecb31, 0xcbffd686, 0xd5b88683, 0xd1799b34, 0xdc3abded, 0xd8fba05a)
  }

  function Row8(i: bv8): bv32 {
    Pick(i, 0x690ce0ee, 0x6dcdfd59, 0x608edb80, 0x644fc637, 0x7a089632, 0x7ec98b85, 0x738aad5c, 0x774bb0eb,
         0x4f040d56, 0x4bc510e1, 0x46863638, 0x42472b8f, 0x5c007b8a, 0x58c1663d, 0x558240e4, 0x51435d53)
  }

  function Row9(i: bv8): bv32 {
    Pick(i, 0x251d3b9e, 0x21dc2629, 0x2c9f00f0, 0x285e1d47, 0x36194d42, 0x32d850f5, 0x3f9b762c, 0x3b5a6b9b,
         0x0315d626, 0x07d4cb91, 0x0a97ed48, 0x0e56f0ff, 0x1011a0fa, 0x14d0bd4d, 0x19939b94, 0x1d528623)
  }

  function RowA(i: bv8): bv32 {
    Pick(i, 0xf12f560e, 0xf5ee4bb9, 0xf8ad6d60, 0xfc6c70d7, 0xe22b20d2, 0xe6ea3d65, 0xeba91bbc, 0xef68060b,
         0xd727bbb6, 0xd3e6a601, 0xdea580d8, 0xda649d6f, 0xc423cd6a, 0xc0e2d0dd, 0xcda1f604, 0xc960ebb3)
  }

  function RowB(i: bv8): bv32 {
    Pick(i, 0xbd3e8d7e, 0xb9ff90c9, 0xb4bcb610, 0xb07daba7, 0xae3afba2, 0xaafbe615, 0xa7b8c0cc, 0xa379dd7b,
         0x9b3660c6, 0x9ff77d71, 0x92b45ba8, 0x9675461f, 0x8832161a, 0x8cf30bad, 0x81b02d74, 0x857130c3)
  }

  function RowC(i: bv8): bv32 {
    Pick(i, 0x5d8a9099, 0x594b8d2e, 0x5408abf7, 0x50c9b640, 0x4e8ee645, 0x4a4ffbf2, 0x470cdd2b, 0x43cdc09c,
         0x7b827d21, 0x7f436096, 0x7200464f, 0x76c15bf8, 0x68860bfd, 0x6c47164a, 0x61043093, 0x65c52d24)
  }

  function RowD(i: bv8): bv32 {
    Pick(i, 0x119b4be9, 0x155a565e, 0x18197087, 0x1cd86d30, 0x029f3d35, 0x065e2082, 0x0b1d065b, 0x0fdc1bec,
         0x3793a651, 0x3352bbe6, 0x3e119d3f, 0x3ad08088, 0x2497d08d, 0x2056cd3a, 0x2d15ebe3, 0x29d4f654)
  }

  function RowE(i: bv8): bv32 {
    Pick(i, 0xc5a92679, 0xc1683bce, 0xcc2b1d17, 0xc8ea00a0, 0xd6ad50a5, 0xd26c4d12, 0xdf2f6bcb, 0xdbee767c,
         0xe3a1cbc1, 0xe760d676, 0xea23f0af, 0xeee2ed18, 0xf0a5bd1d, 0xf464a0aa, 0xf9278673, 0xfde69bc4)
  }

  function RowF(i: bv8): bv32 {
    Pick(i, 0x89b8fd09, 0x8d79e0be, 0x803ac667, 0x84fbdbd0, 0x9abc8bd5, 0x9e7d9662, 0x933eb0bb, 0x97ffad0c,
         0xafb010b1, 0xab710d06, 0xa6322bdf, 0xa2f33668, 0xbcb4666d, 0xb8757bda, 0xb5365d03, 0xb1f740b4)
  }

  /** `crc_table[i]` */
  function Table(i: bv8): bv32 {
    var lo := i & 0xf;
    var hi := i >> 4;
    if hi == 0 then Row0(lo)
    else if hi == 1 then Row1(lo)
    else if hi == 2 then Row2(lo)
    else if hi == 3 then Row3(lo)
    else if hi == 4 then Row4(lo)
    else if hi == 5 then Row5(lo)
    else if hi == 6 then Row6(lo)
    else if hi == 7 then Row7(lo)
    else if hi == 8 then Row8(lo)
    else if hi == 9 then Row9(lo)
    else if hi == 10 then RowA(lo)
    else if hi == 11 then RowB(lo)
    else if hi == 12 then RowC(lo)
    else if hi == 13 then RowD(lo)
    else if hi == 14 then RowE(lo)
    else RowF(lo)
  }

  lemma Row0Left(i: bv8)
    requires 0x00 <= i <= 0x07
    ensures Table(i) == Shifts(Top(i), 8)
  {
  }

  lemma Row0Middle(i: bv8)
    requires 0x08 <= i <= 0x0b
    ensures Table(i) == Shifts(Top(i), 8)
  {
  }

  lemma Row0Right(i: bv8)
    requires 0x0c <= i <= 0x0f
    ensures Table(i) == Shifts(Top(i), 8)
  {
  }

  lemma Row1Is(i: bv8)
    requires 0x10 <= i <= 0x1f
    ensures Table(i) == Shifts(Top(i), 8)
  {
  }

  lemma Row2Is(i: bv8)
    requires 0x20 <= i <= 0x2f
    ensures Table(i) == Shifts(Top(i), 8)
  {
  }

  lemma Row3Is(i: bv8)
    requires 0x30 <= i <= 0x3f
    ensures Table(i) == Shifts(Top(i), 8)
  {
  }

  lemma Row4Is(i: bv8)
    requires 0x40 <= i <= 0x4f
    ensures Table(i) == Shifts(Top(i), 8)
  {
  }

  lemma Row5Is(i: bv8)
    requires 0x50 <= i <= 0x5f
    ensures Table(i) == Shifts(Top(i), 8)
  {
  }

  lemma Row6Is(i: bv8)
    requires 0x60 <= i <= 0x6f
    ensures Table(i) == Shifts(Top(i), 8)
  {
  }

  lemma Row7Is(i: bv8)
    requires 0x70 <= i <= 0x7f
    ensures Table(i) == Shifts(Top(i), 8)
  {
  }

  lemma Row8Left(i: bv8)
    requires 0x80 <= i <= 0x87
    ensures Table(i) == Shifts(Top(i), 8)
  {
  }

  lemma Row8Right(i: bv8)
    requires 0x88 <= i <= 0x8f
    ensures Table(i) == Shifts(Top(i), 8)
  {
  }

  lemma Row9Is(i: bv8)
    requires 0x90 <= i <= 0x9f
    ensures Table(i) == Shifts(Top(i), 8)
  {
  }

  lemma RowAIs(i: bv8)
    requires 0xa0 <= i <= 0xaf
    ensures Table(i) == Shifts(Top(i), 8)
  {
  }

  lemma RowBIs(i: bv8)
    requires 0xb0 <= i <= 0xbf
    ensures Table(i) == Shifts(Top(i), 8)
  {
  }

  lemma RowCIs(i: bv8)
    requires 0xc0 <= i <= 0xcf
    ensures Table(i) == Shifts(Top(i), 8)
  {
  }

  lemma RowDIs(i: bv8)
    requires 0xd0 <= i <= 0xdf
    ensures Table(i) == Shifts(Top(i), 8)
  {
  }

  lemma RowEIs(i: bv8)
    requires 0xe0 <= i <= 0xef
    ensures Table(i) == Shifts(Top(i), 8)
  {
  }

  lemma RowFIs(i: bv8)
    requires 0xf0 <= i <= 0xff
    ensures Table(i) == Shifts(Top(i), 8)
  {
  }

  /** Every entry is what eight shifts make of its index. */
  lemma TableIs(i: bv8)
    ensures Table(i) == Shifts(Top(i), 8)
  {
    if
    case 0x00 <= i <= 0x07 => Row0Left(i);
    case 0x08 <= i <= 0x0b => Row0Middle(i);
    case 0x0c <= i <= 0x0f => Row0Right(i);
    case 0x10 <= i <= 0x1f => Row1Is(i);
    case 0x20 <= i <= 0x2f => Row2Is(i);
    case 0x30 <= i <= 0x3f => Row3Is(i);
    case 0x40 <= i <= 0x4f => Row4Is(i);
    case 0x50 <= i <= 0x5f => Row5Is(i);
    case 0x60 <= i <= 0x6f => Row6Is(i);
    case 0x70 <= i <= 0x7f => Row7Is(i);
    case 0x80 <= i <= 0x87 => Row8Left(i);
    case 0x88 <= i <= 0x8f => Row8Right(i);
    case 0x90 <= i <= 0x9f => Row9Is(i);
    case 0xa0 <= i <= 0xaf => RowAIs(i);
    case 0xb0 <= i <= 0xbf => RowBIs(i);
    case 0xc0 <= i <= 0xcf => RowCIs(i);
    case 0xd0 <= i <= 0xdf => RowDIs(i);
    case 0xe0 <= i <= 0xef => RowEIs(i);
    case 0xf0 <= i <= 0xff => RowFIs(i);
  }

  // ---------------------------------------------------------------------
  // Dwords

  const BITS: nat := 8

  /** A byte enters at the top, followed by eight shifts. */
  function ByteStep(crc: bv32, b: bv8): bv32 { Shifts(Xor(crc, Top(b)), BITS) }

  /** One byte of the loop: `crc_table[b ^ (crc >> 24)] ^ (crc << 8)`. */
  function TableStep(crc: bv32, b: bv8): bv32 {
    Xor(Table(b ^ ((crc >> 24) as bv8)), Shl8(crc))
  }

  lemma TopAndLow(crc: bv32, b: bv8)
    ensures var low := crc & 0x00ff_ffff;
      && Low(low) && Shl8(low) == Shl8(crc)
      && Xor(crc, Top(b)) == Xor(Top(b ^ ((crc >> 24) as bv8)), low)
  {
  }

  /** The table step is eight bit steps after the byte enters at the top. */
  lemma TableStepIs(crc: bv32, b: bv8)
    ensures TableStep(crc, b) == ByteStep(crc, b)
  {
    var i, low := b ^ ((crc >> 24) as bv8), crc & 0x00ff_ffff;
    TopAndLow(crc, b);
    ShiftsXor(Top(i), low, 8);
    TableIs(i);
    ShiftsLow(low);
  }

  /** Four bytes in the order in which they enter. */
  function DwordStep(crc: bv32, b0: bv8, b1: bv8, b2: bv8, b3: bv8): bv32 {
    ByteStep(ByteStep(ByteStep(ByteStep(crc, b0), b1), b2), b3)
  }

  function Place1(b: bv8): bv32 { (b as bv32) << 16 }
  function Place2(b: bv8): bv32 { (b as bv32) << 8 }
  function Place3(b: bv8): bv32 { b as bv32 }

  lemma Places(b: bv8)
    ensures Low(Place1(b)) && Low(Place2(b)) && Low(Place3(b))
    ensures Shl8(Place1(b)) == Top(b) && Shl8(Place2(b)) == Place1(b) && Shl8(Place3(b)) == Place2(b)
  {
  }

  /** What enters after eight shifts could have entered one byte lower before. */
  lemma Absorb(crc: bv32, low: bv32)
    requires Low(low)
    ensures Xor(Shifts(crc, BITS), Shl8(low)) == Shifts(Xor(crc, low), BITS)
  {
    ShiftsXor(crc, low, BITS);
    ShiftsLow(low);
  }

  function Word(b0: bv8, b1: bv8, b2: bv8, b3: bv8): bv32 {
    Xor(Xor(Xor(Top(b0), Place1(b1)), Place2(b2)), Place3(b3))
  }

  function Byte0(w: bv32): bv8 { ((w >> 24) & 0xff) as bv8 }
  function Byte1(w: bv32): bv8 { ((w >> 16) & 0xff) as bv8 }
  function Byte2(w: bv32): bv8 { ((w >> 8) & 0xff) as bv8 }
  function Byte3(w: bv32): bv8 { (w & 0xff) as bv8 }

  lemma WordBytes(b0: bv8, b1: bv8, b2: bv8, b3: bv8)
    ensures var w := Word(b0, b1, b2, b3); Byte0(w) == b0 && Byte1(w) == b1 && Byte2(w) == b2 && Byte3(w) == b3
  {
  }

  function FourTimes(crc: bv32, n: nat): bv32 { Shifts(Shifts(Shifts(Shifts(crc, n), n), n), n) }

  /** The four bytes might as well enter all at once. */
  lemma DwordAtOnce(crc: bv32, b0: bv8, b1: bv8, b2: bv8, b3: bv8)
    ensures DwordStep(crc, b0, b1, b2, b3) == FourTimes(Xor(crc, Word(b0, b1, b2, b3)), BITS)
  {
    Places(b1);
    Places(b2);
    Places(b3);
    var u0 := Xor(crc, Top(b0));
    Absorb(u0, Place1(b1));
    var u1 := Xor(u0, Place1(b1));
    Absorb(Shifts(u1, BITS), Place1(b2));
    Absorb(u1, Place2(b2));
    var u2 := Xor(u1, Place2(b2));
    Absorb(Shifts(Shifts(u2, BITS), BITS), Place1(b3));
    Absorb(Shifts(u2, BITS), Place2(b3));
    Absorb(u2, Place3(b3));
    XorAssociates(crc, Top(b0), Place1(b1));
    XorAssociates(crc, Xor(Top(b0), Place1(b1)), Place2(b2));
    XorAssociates(crc, Xor(Xor(Top(b0), Place1(b1)), Place2(b2)), Place3(b3));
  }

  lemma FourTimesInjective(a: bv32, b: bv32, n: nat)
    requires FourTimes(a, n) == FourTimes(b, n)
    ensures a == b
  {
    ShiftsInjective(Shifts(Shifts(Shifts(a, n), n), n), Shifts(Shifts(Shifts(b, n), n), n), n);
    ShiftsInjective(Shifts(Shifts(a, n), n), Shifts(Shifts(b, n), n), n);
    ShiftsInjective(Shifts(a, n), Shifts(b, n), n);
    ShiftsInjective(a, b, n);
  }

  lemma XorInjective(a: bv32, b: bv32, c: bv32)
    requires Xor(a, b) == Xor(a, c)
    ensures b == c
  {
    XorAssociates(a, a, b);
    XorAssociates(a, a, c);
    XorUnit(a);
    XorUnit(b);
    XorUnit(c);
  }

  /** From one register value, different dwords lead to different values. */
  lemma DwordInjective(crc: bv32, b0: bv8, b1: bv8, b2: bv8, b3: bv8, d0: bv8, d1: bv8, d2: bv8, d3: bv8)
    requires DwordStep(crc, b0, b1, b2, b3) == DwordStep(crc, d0, d1, d2, d3)
    ensures b0 == d0 && b1 == d1 && b2 == d2 && b3 == d3
  {
    DwordAtOnce(crc, b0, b1, b2, b3);
    DwordAtOnce(crc, d0, d1, d2, d3);
    FourTimesInjective(Xor(crc, Word(b0, b1, b2, b3)), Xor(crc, Word(d0, d1, d2, d3)), BITS);
    XorInjective(crc, Word(b0, b1, b2, b3), Word(d0, d1, d2, d3));
    WordBytes(b0, b1, b2, b3);
    WordBytes(d0, d1, d2, d3);
  }

  /** From different register values, one dword leads to different values. */
  lemma DwordStateInjective(a: bv32, b: bv32, b0: bv8, b1: bv8, b2: bv8, b3: bv8)
    requires DwordStep(a, b0, b1, b2, b3) == DwordStep(b, b0, b1, b2, b3)
    ensures a == b
  {
    var w := Word(b0, b1, b2, b3);
    DwordAtOnce(a, b0, b1, b2, b3);
    DwordAtOnce(b, b0, b1, b2, b3);
    FourTimesInjective(Xor(a, w), Xor(b, w), BITS);
    XorCommutes(a, w);
    XorCommutes(b, w);
    XorInjective(w, a, b);
  }
}
