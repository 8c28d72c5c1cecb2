/** The CRC-16 of the IntelliProp log (`iprop_crc16_1` of lib/dev_intelliprop.cpp). */
module IpropCrc {

  import opened BitBytes

  // ---------------------------------------------------------------------
  // The register as a number

  predicate Msb(r: bv16) { r & 0x8000 != 0 }

  function Xor(a: bv16, b: bv16): bv16 { a ^ b }
  function Shl(r: bv16): bv16 { r << 1 }

  /** What the polynomial 0x8bb7 adds when a one leaves the register. */
  function Carry(r: bv16): (c: bv16)
    ensures c == 0 || c == 0x8bb7
  {
    if Msb(r) then 0x8bb7 else 0
  }

  function Bit(bit: bool): (c: bv16)
    ensures c == 0 || c == 1
  {
    if bit then 1 else 0
  }

  /** Shifts in a bit at the low end and reduces by the polynomial. */
  function ShiftIn(r: bv16, bit: bool): bv16 { Xor(Xor(Shl(r), Carry(r)), Bit(bit)) }

  /** Bit `j` of a byte, counted from the top */
  function Mask(j: nat): (m: byte)
    requires j < 8
  {
    if j == 0 then 0x80 else if j == 1 then 0x40 else if j == 2 then 0x20 else if j == 3 then 0x10
    else if j == 4 then 0x08 else if j == 5 then 0x04 else if j == 6 then 0x02 else 0x01
  }

  predicate BitOf(b: byte, j: nat)
    requires j < 8
  {
    b & Mask(j) != 0
  }

  /** The first `n` bits of a byte */
  function Absorb(r: bv16, b: byte, n: nat): bv16
    requires n <= 8
    decreases n
  {
    if n == 0 then r else ShiftIn(Absorb(r, b, n - 1), BitOf(b, n - 1))
  }

  function AbsorbAll(r: bv16, bytes: seq<byte>): bv16 {
    if bytes == [] then r else Absorb(AbsorbAll(r, bytes[..|bytes| - 1]), bytes[|bytes| - 1], 8)
  }

  /** The CRC of a message: two zero bytes follow it. */
  function Crc(bytes: seq<byte>): bv16 { AbsorbAll(0, bytes + [0, 0]) }

  // ---------------------------------------------------------------------
  // Linear and one-to-one

  lemma XorCommutes(a: bv16, b: bv16)
    ensures Xor(a, b) == Xor(b, a)
  {
  }

  lemma XorAssociates(a: bv16, b: bv16, c: bv16)
    ensures Xor(Xor(a, b), c) == Xor(a, Xor(b, c))
  {
  }

  lemma XorUnit(a: bv16)
    ensures Xor(a, a) == 0 && Xor(a, 0) == a && Xor(0, a) == a
  {
  }

  lemma XorCancels(a: bv16, b: bv16)
    requires Xor(a, b) == 0
    ensures a == b
  {
    hide Xor;
    XorAssociates(a, b, b);
    XorUnit(a);
    XorUnit(b);
  }

  lemma XorSwap(a: bv16, b: bv16, c: bv16, d: bv16)
    ensures Xor(Xor(a, b), Xor(c, d)) == Xor(Xor(a, c), Xor(b, d))
  {
    hide Xor;
    XorAssociates(a, b, Xor(c, d));
    XorAssociates(b, c, d);
    XorCommutes(b, c);
    XorAssociates(c, b, d);
    XorAssociates(a, c, Xor(b, d));
  }

  lemma ShlXor(a: bv16, b: bv16)
    ensures Shl(Xor(a, b)) == Xor(Shl(a), Shl(b))
  {
  }

  lemma MsbXor(a: bv16, b: bv16)
    ensures Msb(Xor(a, b)) == (Msb(a) != Msb(b))
  {
  }

  lemma CarryXor(a: bv16, b: bv16)
    ensures Carry(Xor(a, b)) == Xor(Carry(a), Carry(b))
  {
    hide Xor, Msb;
    MsbXor(a, b);
    XorUnit(Carry(a));
    XorUnit(Carry(b));
  }

  lemma BitXor(a: bool, b: bool)
    ensures Bit(a != b) == Xor(Bit(a), Bit(b))
  {
  }

  lemma ShiftLinear(r: bv16, s: bv16, a: bool, b: bool)
    ensures ShiftIn(Xor(r, s), a != b) == Xor(ShiftIn(r, a), ShiftIn(s, b))
  {
    hide Xor, Shl, Carry, Bit;
    ShlXor(r, s);
    CarryXor(r, s);
    BitXor(a, b);
    XorSwap(Shl(r), Carry(r), Shl(s), Carry(s));
    XorSwap(Xor(Shl(r), Carry(r)), Bit(a), Xor(Shl(s), Carry(s)), Bit(b));
  }

  lemma MaskXor(a: byte, b: byte, m: byte)
    requires m == 0x80 || m == 0x40 || m == 0x20 || m == 0x10 || m == 0x08 || m == 0x04 || m == 0x02 || m == 0x01
    ensures ((a ^ b) & m != 0) == ((a & m != 0) != (b & m != 0))
  {
  }

  lemma MaskIs(j: nat)
    requires j < 8
    ensures var m := Mask(j);
      m == 0x80 || m == 0x40 || m == 0x20 || m == 0x10 || m == 0x08 || m == 0x04 || m == 0x02 || m == 0x01
  {
  }

  lemma BitLinear(a: byte, b: byte, j: nat)
    requires j < 8
    ensures BitOf(a ^ b, j) == (BitOf(a, j) != BitOf(b, j))
  {
    hide Mask;
    MaskIs(j);
    MaskXor(a, b, Mask(j));
  }

  lemma AbsorbBit(r: bv16, b: byte, n: nat)
    requires 0 < n <= 8
    ensures Absorb(r, b, n) == ShiftIn(Absorb(r, b, n - 1), BitOf(b, n - 1))
  {
    hide ShiftIn, BitOf;
  }

  lemma AbsorbNone(r: bv16, b: byte)
    ensures Absorb(r, b, 0) == r
  {
  }

  lemma {:induction false} AbsorbLinear(r: bv16, s: bv16, a: byte, b: byte, n: nat)
    requires n <= 8
    ensures Absorb(Xor(r, s), a ^ b, n) == Xor(Absorb(r, a, n), Absorb(s, b, n))
  {
    hide ShiftIn, BitOf, Xor, Absorb;
    if n == 0 {
      AbsorbNone(r, a);
      AbsorbNone(s, b);
      AbsorbNone(Xor(r, s), a ^ b);
    } else {
      AbsorbBit(r, a, n);
      AbsorbBit(s, b, n);
      AbsorbBit(Xor(r, s), a ^ b, n);
      AbsorbLinear(r, s, a, b, n - 1);
      BitLinear(a, b, n - 1);
      ShiftLinear(Absorb(r, a, n - 1), Absorb(s, b, n - 1), BitOf(a, n - 1), BitOf(b, n - 1));
    }
  }

  lemma ShiftZero(r: bv16)
    ensures ShiftIn(r, false) == 0 <==> r == 0
  {
  }

  lemma NoBits(j: nat)
    requires j < 8
    ensures !BitOf(0, j)
  {
  }

  /** Zero bits lead to zero from nothing but zero. */
  lemma {:induction false} AbsorbZero(r: bv16, n: nat)
    requires n <= 8
    ensures Absorb(r, 0, n) == 0 <==> r == 0
  {
    hide ShiftIn, BitOf;
    if n > 0 {
      AbsorbZero(r, n - 1);
      NoBits(n - 1);
      ShiftZero(Absorb(r, 0, n - 1));
    }
  }

  // ---------------------------------------------------------------------
  // Two bytes fill the register

  function High(w: bv16): byte { (w >> 8) as byte }
  function Low(w: bv16): byte { (w & 0xff) as byte }
  function Word(h: byte, l: byte): bv16 { ((h as bv16) << 8) | (l as bv16) }

  lemma WordOf(w: bv16)
    ensures Word(High(w), Low(w)) == w
  {
  }

  lemma MoveLow(r: byte)
    ensures Absorb(r as bv16, 0, 8) == (r as bv16) << 8
  {
  }

  lemma MoveInHigh(b: byte)
    ensures Absorb(0, b & 0xf0, 8) == (b & 0xf0) as bv16
  {
  }

  lemma MoveInLow(b: byte)
    ensures Absorb(0, b & 0x0f, 8) == (b & 0x0f) as bv16
  {
  }

  lemma Nibbles(b: byte)
    ensures (b & 0xf0) ^ (b & 0x0f) == b
    ensures Xor((b & 0xf0) as bv16, (b & 0x0f) as bv16) == b as bv16
  {
  }

  lemma MoveIn(b: byte)
    ensures Absorb(0, b, 8) == b as bv16
  {
    hide Absorb, Xor;
    Nibbles(b);
    XorUnit(0);
    AbsorbLinear(0, 0, b & 0xf0, b & 0x0f, 8);
    MoveInHigh(b);
    MoveInLow(b);
  }

  lemma WordIsXor(h: byte, l: byte)
    ensures Word(h, l) == Xor((h as bv16) << 8, l as bv16)
  {
  }

  /** As long as the top byte is zero, bits just move in. */
  lemma MoveByte(r: byte, b: byte)
    ensures Absorb(r as bv16, b, 8) == Word(r, b)
  {
    hide Absorb, Xor, Word;
    ZeroXor(b);
    XorUnit(r as bv16);
    AbsorbLinear(r as bv16, 0, 0, b, 8);
    MoveLow(r);
    MoveIn(b);
    WordIsXor(r, b);
  }

  lemma ZeroXor(b: byte)
    ensures 0 ^ b == b
  {
  }

  lemma AppendTwo(r: bv16, bytes: seq<byte>, a: byte, b: byte)
    ensures AbsorbAll(r, bytes + [a, b]) == Absorb(Absorb(AbsorbAll(r, bytes), a, 8), b, 8)
  {
    hide Absorb;
    var s := bytes + [a, b];
    assert s[..|s| - 1] == bytes + [a];
    assert (bytes + [a])[..|bytes|] == bytes;
  }

  /** Whatever the register holds, the bytes of a word add that word to what two zero
      bytes would give. */
  lemma AbsorbWord(r: bv16, h: byte, l: byte)
    ensures Absorb(Absorb(r, h, 8), l, 8) == Xor(Absorb(Absorb(r, 0, 8), 0, 8), Word(h, l))
  {
    hide Absorb, Xor, Word;
    ZeroXor(h);
    ZeroXor(l);
    XorUnit(r);
    XorUnit(Absorb(r, 0, 8));
    AbsorbLinear(r, 0, 0, h, 8);
    AbsorbLinear(Absorb(r, 0, 8), Absorb(0, h, 8), 0, l, 8);
    MoveByte(0, h);
    MoveByte(h, l);
    WordLow(h);
  }

  lemma WordLow(h: byte)
    ensures Word(0, h) == h as bv16
  {
  }

  /** The check of a message that is followed by a word is zero exactly if the word is
      the CRC of the message, high byte first. */
  lemma CheckCondition(bytes: seq<byte>, h: byte, l: byte)
    ensures Crc(bytes + [h, l]) == 0 <==> Word(h, l) == Crc(bytes)
  {
    hide Absorb, Xor, Word, AbsorbAll;
    var r := AbsorbAll(0, bytes);
    var full := bytes + [h, l];
    AppendTwo(0, full, 0, 0);
    AppendTwo(0, bytes, h, l);
    AppendTwo(0, bytes, 0, 0);
    AbsorbZero(AbsorbAll(0, full), 8);
    AbsorbZero(Absorb(AbsorbAll(0, full), 0, 8), 8);
    AbsorbWord(r, h, l);
    XorUnit(Word(h, l));
    if Xor(Crc(bytes), Word(h, l)) == 0 {
      XorCancels(Crc(bytes), Word(h, l));
    }
  }

  /** Storing the CRC high byte first makes the check zero, for every message. */
  lemma StoredCrcChecks(bytes: seq<byte>)
    ensures Crc(bytes + [High(Crc(bytes)), Low(Crc(bytes))]) == 0
  {
    hide Crc, High, Low, Word;
    CheckCondition(bytes, High(Crc(bytes)), Low(Crc(bytes)));
    WordOf(Crc(bytes));
  }

  // ---------------------------------------------------------------------
  // The register as sixteen cells

  function Power(i: nat): bv16
    requires i < 16
  {
    if i == 0 then 0x0001 else if i == 1 then 0x0002 else if i == 2 then 0x0004 else if i == 3 then 0x0008
    else if i == 4 then 0x0010 else if i == 5 then 0x0020 else if i == 6 then 0x0040 else if i == 7 then 0x0080
    else if i == 8 then 0x0100 else if i == 9 then 0x0200 else if i == 10 then 0x0400 else if i == 11 then 0x0800
    else if i == 12 then 0x1000 else if i == 13 then 0x2000 else if i == 14 then 0x4000 else 0x8000
  }

  function And(a: bv16, b: bv16): bv16 { a & b }

  predicate BitAt(r: bv16, i: nat)
    requires i < 16
  {
    And(r, Power(i)) != 0
  }

  /** The cells of the register; a cell holds 0 or 1. */
  predicate Holds(cells: seq<bool>, r: bv16) {
    |cells| == 16 && forall i :: 0 <= i < 16 ==> cells[i] == BitAt(r, i)
  }

  /** The cells that the polynomial 0x8bb7 changes, besides cell 0 */
  predicate Tap(i: nat) { i == 1 || i == 2 || i == 4 || i == 5 || i == 7 || i == 8 || i == 9 || i == 11 || i == 15 }

  predicate OneBit(p: bv16) { p != 0 && p & (p - 1) == 0 }

  lemma PowerIs(i: nat)
    requires i < 16
    ensures OneBit(Power(i)) && (i > 0 ==> Power(i) == Shl(Power(i - 1)) && And(Power(i - 1), 0x8000) == 0)
    ensures i == 0 ==> Power(i) == 1
  {
  }

  lemma MaskLinear(a: bv16, b: bv16, p: bv16)
    requires OneBit(p)
    ensures ((a ^ b) & p != 0) == ((a & p != 0) != (b & p != 0))
  {
  }

  lemma ShlAnd(r: bv16, p: bv16)
    requires And(p, 0x8000) == 0
    ensures (And(Shl(r), Shl(p)) != 0) == (And(r, p) != 0)
  {
  }

  lemma ShlLow(r: bv16)
    ensures And(Shl(r), 1) == 0
  {
  }

  lemma BitAtXor(a: bv16, b: bv16, i: nat)
    requires i < 16
    ensures BitAt(Xor(a, b), i) == (BitAt(a, i) != BitAt(b, i))
  {
    hide Power;
    PowerIs(i);
    MaskLinear(a, b, Power(i));
  }

  lemma BitAtShl(r: bv16, i: nat)
    requires i < 16
    ensures BitAt(Shl(r), i) == (i > 0 && BitAt(r, i - 1))
  {
    hide Power, And, Shl;
    PowerIs(i);
    if i > 0 {
      ShlAnd(r, Power(i - 1));
    } else {
      ShlLow(r);
    }
  }

  lemma BitAtPolynomial(i: nat)
    requires i < 16
    ensures BitAt(0x8bb7, i) == (i == 0 || Tap(i)) && !BitAt(0, i) && BitAt(1, i) == (i == 0)
  {
  }

  lemma BitAtTop(r: bv16)
    ensures BitAt(r, 15) == Msb(r)
  {
  }

  /** What the shift does to each bit */
  lemma BitAtShift(r: bv16, bit: bool, i: nat)
    requires i < 16
    ensures BitAt(ShiftIn(r, bit), i) ==
            if i == 0 then bit != BitAt(r, 15)
            else if Tap(i) then BitAt(r, i - 1) != BitAt(r, 15)
            else BitAt(r, i - 1)
  {
    hide BitAt, Xor, Shl, Msb, Tap;
    BitAtXor(Xor(Shl(r), Carry(r)), Bit(bit), i);
    BitAtXor(Shl(r), Carry(r), i);
    BitAtShl(r, i);
    BitAtPolynomial(i);
    BitAtTop(r);
    NoTap();
  }

  lemma NoTap()
    ensures !Tap(0)
  {
  }

  // ---------------------------------------------------------------------
  // The loops

  /** The cells after one pass of the inner loop */
  predicate Shifted(c: seq<bool>, d: bool, r: seq<bool>)
    requires |c| == 16 && |r| == 16
  {
    && r[0] == (d != c[15]) && r[1] == (c[0] != c[15]) && r[2] == (c[1] != c[15])
    && r[3] == c[2] && r[4] == (c[3] != c[15]) && r[5] == (c[4] != c[15])
    && r[6] == c[5] && r[7] == (c[6] != c[15]) && r[8] == (c[7] != c[15])
    && r[9] == (c[8] != c[15]) && r[10] == c[9] && r[11] == (c[10] != c[15])
    && r[12] == c[11] && r[13] == c[12] && r[14] == c[13]
    && r[15] == (c[14] != c[15])
  }

  /** The statements of the inner loop, four at a time */
  method ShiftTop(crc: array<bool>, crcMsb: bool)
    requires crc.Length == 16
    modifies crc
    ensures crc[15] == (old(crc[14]) != crcMsb) && crc[14] == old(crc[13])
    ensures crc[13] == old(crc[12]) && crc[12] == old(crc[11])
    ensures forall i :: 0 <= i < 16 && !(12 <= i <= 15) ==> crc[i] == old(crc[i])
  {
    crc[15] := crc[14] != crcMsb;
    crc[14] := crc[13];
    crc[13] := crc[12];
    crc[12] := crc[11];
  }

  method ShiftHigh(crc: array<bool>, crcMsb: bool)
    requires crc.Length == 16
    modifies crc
    ensures crc[11] == (old(crc[10]) != crcMsb) && crc[10] == old(crc[9])
    ensures crc[9] == (old(crc[8]) != crcMsb) && crc[8] == (old(crc[7]) != crcMsb)
    ensures forall i :: 0 <= i < 16 && !(8 <= i <= 11) ==> crc[i] == old(crc[i])
  {
    crc[11] := crc[10] != crcMsb;
    crc[10] := crc[9];
    crc[9] := crc[8] != crcMsb;
    crc[8] := crc[7] != crcMsb;
  }

  method ShiftLow(crc: array<bool>, crcMsb: bool)
    requires crc.Length == 16
    modifies crc
    ensures crc[7] == (old(crc[6]) != crcMsb) && crc[6] == old(crc[5])
    ensures crc[5] == (old(crc[4]) != crcMsb) && crc[4] == (old(crc[3]) != crcMsb)
    ensures forall i :: 0 <= i < 16 && !(4 <= i <= 7) ==> crc[i] == old(crc[i])
  {
    crc[7] := crc[6] != crcMsb;
    crc[6] := crc[5];
    crc[5] := crc[4] != crcMsb;
    crc[4] := crc[3] != crcMsb;
  }

  method ShiftBottom(crc: array<bool>, dataMsb: bool, crcMsb: bool)
    requires crc.Length == 16
    modifies crc
    ensures crc[3] == old(crc[2]) && crc[2] == (old(crc[1]) != crcMsb)
    ensures crc[1] == (old(crc[0]) != crcMsb) && crc[0] == (dataMsb != crcMsb)
    ensures forall i :: 0 <= i < 16 && !(0 <= i <= 3) ==> crc[i] == old(crc[i])
  {
    crc[3] := crc[2];
    crc[2] := crc[1] != crcMsb;
    crc[1] := crc[0] != crcMsb;
    crc[0] := dataMsb != crcMsb;
  }

  /** One pass of the inner loop */
  method ShiftCells(crc: array<bool>, dataMsb: bool)
    requires crc.Length == 16
    modifies crc
    ensures Shifted(old(crc[..]), dataMsb, crc[..])
  {
    var crcMsb := crc[15];
    ShiftTop(crc, crcMsb);
    ShiftHigh(crc, crcMsb);
    ShiftLow(crc, crcMsb);
    ShiftBottom(crc, dataMsb, crcMsb);
  }

  lemma ShiftedHolds(c: seq<bool>, r: bv16, bit: bool, c': seq<bool>)
    requires Holds(c, r) && |c'| == 16 && Shifted(c, bit, c')
    ensures Holds(c', ShiftIn(r, bit))
  {
    hide ShiftIn, BitAt;
    forall i | 0 <= i < 16
      ensures c'[i] == BitAt(ShiftIn(r, bit), i)
    {
      BitAtShift(r, bit, i);
    }
  }

  // The register read from its cells, bit by bit from the low end

  function Or(a: bv16, b: bv16): bv16 { a | b }
  function AndNot(a: bv16, b: bv16): bv16 { a & !b }

  function SetBit(w: bv16, i: nat): bv16
    requires i < 16
  {
    Or(w, Power(i))
  }

  function ClearBit(w: bv16, i: nat): bv16
    requires i < 16
  {
    AndNot(w, Power(i))
  }

  /** The two numbers agree in the bits below `i`. */
  predicate Agree(w: bv16, r: bv16, i: nat)
    requires i <= 16
  {
    forall k :: 0 <= k < i ==> BitAt(w, k) == BitAt(r, k)
  }

  lemma OrElsewhere(w: bv16, p: bv16, q: bv16)
    requires And(p, q) == 0
    ensures And(Or(w, p), q) == And(w, q)
  {
  }

  lemma AndNotElsewhere(w: bv16, p: bv16, q: bv16)
    requires And(p, q) == 0
    ensures And(AndNot(w, p), q) == And(w, q)
  {
  }

  lemma OrHere(w: bv16, p: bv16)
    ensures And(Or(w, p), p) == p && And(AndNot(w, p), p) == 0
  {
  }

  lemma PowerDisjoint(i: nat, k: nat)
    requires k < i < 16
    ensures And(Power(i), Power(k)) == 0
  {
  }

  lemma PowerNonzero(i: nat)
    requires i < 16
    ensures Power(i) != 0
  {
  }

  lemma BitAtSet(w: bv16, i: nat, k: nat)
    requires k <= i < 16
    ensures BitAt(SetBit(w, i), k) <==> k == i || BitAt(w, k)
    ensures BitAt(ClearBit(w, i), k) <==> k != i && BitAt(w, k)
  {
    hide Power, And, Or, AndNot;
    if k == i {
      OrHere(w, Power(i));
      PowerNonzero(i);
    } else {
      PowerDisjoint(i, k);
      OrElsewhere(w, Power(i), Power(k));
      AndNotElsewhere(w, Power(i), Power(k));
    }
  }

  lemma AgreeNext(w: bv16, r: bv16, i: nat)
    requires i < 16 && Agree(w, r, i)
    ensures Agree(if BitAt(r, i) then SetBit(w, i) else ClearBit(w, i), r, i + 1)
  {
    hide BitAt, SetBit, ClearBit;
    forall k | 0 <= k < i + 1
      ensures BitAt(if BitAt(r, i) then SetBit(w, i) else ClearBit(w, i), k) == BitAt(r, k)
    {
      BitAtSet(w, i, k);
    }
  }

  /** Sixteen bits make up the number. */
  lemma AllBits(w: bv16, r: bv16)
    requires Agree(w, r, 16)
    ensures w == r
  {
    var x := Xor(w, r);
    forall k | 0 <= k < 16
      ensures !BitAt(x, k)
    {
      BitAtXor(w, r, k);
    }
    NoBit(x);
    XorCancels(w, r);
  }

  lemma NoBit(x: bv16)
    requires forall k :: 0 <= k < 16 ==> !BitAt(x, k)
    ensures x == 0
  {
    assert !BitAt(x, 0) && !BitAt(x, 1) && !BitAt(x, 2) && !BitAt(x, 3);
    assert !BitAt(x, 4) && !BitAt(x, 5) && !BitAt(x, 6) && !BitAt(x, 7);
    assert !BitAt(x, 8) && !BitAt(x, 9) && !BitAt(x, 10) && !BitAt(x, 11);
    assert !BitAt(x, 12) && !BitAt(x, 13) && !BitAt(x, 14) && !BitAt(x, 15);
  }

  method Collect(crc: array<bool>, ghost r: bv16) returns (crcFinal: bv16)
    requires Holds(crc[..], r)
    ensures crcFinal == r
  {
    hide BitAt, SetBit, ClearBit, Agree;
    crcFinal := 0;
    assert Agree(crcFinal, r, 0) by { AgreeNone(crcFinal, r); }
    for ii := 0 to 16
      invariant Agree(crcFinal, r, ii)
    {
      AgreeNext(crcFinal, r, ii);
      assert crc[..][ii] == BitAt(r, ii);
      if crc[ii] {
        crcFinal := SetBit(crcFinal, ii);
      } else {
        crcFinal := ClearBit(crcFinal, ii);
      }
    }
    AllBits(crcFinal, r);
  }

  lemma AgreeNone(w: bv16, r: bv16)
    ensures Agree(w, r, 0)
  {
  }

  lemma HoldsZero(cells: seq<bool>)
    requires |cells| == 16 && forall i :: 0 <= i < 16 ==> !cells[i]
    ensures Holds(cells, 0)
  {
    forall i | 0 <= i < 16
      ensures !BitAt(0, i)
    {
      BitAtPolynomial(i);
    }
  }

  /** The inner loop: the bits of one byte, from the top */
  method ShiftByte(crc: array<bool>, data: byte, ghost r: bv16)
    requires Holds(crc[..], r)
    modifies crc
    ensures Holds(crc[..], Absorb(r, data, 8))
  {
    hide ShiftIn, BitOf, BitAt, Shifted;
    for jj := 0 to 8
      invariant Holds(crc[..], Absorb(r, data, jj))
    {
      ghost var was := crc[..];
      ShiftCells(crc, BitOf(data, jj));
      ShiftedHolds(was, Absorb(r, data, jj), BitOf(data, jj), crc[..]);
    }
  }

  /** `iprop_crc16_1`: with `checkCrc` the buffer holds a CRC at its end, otherwise two
      zero bytes are added. */
  method IpropCrc16(buffer: array<byte>, len: nat, checkCrc: bool) returns (crcFinal: bv16)
    requires len <= buffer.Length
    ensures crcFinal == AbsorbAll(0, buffer[..len] + if checkCrc then [] else [0, 0])
  {
    hide Absorb, BitAt;
    ghost var message := buffer[..len] + if checkCrc then [] else [0, 0];
    var crc := new bool[16](_ => false);
    HoldsZero(crc[..]);
    var totalLen := if checkCrc then len else len + 2;
    for ii := 0 to totalLen
      invariant Holds(crc[..], AbsorbAll(0, message[..ii]))
    {
      var data := if ii < len then buffer[ii] else 0;
      assert data == message[ii];
      assert message[..ii + 1][..ii] == message[..ii];
      ShiftByte(crc, data, AbsorbAll(0, message[..ii]));
    }
    assert message[..totalLen] == message;
    crcFinal := Collect(crc, AbsorbAll(0, message));
  }
}
