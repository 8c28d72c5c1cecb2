/**
  Sectors of the JMB39x protocol (lib/dev_jmb39x_raid.cpp): checksum, obfuscation,
  wakeup and request sectors, and the type of a sector.
 */
module JmbSector {
  import opened BitBytes
  import opened Crc32

  const SIZE := 512
  const DWORDS := 127

  type Sector = s: seq<byte> | |s| == SIZE witness Zeros(SIZE)

  /** `nonempty` of lib/utility.cpp */
  method Nonempty(data: array<byte>) returns (r: bool)
    ensures !r <==> data[..] == Zeros(data.Length)
  {
    for i := 0 to data.Length
      invariant forall k :: 0 <= k < i ==> data[k] == 0
    {
      if data[i] != 0 {
        assert data[..][i] != Zeros(data.Length)[i];
        return true;
      }
    }
    assert data[..] == Zeros(data.Length);
    r := false;
  }

  // ---------------------------------------------------------------------
  // Obfuscation

  function XorRows0(row: nat): (r: seq<byte>)
    ensures |r| == 16
  {
    if row == 0 then
      [0x08, 0xc1, 0x67, 0x44, 0x04, 0x91, 0x0d, 0x3d, 0x9c, 0x44, 0xdb, 0x61, 0xba, 0x63, 0x00, 0x5c]
    else if row == 1 then
      [0x48, 0x78, 0xc4, 0x19, 0x9f, 0xc8, 0x8a, 0x1f, 0x8f, 0xa3, 0x7f, 0x83, 0x08, 0xcf, 0x7a, 0x71]
    else if row == 2 then
      [0x89, 0xa4, 0x1d, 0xcd, 0xe7, 0xd2, 0x32, 0xe1, 0x27, 0xad, 0xd4, 0xfa, 0x0e, 0x03, 0x99, 0xeb]
    else if row == 3 then
      [0xf7, 0x83, 0x50, 0x50, 0x11, 0x2d, 0x79, 0xbe, 0x3c, 0xb4, 0xf1, 0xe3, 0x8f, 0xd9, 0x3b, 0x9f]
    else if row == 4 then
      [0xd9, 0xb0, 0xf3, 0x67, 0x87, 0x90, 0xe0, 0x5d, 0xff, 0xf9, 0xf0, 0x60, 0x61, 0x55, 0x1a, 0x2e]
    else if row == 5 then
      [0x81, 0x52, 0xaf, 0x73, 0xee, 0x25, 0xad, 0xc7, 0x01, 0x6e, 0xce, 0x6b, 0x01, 0x8d, 0x49, 0x74]
    else if row == 6 then
      [0x9c, 0x9e, 0xed, 0x7e, 0xe9, 0x3b, 0xf3, 0xa2, 0x8e, 0x45, 0xa0, 0x39, 0x0f, 0xcd, 0x96, 0x6b]
    else
      [0x90, 0x3c, 0xa7, 0xb4, 0x5a, 0x6f, 0x72, 0xba, 0x08, 0x6b, 0x58, 0x1f, 0x35, 0x42, 0x2a, 0xc6]
  }

  function XorRows1(row: nat): (r: seq<byte>)
    ensures |r| == 16
  {
    if row == 8 then
      [0x4f, 0xf4, 0x51, 0xa2, 0xa1, 0x48, 0x6e, 0x89, 0xe9, 0x36, 0x6d, 0xc8, 0x3b, 0x12, 0xec, 0x3a]
    else if row == 9 then
      [0xad, 0x89, 0x2f, 0x37, 0xab, 0x1a, 0xde, 0x63, 0x2f, 0xef, 0x74, 0xee, 0xc7, 0xa9, 0x51, 0xd1]
    else if row == 10 then
      [0xae, 0x63, 0xad, 0x92, 0x1b, 0x78, 0x98, 0xf1, 0xb6, 0x40, 0xbb, 0xfa, 0x22, 0x07, 0xf3, 0x22]
    else if row == 11 then
      [0x95, 0xb7, 0x46, 0xa3, 0xca, 0x2b, 0x16, 0x85, 0x40, 0x41, 0x0a, 0xc5, 0xf3, 0x61, 0xc7, 0xad]
    else if row == 12 then
      [0x53, 0xfb, 0x1b, 0x65, 0xac, 0xc9, 0x55, 0xee, 0x73, 0xc1, 0x02, 0xa0, 0x29, 0xfe, 0x53, 0x15]
    else if row == 13 then
      [0x8f, 0x1f, 0xad, 0x8d, 0x77, 0xde, 0x15, 0xef, 0x6b, 0xf3, 0x1b, 0xd8, 0x44, 0x96, 0xe3, 0xaa]
    else if row == 14 then
      [0x5a, 0x2a, 0xdc, 0x10, 0x7b, 0x96, 0xda, 0x3c, 0x8b, 0xf2, 0x3d, 0x38, 0xa4, 0x81, 0xf3, 0x2c]
    else
      [0x58, 0x41, 0xf5, 0x54, 0x73, 0x45, 0x9d, 0x73, 0xc5, 0xfd, 0xe8, 0x2a, 0xbe, 0xc6, 0x30, 0x50]
  }

  function XorRows2(row: nat): (r: seq<byte>)
    ensures |r| == 16
  {
    if row == 16 then
      [0x9e, 0x4f, 0x8f, 0xa0, 0x29, 0xed, 0x4a, 0xe9, 0x2f, 0x32, 0x03, 0xca, 0x13, 0xd8, 0x5b, 0x7a]
    else if row == 17 then
      [0xae, 0x9d, 0x58, 0xe6, 0x88, 0x73, 0x22, 0x90, 0x0a, 0x43, 0x6c, 0x41, 0x5b, 0x17, 0xc4, 0x1a]
    else if row == 18 then
      [0x27, 0x5e, 0xf9, 0xef, 0x63, 0x9f, 0x57, 0x23, 0x6c, 0x27, 0x97, 0x70, 0xf5, 0xa8, 0x5b, 0x7b]
    else if row == 19 then
      [0x5d, 0xa9, 0x0f, 0x37, 0xae, 0xff, 0x8b, 0xb2, 0xc8, 0xca, 0xd9, 0x28, 0x8e, 0x5b, 0xb2, 0x46]
    else if row == 20 then
      [0xbe, 0x80, 0x40, 0x38, 0xe4, 0xee, 0xbb, 0x2c, 0xd2, 0x82, 0xc1, 0x72, 0x5a, 0x11, 0x4f, 0x4b]
    else if row == 21 then
      [0x54, 0xe2, 0xb9, 0xf1, 0x24, 0x96, 0x53, 0x3d, 0x33, 0x81, 0xf1, 0x50, 0x2e, 0x1a, 0x04, 0x71]
    else if row == 22 then
      [0x80, 0xf9, 0xbf, 0x66, 0x69, 0x9c, 0x6f, 0x22, 0x44, 0xd0, 0x69, 0xbb, 0xad, 0x93, 0x84, 0x98]
    else
      [0x74, 0xaf, 0x67, 0x32, 0xb9, 0x8f, 0x65, 0xf3, 0x4b, 0x0f, 0xf4, 0x85, 0xef, 0xb5, 0xba, 0xff]
  }

  function XorRows3(row: nat): (r: seq<byte>)
    ensures |r| == 16
  {
    if row == 24 then
      [0xe1, 0xda, 0x9e, 0x9e, 0x32, 0x96, 0xa9, 0x19, 0xb8, 0x4f, 0x43, 0xf7, 0xf6, 0x4c, 0x1c, 0x0f]
    else if row == 25 then
      [0xce, 0xd2, 0x67, 0xb6, 0xe3, 0xe3, 0x8d, 0x27, 0x1e, 0x27, 0x98, 0x4c, 0x73, 0x37, 0x5c, 0xff]
    else if row == 26 then
      [0xab, 0x16, 0xca, 0x64, 0x7d, 0x91, 0xc0, 0x6d, 0xae, 0x60, 0xf0, 0x1a, 0x43, 0x12, 0xe6, 0xf4]
    else if row == 27 then
      [0xd6, 0xe8, 0xba, 0xc2, 0x9b, 0x2f, 0xe6, 0xce, 0x07, 0x08, 0x6a, 0x8d, 0x28, 0x62, 0xa7, 0x31]
    else if row == 28 then
      [0xe9, 0x3d, 0x4b, 0x9b, 0x5b, 0x19, 0x18, 0x13, 0xd2, 0xa9, 0xc1, 0x08, 0xce, 0x62, 0x12, 0x8c]
    else if row == 29 then
      [0x12, 0x64, 0xe3, 0x43, 0xbb, 0xe3, 0x59, 0x1c, 0x57, 0x7f, 0xcd, 0xb9, 0x72, 0x65, 0x47, 0xab]
    else if row == 30 then
      [0xb8, 0xfe, 0x61, 0xc1, 0x08, 0xc2, 0xec, 0x25, 0x8e, 0xb9, 0x1c, 0x89, 0xdf, 0x6d, 0xd2, 0xa7]
    else
      [0x36, 0xa7, 0x10, 0x52, 0x2a, 0x21, 0x2d, 0xaa, 0x98, 0x31, 0xd1, 0x77, 0x35, 0xa8, 0x3b, 0x40]
  }

  function XorRow(row: nat): (r: seq<byte>)
    ensures |r| == 16
  {
    if row < 8 then XorRows0(row) else if row < 16 then XorRows1(row)
        else if row < 24 then XorRows2(row) else XorRows3(row)
  }

  function XorRows(rows: nat): (t: seq<byte>)
    ensures |t| == 16 * rows
  {
    if rows == 0 then [] else XorRows(rows - 1) + XorRow(rows - 1)
  }

  /** `xor_table` */
  function XorTable(): (t: Sector) {
    XorRows(32)
  }

  function Obfuscated(s: Sector): (r: Sector)
    ensures forall i :: 0 <= i < SIZE ==> r[i] == s[i] ^ XorTable()[i]
  {
    hide XorTable;
    var table := XorTable();
    seq(SIZE, i requires 0 <= i < SIZE => s[i] ^ table[i])
  }

  lemma XorTwice(a: byte, b: byte)
    ensures (a ^ b) ^ b == a
  {
  }

  /** The obfuscation undoes itself. */
  lemma ObfuscatedTwice(s: Sector)
    ensures Obfuscated(Obfuscated(s)) == s
  {
    hide XorTable;
    var r := Obfuscated(Obfuscated(s));
    forall i | 0 <= i < SIZE
      ensures r[i] == s[i]
    {
      XorTwice(s[i], XorTable()[i]);
    }
  }

  method JmbXor(data: array<byte>)
    requires data.Length == SIZE
    modifies data
    ensures data[..] == Obfuscated(old(data[..]))
  {
    hide XorTable;
    var table := XorTable();
    for i := 0 to SIZE
      invariant forall k :: 0 <= k < i ==> data[k] == old(data[k]) ^ table[k]
      invariant forall k :: i <= k < SIZE ==> data[k] == old(data[k])
    {
      data[i] := data[i] ^ table[i];
    }
    assert data[..] == Obfuscated(old(data[..]));
  }

  // ---------------------------------------------------------------------
  // The checksum

  function Initial(): bv32 { 0x5232_5032 }

  /** The register after the first `k` dwords; each enters from its last byte on. */
  function CrcOf(s: seq<byte>, k: nat): bv32
    requires 4 * k <= |s|
  {
    if k == 0 then Initial()
    else DwordStep(CrcOf(s, k - 1), s[4 * k - 1], s[4 * k - 2], s[4 * k - 3], s[4 * k - 4])
  }

  function Crc(s: Sector): bv32 { CrcOf(s, DWORDS) }

  /** The bytes of the first `k` dwords in the order in which they enter. */
  function Reversed(s: seq<byte>, k: nat): seq<byte>
    requires 4 * k <= |s|
  {
    if k == 0 then []
    else Reversed(s, k - 1) + [s[4 * k - 1]] + [s[4 * k - 2]] + [s[4 * k - 3]] + [s[4 * k - 4]]
  }

  /** The CRC of a byte string: each byte enters at the top of the register and
      is followed by eight single shifts. */
  function BitwiseCrc(bytes: seq<byte>): bv32 {
    if bytes == [] then Initial()
    else ByteStep(BitwiseCrc(bytes[..|bytes| - 1]), bytes[|bytes| - 1])
  }

  lemma BitwiseSnoc(bytes: seq<byte>, b: byte)
    ensures BitwiseCrc(bytes + [b]) == ByteStep(BitwiseCrc(bytes), b)
  {
    hide ByteStep;
    assert (bytes + [b])[..|bytes|] == bytes;
  }

  /** The checksum is the bit-by-bit CRC of the byte-reversed dwords. */
  lemma {:induction false} CrcIsBitwise(s: seq<byte>, k: nat)
    requires 4 * k <= |s|
    ensures CrcOf(s, k) == BitwiseCrc(Reversed(s, k))
  {
    hide ByteStep;
    if k > 0 {
      CrcIsBitwise(s, k - 1);
      var r := Reversed(s, k - 1);
      BitwiseSnoc(r, s[4 * k - 1]);
      BitwiseSnoc(r + [s[4 * k - 1]], s[4 * k - 2]);
      BitwiseSnoc(r + [s[4 * k - 1]] + [s[4 * k - 2]], s[4 * k - 3]);
      BitwiseSnoc(r + [s[4 * k - 1]] + [s[4 * k - 2]] + [s[4 * k - 3]], s[4 * k - 4]);
    }
  }

  /** `sg_get_unaligned_be32` */
  method GetBe32(data: array<byte>, index: nat) returns (dw: bv32)
    requires index + 4 <= data.Length
    ensures Byte0(dw) == data[index] && Byte1(dw) == data[index + 1]
    ensures Byte2(dw) == data[index + 2] && Byte3(dw) == data[index + 3]
  {
    dw := Word(data[index], data[index + 1], data[index + 2], data[index + 3]);
    WordBytes(data[index], data[index + 1], data[index + 2], data[index + 3]);
  }

  function Index(crc: bv32, x: bv32): bv8 { ((x ^ (crc >> 24)) & 0xff) as bv8 }

  /** One statement of the loop, for the byte `x` of a dword. */
  function Lookup(crc: bv32, x: bv32): bv32 { Xor(Table(Index(crc, x)), Shl8(crc)) }

  lemma IndexIs(crc: bv32, b: byte)
    ensures Index(crc, b as bv32) == b ^ ((crc >> 24) as bv8)
  {
  }

  lemma LookupIs(crc: bv32, b: byte)
    ensures Lookup(crc, b as bv32) == ByteStep(crc, b)
  {
    hide Table, ByteStep;
    IndexIs(crc, b);
    TableStepIs(crc, b);
  }

  lemma DwordBytes(dw: bv32)
    ensures dw & 0xff == Byte3(dw) as bv32 && (dw >> 8) & 0xff == Byte2(dw) as bv32
    ensures (dw >> 16) & 0xff == Byte1(dw) as bv32 && dw >> 24 == Byte0(dw) as bv32
  {
  }

  /** The body of the loop. */
  method CrcDword(crc0: bv32, dw: bv32) returns (crc: bv32)
    ensures crc == DwordStep(crc0, Byte3(dw), Byte2(dw), Byte1(dw), Byte0(dw))
  {
    hide Lookup, ByteStep, Byte0, Byte1, Byte2, Byte3;
    DwordBytes(dw);
    crc := Lookup(crc0, dw & 0xff);
    LookupIs(crc0, Byte3(dw));
    LookupIs(crc, Byte2(dw));
    crc := Lookup(crc, (dw >> 8) & 0xff);
    LookupIs(crc, Byte1(dw));
    crc := Lookup(crc, (dw >> 16) & 0xff);
    LookupIs(crc, Byte0(dw));
    crc := Lookup(crc, dw >> 24);
  }

  method JmbCrc(data: array<byte>) returns (crc: bv32)
    requires data.Length == SIZE
    ensures crc == Crc(data[..])
  {
    hide DwordStep, Byte0, Byte1, Byte2, Byte3;
    crc := Initial();
    var i := 0;
    while i < DWORDS
      invariant 0 <= i <= DWORDS && crc == CrcOf(data[..], i)
    {
      var dw := GetBe32(data, i * 4);
      crc := CrcDword(crc, dw);
      i := i + 1;
    }
  }

  // ---------------------------------------------------------------------
  // The stored checksum

  /** The last four bytes of a sector for the checksum `crc`, low byte first. */
  function LeWord(crc: bv32): (b: seq<byte>)
    ensures |b| == 4
  {
    [Byte3(crc), Byte2(crc), Byte1(crc), Byte0(crc)]
  }

  /** `jmb_get_crc` */
  function GetCrc(s: Sector): bv32 { Word(s[511], s[510], s[509], s[508]) }

  /** `jmb_put_crc` with the checksum of the sector */
  function Sealed(s: Sector): Sector { s[..508] + LeWord(Crc(s)) }

  /** `jmb_check_crc` */
  predicate CrcOk(s: Sector) { GetCrc(s) == Crc(s) }

  lemma WordOfBytes(w: bv32)
    ensures Word(Byte0(w), Byte1(w), Byte2(w), Byte3(w)) == w
  {
  }

  /** The checksum depends on nothing but the bytes before it. */
  lemma {:induction false} CrcOfPrefix(s: seq<byte>, t: seq<byte>, k: nat)
    requires 4 * k <= |s| && 4 * k <= |t| && s[..4 * k] == t[..4 * k]
    ensures CrcOf(s, k) == CrcOf(t, k)
  {
    hide DwordStep;
    if k > 0 {
      var n := 4 * k;
      forall i | 0 <= i < n
        ensures s[i] == t[i]
      {
        assert s[..n][i] == t[..n][i];
      }
      CrcOfPrefix(s, t, k - 1);
    }
  }

  /** Storing the checksum makes the check pass. */
  lemma SealedOk(s: Sector)
    ensures CrcOk(Sealed(s)) && Sealed(s)[..508] == s[..508]
  {
    hide CrcOf, Word, Byte0, Byte1, Byte2, Byte3;
    assert Sealed(s)[..4 * DWORDS] == s[..4 * DWORDS];
    CrcOfPrefix(Sealed(s), s, DWORDS);
    WordOfBytes(Crc(s));
  }

  /** Nothing but the stored checksum makes the check pass. */
  lemma OkMeansSealed(s: Sector)
    requires CrcOk(s)
    ensures s == Sealed(s)
  {
    hide CrcOf, Word, Byte0, Byte1, Byte2, Byte3;
    WordBytes(s[511], s[510], s[509], s[508]);
  }

  /** The same bytes outside the dword `d`. */
  predicate DifferAt(s: Sector, t: Sector, d: nat)
    requires d <= DWORDS
  {
    s != t && forall i :: 0 <= i < SIZE && !(4 * d <= i < 4 * d + 4) ==> s[i] == t[i]
  }

  lemma SameDword(s: Sector, t: Sector, d: nat)
    requires d <= DWORDS && forall i :: 0 <= i < SIZE && !(4 * d <= i < 4 * d + 4) ==> s[i] == t[i]
    requires s[4 * d] == t[4 * d] && s[4 * d + 1] == t[4 * d + 1]
    requires s[4 * d + 2] == t[4 * d + 2] && s[4 * d + 3] == t[4 * d + 3]
    ensures s == t
  {
  }

  /** Once the register differs, later dwords do not bring it back. */
  lemma {:induction false} StillDiffers(s: Sector, t: Sector, d: nat, k: nat)
    requires d < k <= DWORDS && DifferAt(s, t, d)
    ensures CrcOf(s, k) != CrcOf(t, k)
  {
    hide DwordStep;
    var n := 4 * k;
    if k == d + 1 {
      CrcOfPrefix(s, t, d);
      if CrcOf(s, k) == CrcOf(t, k) {
        DwordInjective(CrcOf(s, d), s[n - 1], s[n - 2], s[n - 3], s[n - 4], t[n - 1], t[n - 2], t[n - 3], t[n - 4]);
        SameDword(s, t, d);
      }
    } else {
      StillDiffers(s, t, d, k - 1);
      if CrcOf(s, k) == CrcOf(t, k) {
        DwordStateInjective(CrcOf(s, k - 1), CrcOf(t, k - 1), s[n - 1], s[n - 2], s[n - 3], s[n - 4]);
      }
    }
  }

  /** Any change confined to one of the 128 aligned dwords is detected. */
  lemma DwordErrorDetected(s: Sector, t: Sector, d: nat)
    requires d <= DWORDS && CrcOk(s) && DifferAt(s, t, d)
    ensures !CrcOk(t)
  {
    hide CrcOf, Word;
    if d < DWORDS {
      StillDiffers(s, t, d, DWORDS);
    } else {
      CrcOfPrefix(s, t, DWORDS);
      OkMeansSealed(s);
      assert s[..508] == t[..508];
      if CrcOk(t) {
        OkMeansSealed(t);
      }
    }
  }

  method JmbGetCrc(data: array<byte>) returns (crc: bv32)
    requires data.Length == SIZE
    ensures crc == GetCrc(data[..])
  {
    crc := Word(data[511], data[510], data[509], data[508]);
  }

  method JmbPutCrc(data: array<byte>, crc: bv32)
    requires data.Length == SIZE
    modifies data
    ensures data[..] == old(data[..508]) + LeWord(crc)
  {
    data[508], data[509], data[510], data[511] := Byte3(crc), Byte2(crc), Byte1(crc), Byte0(crc);
  }

  method JmbCheckCrc(data: array<byte>) returns (ok: bool)
    requires data.Length == SIZE
    ensures ok == CrcOk(data[..])
  {
    hide GetCrc, Crc;
    var stored := JmbGetCrc(data);
    var crc := JmbCrc(data);
    ok := stored == crc;
  }

  // ---------------------------------------------------------------------
  // Sector types

  datatype SectorType = Foreign | Plain | Protocol

  function TypeOf(s: Sector): SectorType {
    if CrcOk(s) then Plain else if CrcOk(Obfuscated(s)) then Protocol else Foreign
  }

  method JmbGetSectorType(data: array<byte>) returns (t: SectorType)
    requires data.Length == SIZE
    ensures t == TypeOf(data[..])
  {
    hide CrcOk, Obfuscated;
    var ok := JmbCheckCrc(data);
    if ok {
      return Plain;
    }
    var data2 := new byte[SIZE](i requires 0 <= i < SIZE reads data => data[i]);
    assert data2[..] == data[..];
    JmbXor(data2);
    ok := JmbCheckCrc(data2);
    t := if ok then Protocol else Foreign;
  }

  /** No sector that this protocol has sealed and obfuscated passes for foreign data. */
  lemma ObfuscatedNotForeign(s: Sector)
    ensures TypeOf(Obfuscated(Sealed(s))) != Foreign && TypeOf(Sealed(s)) == Plain
  {
    hide CrcOk, Obfuscated, Sealed;
    SealedOk(s);
    ObfuscatedTwice(Sealed(s));
  }

  // ---------------------------------------------------------------------
  // Requests

  const ID_END := 0x1_0000_0000

  /** A `uint32_t` command id. */
  type Id = x: nat | x < ID_END

  /** `m_cmd_id++` */
  function Next(id: Id): Id { if id == ID_END - 1 then 0 else id + 1 }

  function ByteOf(x: nat): byte { (x % 256) as byte }

  /** A number without its low byte */
  function Upper(x: nat): nat { x / 256 }

  /** `sg_put_unaligned_le32` */
  function Le32(v: nat): (b: seq<byte>)
    ensures |b| == 4
  {
    [ByteOf(v), ByteOf(Upper(v)), ByteOf(Upper(Upper(v))), ByteOf(Upper(Upper(Upper(v))))]
  }

  function Number(b: byte): nat { b as nat }

  function FromLe32(b: seq<byte>): nat
    requires |b| == 4
  {
    Number(b[0]) + 256 * (Number(b[1]) + 256 * (Number(b[2]) + 256 * Number(b[3])))
  }

  lemma Increment(b: byte)
    requires b != 255
    ensures Number(b + 1) == Number(b) + 1
  {
  }

  lemma ThereAndBack(b: byte)
    ensures (b as nat) as byte == b
  {
  }

  lemma {:induction false} SmallByte(y: nat)
    requires y < 256
    ensures Number(y as byte) == y
  {
    if y > 0 {
      SmallByte(y - 1);
      var b := (y - 1) as byte;
      Increment(b);
      ThereAndBack(b + 1);
    }
  }

  lemma ByteRead(x: nat)
    ensures Number(ByteOf(x)) + 256 * Upper(x) == x
  {
    var y := x % 256;
    assert ByteOf(x) == y as byte;
    hide ByteOf, Number;
    SmallByte(y);
  }

  lemma TopByte(v: Id)
    ensures Upper(Upper(Upper(Upper(v)))) == 0
  {
  }

  lemma Digits(v: nat, v1: nat, v2: nat, v3: nat, b0: nat, b1: nat, b2: nat, b3: nat)
    requires v == b0 + 256 * v1 && v1 == b1 + 256 * v2 && v2 == b2 + 256 * v3 && v3 == b3
    ensures b0 + 256 * (b1 + 256 * (b2 + 256 * b3)) == v
  {
  }

  lemma Le32Read(v: Id)
    ensures FromLe32(Le32(v)) == v
  {
    hide ByteOf, Number, Upper;
    var v1, v2, v3 := Upper(v), Upper(Upper(v)), Upper(Upper(Upper(v)));
    TopByte(v);
    ByteRead(v);
    ByteRead(v1);
    ByteRead(v2);
    ByteRead(v3);
    Digits(v, v1, v2, v3, Number(ByteOf(v)), Number(ByteOf(v1)), Number(ByteOf(v2)), Number(ByteOf(v3)));
  }

  method JmbPutLe32(data: array<byte>, index: nat, val: nat)
    requires index + 4 <= data.Length
    modifies data
    ensures data[..] == old(data[..index]) + Le32(val) + old(data[index + 4..])
  {
    hide ByteOf;
    data[index], data[index + 1] := ByteOf(val), ByteOf(Upper(val));
    data[index + 2], data[index + 3] := ByteOf(Upper(Upper(val))), ByteOf(Upper(Upper(Upper(val))));
  }

  function RequestCode(version: byte): nat {
    if version == 1 || version == 3 then 0x197b_0393 else if version == 2 then 0x197b_0562 else 0x197b_0322
  }

  type Command = c: seq<byte> | 4 <= |c| <= 24 witness Zeros(4)

  /** The data embedded in a request: what does not fit is cut off. */
  const OUT_MAX := 476

  function Cut(out: seq<byte>): seq<byte> { if |out| > OUT_MAX then out[..OUT_MAX] else out }

  function Header(version: byte, id: Id, cmd: Command): (h: seq<byte>)
    ensures |h| == 32
  {
    Le32(RequestCode(version)) + Le32(id) + cmd + Zeros(24 - |cmd|)
  }

  function Body(version: byte, id: Id, cmd: Command, out: seq<byte>): Sector {
    Header(version, id, cmd) + Cut(out) + Zeros(480 - |Cut(out)|)
  }

  /** A request before obfuscation. */
  function Request(version: byte, id: Id, cmd: Command, out: seq<byte>): Sector {
    Sealed(Body(version, id, cmd, out))
  }

  /** What the controller finds in a request. */
  lemma RequestRead(version: byte, id: Id, cmd: Command, out: seq<byte>)
    ensures var s := Request(version, id, cmd, out);
      && CrcOk(s)
      && s[..4] == Le32(RequestCode(version))
      && FromLe32(s[4..8]) == id
      && s[8..8 + |cmd|] == cmd
      && s[32..32 + |Cut(out)|] == Cut(out)
  {
    hide CrcOk, Sealed, Le32, FromLe32, RequestCode;
    var header := Le32(RequestCode(version)) + Le32(id) + cmd + Zeros(24 - |cmd|);
    var body: Sector := header + Cut(out) + Zeros(480 - |Cut(out)|);
    SealedOk(body);
    var s := Request(version, id, cmd, out);
    assert s == Sealed(body);
    assert forall i :: 0 <= i < 508 ==> s[i] == s[..508][i] == body[..508][i] == body[i];
    assert s[4..8] == Le32(id);
    Le32Read(id);
    assert s[..4] == Le32(RequestCode(version));
    assert s[8..8 + |cmd|] == cmd;
    assert s[32..32 + |Cut(out)|] == Cut(out);
  }

  method Fill(data: array<byte>, from: nat, to: nat)
    requires from <= to <= data.Length
    modifies data
    ensures data[..] == old(data[..from]) + Zeros(to - from) + old(data[to..])
  {
    for i := from to to
      invariant forall k :: from <= k < i ==> data[k] == 0
      invariant forall k :: 0 <= k < from || i <= k < data.Length ==> data[k] == old(data[k])
    {
      data[i] := 0;
    }
  }

  /** `memcpy` */
  method Copy(data: array<byte>, at: nat, from: seq<byte>)
    requires at + |from| <= data.Length
    modifies data
    ensures data[..] == old(data[..at]) + from + old(data[at + |from|..])
  {
    for i := 0 to |from|
      invariant forall k :: 0 <= k < i ==> data[at + k] == from[k]
      invariant forall k :: 0 <= k < at || at + i <= k < data.Length ==> data[k] == old(data[k])
    {
      data[at + i] := from[i];
    }
    assert data[at..at + |from|] == from;
  }

  method JmbSetRequestSector(data: array<byte>, version: byte, id: Id, cmd: Command)
    requires data.Length == SIZE
    modifies data
    ensures data[..] == Request(version, id, cmd, [])
  {
    hide Crc, Le32, RequestCode, Zeros;
    Fill(data, 0, SIZE);
    assert data[..] == Zeros(SIZE);
    JmbPutLe32(data, 0, RequestCode(version));
    assert data[..4] == Le32(RequestCode(version));
    assert data[4..] == Zeros(508);
    JmbPutLe32(data, 4, id);
    assert data[..8] == Le32(RequestCode(version)) + Le32(id);
    assert data[8..] == Zeros(504);
    Copy(data, 8, cmd);
    assert data[..8 + |cmd|] == Le32(RequestCode(version)) + Le32(id) + cmd;
    assert data[8 + |cmd|..] == Zeros(24 - |cmd|) + Zeros(480);
    RequestBody(data[..], version, id, cmd);
    ghost var body := data[..];
    var crc := JmbCrc(data);
    JmbPutCrc(data, crc);
  }

  lemma RequestBody(s: Sector, version: byte, id: Id, cmd: Command)
    requires s[..8 + |cmd|] == Le32(RequestCode(version)) + Le32(id) + cmd
    requires s[8 + |cmd|..] == Zeros(24 - |cmd|) + Zeros(480)
    ensures s == Body(version, id, cmd, [])
  {
    hide Le32, RequestCode, Zeros;
    var a, z := s[..8 + |cmd|], Zeros(24 - |cmd|);
    assert s == a + s[8 + |cmd|..];
    Regroup(a, z, Zeros(480));
  }

  lemma Regroup(a: seq<byte>, b: seq<byte>, c: seq<byte>)
    ensures a + (b + c) == a + b + [] + c
  {
  }

  lemma SameCrc(s: Sector, t: Sector)
    requires s[..508] == t[..508]
    ensures Crc(s) == Crc(t)
  {
    hide CrcOf;
    CrcOfPrefix(s, t, DWORDS);
  }

  /** Embeds the data of a DATA OUT command and stores the checksum anew. */
  method EmbedData(data: array<byte>, ghost version: byte, ghost id: Id, ghost cmd: Command, out: seq<byte>)
    requires data.Length == SIZE && data[..] == Request(version, id, cmd, [])
    modifies data
    ensures data[..] == Request(version, id, cmd, out)
  {
    hide Crc, CrcOf, Le32, RequestCode, Zeros, Request, LeWord;
    RequestParts(version, id, cmd, []);
    RequestParts(version, id, cmd, out);
    ghost var header := Header(version, id, cmd);
    assert data[..32] == header && data[32..508] == Zeros(476);
    Copy(data, 32, Cut(out));
    assert data[..32] == header;
    ghost var body := Body(version, id, cmd, out);
    assert data[..508] == body[..508];
    SameCrc(data[..], body);
    var crc := JmbCrc(data);
    JmbPutCrc(data, crc);
  }

  lemma RequestParts(version: byte, id: Id, cmd: Command, out: seq<byte>)
    ensures Request(version, id, cmd, out)
        == Body(version, id, cmd, out)[..508] + LeWord(Crc(Body(version, id, cmd, out)))
    ensures out == [] ==> Request(version, id, cmd, out)[..32] == Header(version, id, cmd)
                          && Request(version, id, cmd, out)[32..508] == Zeros(476)
  {
    hide Crc, Le32, RequestCode, Zeros, LeWord;
    ZerosPrefix(480, 476);
  }

  lemma ZerosPrefix(m: nat, n: nat)
    requires n <= m
    ensures Zeros(m)[..n] == Zeros(n)
  {
    hide Zeros;
  }

  // ---------------------------------------------------------------------
  // Wakeup sectors

  function WakeupCode(k: nat): nat {
    if k == 0 then 0x3c75_a80b else if k == 1 then 0x0388_e337 else if k == 2 then 0x6897_05f3 else 0xe00c_523a
  }

  function WakeupCrc(k: nat): bv32 {
    if k == 0 then 0x706d_10d9 else if k == 1 then 0x6958_511e else if k == 2 then 0xfe23_4b07 else 0x5be5_7adb
  }

  /** The bytes 16, 17, 18, ... up to `end` */
  function Counting(end: nat): (r: seq<byte>)
    requires 16 <= end
    ensures |r| == end - 16 && forall i :: 0 <= i < |r| ==> r[i] == ByteOf(16 + i)
  {
    if end == 16 then [] else Counting(end - 1) + [ByteOf(end - 1)]
  }

  /** One of the four sectors that open a session. */
  function Wakeup(k: nat): (s: Sector)
    requires k < 4
  {
    hide Zeros, Counting, Le32, LeWord;
    Le32(0x197b_0325) + Le32(WakeupCode(k)) + Zeros(8) + Counting(504) + Le32(0x10ec_a1db) + LeWord(WakeupCrc(k))
  }

  method Count(data: array<byte>)
    requires data.Length == SIZE
    modifies data
    ensures data[..] == old(data[..16]) + Counting(504) + old(data[504..])
  {
    hide ByteOf;
    for i := 16 to SIZE - 8
      invariant forall j :: 0 <= j < 16 || i <= j < SIZE ==> data[j] == old(data[j])
      invariant forall j :: 16 <= j < i ==> data[j] == ByteOf(j)
    {
      data[i] := ByteOf(i);
    }
    ghost var c := Counting(504);
    assert forall j :: 16 <= j < 504 ==> data[j] == c[j - 16];
  }

  method JmbSetWakeupSector(data: array<byte>, k: nat)
    requires data.Length == SIZE && k < 4
    modifies data
    ensures data[..] == Wakeup(k)
  {
    hide Counting, Le32, LeWord;
    JmbPutLe32(data, 0, 0x197b_0325);
    assert data[..4] == Le32(0x197b_0325);
    JmbPutLe32(data, 4, WakeupCode(k));
    assert data[..8] == Le32(0x197b_0325) + Le32(WakeupCode(k));
    Fill(data, 8, 16);
    assert data[..16] == Le32(0x197b_0325) + Le32(WakeupCode(k)) + Zeros(8);
    Count(data);
    assert data[..504] == Le32(0x197b_0325) + Le32(WakeupCode(k)) + Zeros(8) + Counting(504);
    JmbPutLe32(data, SIZE - 8, 0x10ec_a1db);
    assert data[..508] == Le32(0x197b_0325) + Le32(WakeupCode(k)) + Zeros(8) + Counting(504) + Le32(0x10ec_a1db);
    JmbPutCrc(data, WakeupCrc(k));
  }
}
