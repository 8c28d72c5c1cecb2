/** Switching the routed drive (`iprop_switch_routed_drive` of lib/dev_intelliprop.cpp). */
module IpropDevice {
  import opened BitBytes
  import opened IpropCrc

  const SIZE := 512

  /** What the drive makes of one read or write of log 0xC0 */
  datatype Outcome = Outcome(ok: bool, data: seq<byte>)

  /** The drive behind the bridge; a read that succeeds delivers 512 bytes. */
  class RoutedDrive {
    const outcomes: nat -> Outcome
    var calls: nat
    var written: seq<seq<byte>>

    ghost predicate Valid() { forall n :: |outcomes(n).data| == SIZE }

    constructor (outcomes: nat -> Outcome)
      ensures this.outcomes == outcomes && calls == 0 && written == []
    {
      this.outcomes, calls, written := outcomes, 0, [];
    }

    /** `ata_read_log_ext` */
    method ReadLog(data: array<byte>) returns (ok: bool)
      requires Valid() && data.Length == SIZE
      modifies this, data
      ensures calls == old(calls) + 1 && written == old(written)
      ensures ok == outcomes(old(calls)).ok
      ensures ok ==> data[..] == outcomes(old(calls)).data
    {
      var o := outcomes(calls);
      calls := calls + 1;
      ok := o.ok;
      if ok {
        forall i | 0 <= i < SIZE {
          data[i] := o.data[i];
        }
      }
    }

    /** `ata_write_log_ext` */
    method WriteLog(data: array<byte>) returns (ok: bool)
      requires Valid() && data.Length == SIZE
      modifies this
      ensures calls == old(calls) + 1 && written == old(written) + [data[..]]
      ensures ok == outcomes(old(calls)).ok
    {
      ok := outcomes(calls).ok;
      calls := calls + 1;
      written := written + [data[..]];
    }
  }

  /** The error returns, in their order */
  datatype Switch = Done | ReadFailed | CrcFailed | WriteFailed | SecondReadFailed | NotSelected

  /** The number that four bytes of the log hold on a little-endian host */
  function Number(b: seq<byte>): bv32
    requires |b| == 4
  {
    (b[0] as bv32) | ((b[1] as bv32) << 8) | ((b[2] as bv32) << 16) | ((b[3] as bv32) << 24)
  }

  /** `drive_select` as its bytes in the log, low byte first */
  function SelectBytes(select: bv32): (r: seq<byte>)
    ensures |r| == 4
  {
    [(select & 0xff) as byte, ((select >> 8) & 0xff) as byte, ((select >> 16) & 0xff) as byte, (select >> 24) as byte]
  }

  /** The log read, or zeros if its CRC is wrong */
  function Checked(log: seq<byte>): (r: seq<byte>)
    requires |log| == SIZE
    ensures |r| == SIZE
  {
    if Crc(log) == 0 then log else Zeros(SIZE)
  }

  /** The first 510 bytes to be written */
  function Payload(log: seq<byte>, select: bv32): (r: seq<byte>)
    requires |log| == SIZE
    ensures |r| == SIZE - 2
  {
    SelectBytes(select) + Checked(log)[4..9] + [0, 0, 0] + Checked(log)[12..510]
  }

  function WithCrc(payload: seq<byte>): seq<byte> { payload + [High(Crc(payload)), Low(Crc(payload))] }

  /** No other bytes hold this number. */
  lemma SelectBytesAre(select: bv32, b: seq<byte>)
    requires |b| == 4
    ensures Number(SelectBytes(select)) == select
    ensures b == SelectBytes(select) <==> Number(b) == select
  {
    SelectBytesRead(select);
    if Number(b) == select {
      NumberBytes(b[0], b[1], b[2], b[3]);
      assert b == [b[0], b[1], b[2], b[3]];
    }
  }

  lemma SelectBytesRead(select: bv32)
    ensures Number(SelectBytes(select)) == select
  {
  }

  lemma NumberBytes(b0: byte, b1: byte, b2: byte, b3: byte)
    ensures SelectBytes(Number([b0, b1, b2, b3])) == [b0, b1, b2, b3]
  {
  }

  /** The log `w` selects the drive: it passes the check of the drive, and it differs from
      the log read in nothing but the selection, the two cleared fields and the CRC.  If the
      CRC of the log read is wrong, everything but the selection and the CRC is zero. */
  ghost predicate Selects(w: seq<byte>, log: seq<byte>, select: bv32)
    requires |log| == SIZE
  {
    && |w| == SIZE && Crc(w) == 0
    && Number(w[..4]) == select && w[9] == 0 && w[10] == 0 && w[11] == 0
    && forall i :: (4 <= i < 9 || 12 <= i < 510) ==> w[i] == if Crc(log) == 0 then log[i] else 0
  }

  lemma WrittenLog(log: seq<byte>, select: bv32)
    requires |log| == SIZE
    ensures Selects(WithCrc(Payload(log, select)), log, select)
  {
    hide Crc, SelectBytes, High, Low, Number;
    StoredCrcChecks(Payload(log, select));
    var w := WithCrc(Payload(log, select));
    assert w[..4] == SelectBytes(select);
    SelectBytesAre(select, w[..4]);
    forall i | 4 <= i < 9 || 12 <= i < 510
      ensures w[i] == Checked(log)[i]
    {
      assert i < 9 ==> w[i] == Checked(log)[4..9][i - 4];
      assert i >= 12 ==> w[i] == Checked(log)[12..510][i - 12];
    }
  }

  method SetBytes(data: array<byte>, at: nat, bytes: seq<byte>)
    requires at + |bytes| <= data.Length
    modifies data
    ensures data[..] == old(data[..at]) + bytes + old(data[at + |bytes|..])
  {
    for i := 0 to |bytes|
      invariant forall k :: 0 <= k < i ==> data[at + k] == bytes[k]
      invariant forall k :: 0 <= k < at || at + i <= k < data.Length ==> data[k] == old(data[k])
    {
      data[at + i] := bytes[i];
    }
    assert data[at..at + |bytes|] == bytes;
  }

  method PutFields(log: array<byte>, select: bv32)
    requires log.Length == SIZE
    modifies log
    ensures log[..510] == SelectBytes(select) + old(log[4..9]) + [0, 0, 0] + old(log[12..510])
  {
    hide SelectBytes;
    SetBytes(log, 0, SelectBytes(select));
    assert log[..9] == SelectBytes(select) + old(log[4..9]);
    assert log[12..] == old(log[12..]);
    SetBytes(log, 9, [0, 0, 0]);
    assert log[..12] == SelectBytes(select) + old(log[4..9]) + [0, 0, 0];
  }

  /** Builds the log to be written, without its CRC. */
  method Prepare(log: array<byte>, select: bv32)
    requires log.Length == SIZE
    modifies log
    ensures log[..510] == Payload(old(log[..]), select)
  {
    hide Crc, SelectBytes, AbsorbAll, Zeros;
    var crcCheck := IpropCrc16(log, SIZE, false);
    assert log[..SIZE] == log[..];
    CrcIs(log[..]);
    ghost var was := log[..];
    if crcCheck != 0 {
      SetBytes(log, 0, Zeros(SIZE));
      assert log[..] == Zeros(SIZE);
    }
    assert log[..] == Checked(was);
    PutFields(log, select);
  }

  lemma CrcIs(bytes: seq<byte>)
    ensures Crc(bytes) == AbsorbAll(0, bytes + [0, 0])
  {
  }

  /** Stores the CRC, and checks it: the check never fails. */
  method StoreCrc(log: array<byte>) returns (ok: bool)
    requires log.Length == SIZE
    modifies log
    ensures log[..] == WithCrc(old(log[..510])) && ok
  {
    hide Crc, AbsorbAll, High, Low;
    ghost var payload := log[..510];
    CrcIs(payload);
    var crcNew := IpropCrc16(log, SIZE - 2, false);
    log[510], log[511] := High(crcNew), Low(crcNew);
    assert log[..] == WithCrc(payload);
    StoredCrcChecks(payload);
    CrcIs(log[..]);
    assert log[..SIZE] == log[..];
    var crcCheck2 := IpropCrc16(log, SIZE, false);
    ok := crcCheck2 == 0;
  }

  /** `iprop_switch_routed_drive`: true exactly if all three calls succeed and the second log
      read shows the selection.  The error return for a wrong CRC is never taken. */
  method SwitchRoutedDrive(drive: RoutedDrive, select: bv32) returns (r: Switch)
    requires drive.Valid()
    modifies drive
    ensures var o, n := drive.outcomes, old(drive.calls);
      && (r == ReadFailed <==> !o(n).ok)
      && (r == WriteFailed <==> o(n).ok && !o(n + 1).ok)
      && (r == SecondReadFailed <==> o(n).ok && o(n + 1).ok && !o(n + 2).ok)
      && (r == NotSelected <==> o(n).ok && o(n + 1).ok && o(n + 2).ok && Number(o(n + 2).data[..4]) != select)
      && (r == Done <==> o(n).ok && o(n + 1).ok && o(n + 2).ok && Number(o(n + 2).data[..4]) == select)
    ensures drive.calls == old(drive.calls) + if r == ReadFailed then 1 else if r == WriteFailed then 2 else 3
    ensures r == ReadFailed ==> drive.written == old(drive.written)
    ensures r != ReadFailed ==>
              && |drive.written| == |old(drive.written)| + 1
              && drive.written[..|old(drive.written)|] == old(drive.written)
              && Selects(drive.written[|old(drive.written)|], drive.outcomes(old(drive.calls)).data, select)
  {
    hide SelectBytes, Payload, WithCrc, Number, Selects;
    var log := new byte[SIZE];
    var ok := drive.ReadLog(log);
    if !ok {
      return ReadFailed;
    }
    WrittenLog(log[..], select);
    Prepare(log, select);
    ok := StoreCrc(log);
    if !ok {
      return CrcFailed;
    }
    ok := drive.WriteLog(log);
    if !ok {
      return WriteFailed;
    }
    var check := new byte[SIZE];
    ok := drive.ReadLog(check);
    if !ok {
      return SecondReadFailed;
    }
    SelectBytesAre(select, check[..4]);
    if check[..4] != SelectBytes(select) {
      return NotSelected;
    }
    r := Done;
  }
}
