/**
  Sessions of the JMB39x protocol (class `jmb39x_device` of lib/dev_jmb39x_raid.cpp)
  as functions on values: the device, the sector it borrows, and every write.
 */
module JmbSession {
  import opened BitBytes
  import opened Wrappers
  import opened JmbSector

  // ---------------------------------------------------------------------
  // The disk behind the device

  /** What the tunnel device makes of one call.  `data` is what a read delivers
      inside a session and what is found in the sector after a write that is
      not plainly stored. */
  datatype Outcome = Outcome(ok: bool, data: Sector)

  type Oracle = nat -> Outcome

  datatype Kind = WakeupWrite(k: nat) | RequestWrite(id: Id) | RestoreWrite

  /** A write of the sector, with the state of the disk before it and its success. */
  datatype Write = Write(kind: Kind, data: Sector, before: Sector, active: bool, ok: bool)

  /** `active`: the controller has taken the sector for its protocol. */
  datatype Disk = Disk(sector: Sector, active: bool, isOpen: bool, calls: nat, log: seq<Write>)

  /** Data that the controller does not take for its own protocol. */
  predicate Stored(data: Sector) { data == Zeros(SIZE) || TypeOf(data) == Foreign }

  /** A restore of such data ends the session; every other write is the protocol's. */
  predicate Ends(kind: Kind, data: Sector) { kind.RestoreWrite? && Stored(data) }

  /** `tunnelled_device::open`, `tunnelled_device::close` */
  function TunnelOpen(d: Disk, o: Oracle): (Disk, bool) {
    (d.(isOpen := o(d.calls).ok, calls := d.calls + 1), o(d.calls).ok)
  }

  function TunnelClose(d: Disk, o: Oracle): (Disk, bool) {
    (d.(isOpen := false, calls := d.calls + 1), o(d.calls).ok)
  }

  /** The check of the block size: nothing but its success matters. */
  function CheckSize(d: Disk, o: Oracle): (Disk, bool) {
    (d.(calls := d.calls + 1), o(d.calls).ok)
  }

  /** `raw_read` */
  function RawRead(d: Disk, o: Oracle): (Disk, bool, Sector) {
    var r := o(d.calls);
    (d.(calls := d.calls + 1), r.ok, if !r.ok then Zeros(SIZE) else if d.active then r.data else d.sector)
  }

  /** `raw_write` */
  function RawWrite(d: Disk, kind: Kind, data: Sector, o: Oracle): (Disk, bool) {
    var r := o(d.calls);
    var log := d.log + [Write(kind, data, d.sector, d.active, r.ok)];
    if r.ok && Ends(kind, data) then
      (d.(sector := data, active := false, calls := d.calls + 1, log := log), true)
    else
      (d.(sector := r.data, active := d.active || !kind.RestoreWrite?, calls := d.calls + 1, log := log), r.ok)
  }

  // ---------------------------------------------------------------------
  // The device

  datatype Config = Config(version: byte, port: byte, force: bool)

  datatype Device = Device(blocked: bool, writeBack: bool, cmdId: Id, orig: Sector, disk: Disk)

  /** `run_jmb_command`; a missing result stands for an error. */
  function RunCommand(c: Config, s: Device, cmd: Command, out: seq<byte>, o: Oracle): (Device, Option<Sector>) {
    var request := Request(c.version, s.cmdId, cmd, out);
    var (d1, written) := RawWrite(s.disk, RequestWrite(s.cmdId), Obfuscated(request), o);
    if !written then (s.(blocked := true, disk := d1), None) else
    var (d2, got, raw) := RawRead(d1, o);
    if !got then (s.(blocked := true, disk := d2), None) else
    var response := Obfuscated(raw);
    if request == response || !CrcOk(response) || request[..8] != response[..8] then
      (s.(blocked := true, disk := d2), None)
    else
      (s.(cmdId := Next(s.cmdId), disk := d2), Some(response))
  }

  /** `restore_orig_data` */
  function Restore(s: Device, o: Oracle): (Device, bool) {
    var (d, ok) := RawWrite(s.disk, RestoreWrite, s.orig, o);
    (s.(blocked := s.blocked || !ok, disk := d), ok)
  }

  /** `close` */
  function Close(s: Device, o: Oracle): (Device, bool) {
    var (s1, restored) := if s.writeBack then Restore(s, o) else (s, true);
    var (d, ok) := TunnelClose(s1.disk, o);
    (s1.(writeBack := false, disk := d), ok && restored)
  }

  /** The destructor */
  function Destroy(s: Device, o: Oracle): (Disk, bool) {
    if s.writeBack then (Restore(s, o).0.disk, Restore(s, o).1) else (s.disk, true)
  }

  /** Writes the wakeup sectors from the `k`-th on, up to the first failure. */
  function WakeUp(d: Disk, k: nat, o: Oracle): (Disk, bool)
    requires k <= 4
    decreases 4 - k
  {
    if k == 4 then (d, true) else
    var (d1, ok) := RawWrite(d, WakeupWrite(k), Wakeup(k), o);
    if !ok then (d1, false) else WakeUp(d1, k + 1, o)
  }

  /** The identify command of `open` */
  function Identify(c: Config): Command {
    var b: byte := if c.version != 1 then 2 else 1;
    [0, b, b, 0xff, c.port, 0, 0, 0, c.port, 0, 0, 0, 0, 0, 0, 0, 0, 0, 0, 0, 0, 0, 0, 0]
  }

  /** The command sequence of `open` once the wakeup sectors are written */
  function Greet(c: Config, s: Device, o: Oracle): (Device, bool) {
    var (s1, response) := RunCommand(c, s, Identify(c), [], o);
    if response.None? || response.value[16] < 0x20 then (Close(s1, o).0, false) else (s1, true)
  }

  /** What `open` keeps to write back: leftovers of the protocol become zeros. */
  function ToRestore(data: Sector): Sector {
    if data != Zeros(SIZE) && TypeOf(data) != Foreign then Zeros(SIZE) else data
  }

  /** `open` from the point where the original data has been read */
  function Begin(c: Config, s: Device, o: Oracle): (Device, bool) {
    if s.orig != Zeros(SIZE) && !c.force then
      (s.(blocked := true, disk := TunnelClose(s.disk, o).0), false)
    else
      var (d, ok) := WakeUp(s.disk, 0, o);
      var s1 := s.(orig := ToRestore(s.orig), disk := d);
      if !ok then (s1.(blocked := true, disk := TunnelClose(d, o).0), false)
      else Greet(c, s1.(writeBack := true, cmdId := 1), o)
  }

  /** `open` */
  function Open(c: Config, s0: Device, o: Oracle): (Device, bool) {
    var s := s0.(writeBack := false);
    if s.blocked then (s, false) else
    var (d1, up) := TunnelOpen(s.disk, o);
    if !up then (s.(disk := d1), false) else
    var (d2, sized) := CheckSize(d1, o);
    if !sized then (s.(disk := TunnelClose(d2, o).0), false) else
    var (d3, got, data) := RawRead(d2, o);
    if !got then (s.(orig := data, disk := TunnelClose(d3, o).0), false)
    else Begin(c, s.(orig := data, disk := d3), o)
  }

  // ---------------------------------------------------------------------
  // ATA commands

  datatype Direction = NoData | DataIn | DataOut

  /** `ata_in_regs_48bit`; the primed registers hold the high bytes. */
  datatype Regs = Regs(
    features: byte, features': byte, count: byte, count': byte, lbaLow: byte, lbaLow': byte,
    lbaMid: byte, lbaMid': byte, lbaHigh: byte, lbaHigh': byte, command: byte)

  /** `accepted`: the verdict of `ata_cmd_is_supported`. */
  datatype AtaCmd = AtaCmd(direction: Direction, regs: Regs, buffer: seq<byte>, accepted: bool)

  datatype Support = No | Yes | WithChecksum

  /** `is_supported_by_jmb` */
  function SupportedBy(r: Regs): Support {
    if r.command == 0xec || r.command == 0x2f then Yes
    else if r.command != 0xb0 then No
    else if r.features == 0xd0 || r.features == 0xd1 then WithChecksum
    else if r.features == 0xd4 then Yes
    else if r.features == 0xd5 then
      if r.lbaLow == 0x01 then WithChecksum
      else if r.lbaLow == 0x00 || r.lbaLow == 0x06 || r.lbaLow == 0xe0 || r.lbaLow == 0xe1 then Yes else No
    else if r.features == 0xd6 && r.lbaLow == 0xe0 then Yes
    else No
  }

  /** The command embedded in a request */
  function PassCommand(c: Config, cmd: AtaCmd): Command {
    var size: byte := if cmd.direction.NoData? then 1 else if cmd.direction.DataOut? then 3 else 2;
    var addr: byte := if cmd.direction.NoData? then 0 else 0xe0;
    var r := cmd.regs;
    [0, 2, 3, 0xff, c.port, size, 0, addr, 0, 0,
     r.features, r.features', r.count, r.count', r.lbaLow, r.lbaLow',
     r.lbaMid, r.lbaMid', r.lbaHigh, r.lbaHigh', 0xa0, 0, r.command, 0]
  }

  /** `Thrown`: an assertion of the source failed. */
  datatype Reply = Done(buffer: Option<Sector>) | Refused | Thrown

  /** `ata_pass_through` */
  function Pass(c: Config, s: Device, cmd: AtaCmd, o: Oracle): (Device, Reply) {
    if !s.disk.isOpen then (s, Thrown)
    else if s.blocked || !cmd.accepted || SupportedBy(cmd.regs).No? then (s, Refused)
    else
      var out := if cmd.direction.DataOut? then cmd.buffer else [];
      var (s1, response) := RunCommand(c, s, PassCommand(c, cmd), out, o);
      if response.None? then (s1, Refused)
      else if response.value[31] == 0 then (s1.(blocked := true), Refused)
      else if response.value[31] & 0xc1 != 0x40 then (s1, Refused)
      else if !cmd.direction.DataIn? then (s1, Done(None))
      else if |cmd.buffer| != SIZE then (s1, Thrown)
      else (s1, Done(Some(Delivered(response.value, cmd.regs))))
  }

  /** The bytes that fit in a response; the rest is zero. */
  function Payload(response: Sector): Sector { response[32..496] + Zeros(48) }

  /** `ata_checksum` */
  function Sum(b: seq<byte>): byte {
    if b == [] then 0 else Sum(b[..|b| - 1]) + b[|b| - 1]
  }

  function WithSum(s: Sector): Sector { s[511 := s[511] - Sum(s)] }

  /** What an intact sector must satisfy holds in spite of the lost bytes. */
  lemma WithSumIsZero(s: Sector)
    ensures Sum(WithSum(s)) == 0
  {
    var t := WithSum(s);
    assert t[..511] == s[..511];
  }

  // The self-test log

  const ENTRIES := 21

  predicate Used(s: Sector, i: nat)
    requires i < ENTRIES
  {
    s[2 + i * 24..26 + i * 24] != Zeros(24)
  }

  /** The power-on hours of an entry */
  function Hours(s: Sector, i: nat): nat
    requires i < ENTRIES
  {
    Number(s[6 + i * 24]) + 256 * Number(s[7 + i * 24])
  }

  /** The first of the latest entries among the first `n` */
  function Latest(s: Sector, n: nat): (r: Option<nat>)
    requires n <= ENTRIES
    ensures r.Some? ==> r.value < n
  {
    hide Used, Hours;
    if n == 0 then None else
    var r := Latest(s, n - 1);
    if !Used(s, n - 1) then r
    else if r.None? || Hours(s, n - 1) > Hours(s, r.value) then Some(n - 1)
    else r
  }

  lemma {:induction false} LatestIs(s: Sector, n: nat)
    requires n <= ENTRIES
    ensures var r := Latest(s, n);
      if r.None? then forall i :: 0 <= i < n ==> !Used(s, i)
      else && Used(s, r.value)
           && forall i :: 0 <= i < n && Used(s, i) ==>
                Hours(s, i) <= Hours(s, r.value) && (i < r.value ==> Hours(s, i) < Hours(s, r.value))
  {
    hide Used, Hours;
    if n > 0 {
      LatestIs(s, n - 1);
    }
  }

  /** `jmb_fix_selftest_log_index` */
  function WithIndex(s: Sector): Sector {
    var latest := Latest(s, ENTRIES);
    if s[508] != 0 || latest.None? then s else s[508 := (latest.value + 1) as byte]
  }

  function Delivered(response: Sector, r: Regs): Sector {
    var data := Payload(response);
    var sealed := if SupportedBy(r).WithChecksum? then WithSum(data) else data;
    if r.command == 0xb0 && r.features == 0xd5 && r.lbaLow == 0x06 then WithIndex(sealed) else sealed
  }
}
