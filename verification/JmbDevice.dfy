/**
  The class `jmb39x_device` of lib/dev_jmb39x_raid.cpp, with its fields and buffers,
  as an implementation of `JmbSession`.
 */
module JmbDevice {
  import opened BitBytes
  import opened Wrappers
  import opened JmbSector
  import opened JmbSession
  import R = JmbRequests

  /** The device that the protocol is tunnelled through. */
  class Tunnel {
    const oracle: Oracle
    var disk: Disk

    constructor (oracle: Oracle, disk: Disk)
      ensures this.oracle == oracle && this.disk == disk
    {
      this.oracle := oracle;
      this.disk := disk;
    }

    method Open() returns (ok: bool)
      modifies this
      ensures (disk, ok) == TunnelOpen(old(disk), oracle)
    {
      ok := oracle(disk.calls).ok;
      disk := disk.(isOpen := ok, calls := disk.calls + 1);
    }

    method Close() returns (ok: bool)
      modifies this
      ensures (disk, ok) == TunnelClose(old(disk), oracle)
    {
      ok := oracle(disk.calls).ok;
      disk := disk.(isOpen := false, calls := disk.calls + 1);
    }

    method SizeOk() returns (ok: bool)
      modifies this
      ensures (disk, ok) == CheckSize(old(disk), oracle)
    {
      ok := oracle(disk.calls).ok;
      disk := disk.(calls := disk.calls + 1);
    }

    method Read(data: array<byte>) returns (ok: bool)
      requires data.Length == SIZE
      modifies this, data
      ensures (disk, ok, data[..]) == RawRead(old(disk), oracle)
    {
      hide Zeros;
      var was := disk;
      Fill(data, 0, SIZE);
      assert data[..] == Zeros(SIZE);
      var outcome := oracle(was.calls);
      ok := outcome.ok;
      if ok {
        Copy(data, 0, if was.active then outcome.data else was.sector);
        assert data[..] == if was.active then outcome.data else was.sector;
      }
      disk := was.(calls := was.calls + 1);
    }

    method Write(kind: Kind, data: array<byte>) returns (ok: bool)
      requires data.Length == SIZE
      modifies this
      ensures (disk, ok) == RawWrite(old(disk), kind, data[..], oracle)
    {
      hide Stored;
      ok := oracle(disk.calls).ok;
      disk := RawWrite(disk, kind, data[..], oracle).0;
    }
  }

  class Jmb39xDevice {
    const config: Config
    const tunnel: Tunnel
    const origData: array<byte>
    var blocked: bool
    var writeBack: bool
    var cmdId: Id

    ghost predicate Valid() { origData.Length == SIZE }

    ghost function State(): Device
      requires Valid()
      reads this, origData, tunnel
    {
      Device(blocked, writeBack, cmdId, origData[..], tunnel.disk)
    }

    constructor (config: Config, tunnel: Tunnel)
      ensures Valid() && this.config == config && this.tunnel == tunnel && fresh(origData)
      ensures State() == Device(false, false, 0, Zeros(SIZE), tunnel.disk)
    {
      this.config := config;
      this.tunnel := tunnel;
      blocked, writeBack, cmdId := false, false, 0;
      var data := new byte[SIZE];
      origData := data;
      new;
      Fill(data, 0, SIZE);
      assert data[..] == Zeros(SIZE);
    }

    /** Builds the request and writes it obfuscated; the buffer keeps the plain request. */
    method WriteRequest(request: array<byte>, cmd: Command, dataOut: seq<byte>) returns (ok: bool)
      requires request.Length == SIZE && request != origData
      modifies tunnel, request
      ensures request[..] == Request(config.version, cmdId, cmd, dataOut)
      ensures (tunnel.disk, ok) == RawWrite(old(tunnel.disk), RequestWrite(cmdId),
                                            Obfuscated(Request(config.version, cmdId, cmd, dataOut)), tunnel.oracle)
    {
      hide Request, Obfuscated, RawWrite;
      JmbSetRequestSector(request, config.version, cmdId, cmd);
      if |dataOut| > 0 {
        EmbedData(request, config.version, cmdId, cmd, dataOut);
      }
      ghost var plain := Request(config.version, cmdId, cmd, dataOut);
      assert request[..] == plain;
      JmbXor(request);
      ok := tunnel.Write(RequestWrite(cmdId), request);
      JmbXor(request);
      ObfuscatedTwice(plain);
    }

    method RunJmbCommand(cmd: Command, response: array<byte>, dataOut: seq<byte>) returns (ok: bool)
      requires Valid() && response != origData && response.Length == SIZE
      modifies this, tunnel, response
      ensures Valid()
      ensures var (s, reply) := RunCommand(config, old(State()), cmd, dataOut, tunnel.oracle);
        State() == s && ok == reply.Some? && (ok ==> response[..] == reply.value)
    {
      hide Request, Obfuscated, CrcOk, RawWrite, Zeros;
      var request := new byte[SIZE];
      ok := WriteRequest(request, cmd, dataOut);
      if !ok {
        blocked := true;
        return;
      }
      Fill(response, 0, SIZE);
      ok := tunnel.Read(response);
      if !ok {
        blocked := true;
        return;
      }
      JmbXor(response);
      ok := CheckResponse(request, response);
      if !ok {
        blocked := true;
        return;
      }
      cmdId := Next(cmdId);
    }

    /** The checks of a response: not the request itself, a valid checksum, and the
        header of the request */
    static method CheckResponse(request: array<byte>, response: array<byte>) returns (ok: bool)
      requires request.Length == SIZE && response.Length == SIZE
      ensures ok <==> !(request[..] == response[..] || !CrcOk(response[..]) || request[..8] != response[..8])
    {
      hide CrcOk;
      if request[..] == response[..] {
        return false;
      }
      ok := JmbCheckCrc(response);
      if !ok {
        return;
      }
      ok := request[..8] == response[..8];
    }

    method RestoreOrigData() returns (ok: bool)
      requires Valid()
      modifies this, tunnel
      ensures Valid()
      ensures (State(), ok) == Restore(old(State()), tunnel.oracle)
    {
      hide RawWrite;
      ok := tunnel.Write(RestoreWrite, origData);
      if !ok {
        blocked := true;
      }
    }

    method Close() returns (ok: bool)
      requires Valid()
      modifies this, tunnel
      ensures Valid()
      ensures (State(), ok) == JmbSession.Close(old(State()), tunnel.oracle)
      ensures R.Closes(old(State()), tunnel.oracle, State(), ok)
    {
      hide Restore, R.Closes;
      R.CloseCloses(State(), tunnel.oracle);
      var restored := true;
      if writeBack {
        restored := RestoreOrigData();
        writeBack := false;
      }
      ok := tunnel.Close();
      if ok {
        ok := restored;
      }
    }

    /** Called from the destructor */
    method Destroy()
      requires Valid()
      modifies this, tunnel
      ensures tunnel.disk == JmbSession.Destroy(old(State()), tunnel.oracle).0
    {
      hide Restore;
      if writeBack {
        var _ := RestoreOrigData();
      }
    }

    method WriteWakeupSectors(dataOut: array<byte>) returns (ok: bool)
      requires Valid() && dataOut != origData && dataOut.Length == SIZE
      modifies tunnel, dataOut
      ensures (tunnel.disk, ok) == WakeUp(old(tunnel.disk), 0, tunnel.oracle)
    {
      hide RawWrite, Wakeup;
      var id := 0;
      ghost var was := tunnel.disk;
      while id < 4
        invariant id <= 4
        invariant WakeUp(tunnel.disk, id, tunnel.oracle) == WakeUp(was, 0, tunnel.oracle)
      {
        JmbSetWakeupSector(dataOut, id);
        ok := tunnel.Write(WakeupWrite(id), dataOut);
        if !ok {
          return;
        }
        id := id + 1;
      }
      ok := true;
    }

    method Open() returns (ok: bool)
      requires Valid()
      modifies this, tunnel, origData
      ensures Valid()
      ensures (State(), ok) == JmbSession.Open(config, old(State()), tunnel.oracle)
      ensures R.Opens(config, old(State()), tunnel.oracle, State(), ok)
    {
      hide Begin, RawRead, Zeros, R.Opens;
      R.OpenOpens(config, State(), tunnel.oracle);
      writeBack := false;
      if blocked {
        return false;
      }
      ok := tunnel.Open();
      if !ok {
        return;
      }
      ok := tunnel.SizeOk();
      if !ok {
        var _ := tunnel.Close();
        return;
      }
      ok := tunnel.Read(origData);
      if !ok {
        var _ := tunnel.Close();
        return;
      }
      ok := BeginSession();
    }

    /** The second half of `open` */
    method BeginSession() returns (ok: bool)
      requires Valid()
      modifies this, tunnel, origData
      ensures Valid()
      ensures (State(), ok) == Begin(config, old(State()), tunnel.oracle)
    {
      hide Zeros, WakeUp, Greet, TypeOf;
      ghost var was := State();
      var nonempty := Nonempty(origData);
      if nonempty {
        var st := JmbGetSectorType(origData);
        if !config.force {
          var _ := tunnel.Close();
          blocked := true;
          return false;
        }
        if st != Foreign {
          Fill(origData, 0, SIZE);
        }
      }
      assert origData[..] == ToRestore(was.orig);
      var dataOut := new byte[SIZE];
      ok := WriteWakeupSectors(dataOut);
      if !ok {
        var _ := tunnel.Close();
        blocked := true;
        return;
      }
      writeBack := true;
      cmdId := 1;
      ok := IdentifyDisk(dataOut);
    }

    method IdentifyDisk(response: array<byte>) returns (ok: bool)
      requires Valid() && response != origData && response.Length == SIZE
      modifies this, tunnel, response
      ensures Valid()
      ensures (State(), ok) == Greet(config, old(State()), tunnel.oracle)
    {
      hide RunCommand, JmbSession.Close, Identify;
      ghost var reply := RunCommand(config, State(), Identify(config), [], tunnel.oracle).1;
      ok := RunJmbCommand(Identify(config), response, []);
      assert ok ==> response[16] == reply.value[16];
      if !ok {
        var _ := Close();
        return false;
      }
      if response[16] < 0x20 {
        var _ := Close();
        return false;
      }
    }

    method AtaPassThrough(cmd: AtaCmd, buffer: array<byte>) returns (reply: Reply)
      requires Valid() && buffer != origData && cmd.buffer == buffer[..]
      modifies this, tunnel, buffer
      ensures Valid()
      ensures (State(), reply) == Pass(config, old(State()), cmd, tunnel.oracle)
      ensures R.Passes(config, old(State()), cmd, tunnel.oracle, State(), reply)
      ensures buffer[..] == if reply.Done? && reply.buffer.Some? then reply.buffer.value else old(buffer[..])
    {
      hide RunCommand, PassCommand, Delivered, SupportedBy, R.Passes;
      R.PassPasses(config, State(), cmd, tunnel.oracle);
      if !tunnel.disk.isOpen {
        return Thrown;
      }
      if blocked || !cmd.accepted {
        return Refused;
      }
      if SupportedBy(cmd.regs) == No {
        return Refused;
      }
      var response := new byte[SIZE];
      ghost var r := RunCommand(config, State(), PassCommand(config, cmd),
          if cmd.direction.DataOut? then cmd.buffer else [], tunnel.oracle).1;
      var ok := RunJmbCommand(PassCommand(config, cmd), response, if cmd.direction.DataOut? then buffer[..] else []);
      if !ok {
        return Refused;
      }
      assert response[31] == r.value[31];
      var status := response[31];
      if status == 0 {
        blocked := true;
        return Refused;
      }
      if status & 0xc1 != 0x40 {
        return Refused;
      }
      if cmd.direction != DataIn {
        return Done(None);
      }
      if buffer.Length != SIZE {
        return Thrown;
      }
      Deliver(buffer, response, cmd.regs);
      reply := Done(Some(buffer[..]));
    }
  }

  method AtaChecksum(data: array<byte>) returns (sum: byte)
    requires data.Length == SIZE
    ensures sum == Sum(data[..])
  {
    sum := 0;
    for i := 0 to SIZE
      invariant sum == Sum(data[..i])
    {
      assert data[..i + 1][..i] == data[..i];
      sum := sum + data[i];
    }
    assert data[..SIZE] == data[..];
  }

  method FixSelftestLogIndex(data: array<byte>)
    requires data.Length == SIZE
    modifies data
    ensures data[..] == WithIndex(old(data[..]))
  {
    hide Used, Hours;
    if data[508] != 0 {
      return;
    }
    LatestIs(data[..], ENTRIES);
    var i := 0;
    var hasEntries := false;
    while i < ENTRIES && !hasEntries
      invariant i <= ENTRIES
      invariant if hasEntries then i < ENTRIES && Used(data[..], i) else forall k :: 0 <= k < i ==> !Used(data[..], k)
      decreases ENTRIES - i, !hasEntries
    {
      if Used(data[..], i) {
        hasEntries := true;
      } else {
        i := i + 1;
      }
    }
    if !hasEntries {
      return;
    }
    var best: Option<nat> := None;
    i := 0;
    while i < ENTRIES
      invariant i <= ENTRIES && best == Latest(data[..], i)
    {
      if Used(data[..], i) {
        if best.None? || Hours(data[..], i) > Hours(data[..], best.value) {
          best := Some(i);
        }
      }
      i := i + 1;
    }
    data[508] := (best.value + 1) as byte;
  }

  /** Copies what a response holds of the sector asked for. */
  method Deliver(buffer: array<byte>, response: array<byte>, regs: Regs)
    requires buffer.Length == SIZE && response.Length == SIZE && buffer != response
    modifies buffer
    ensures buffer[..] == Delivered(response[..], regs)
  {
    hide WithIndex, Sum, SupportedBy;
    Fill(buffer, 0, SIZE);
    Copy(buffer, 0, response[32..496]);
    assert buffer[..] == Payload(response[..]);
    if SupportedBy(regs) == WithChecksum {
      var sum := AtaChecksum(buffer);
      buffer[511] := buffer[511] - sum;
    }
    if regs.command == 0xb0 && regs.features == 0xd5 && regs.lbaLow == 0x06 {
      FixSelftestLogIndex(buffer);
    }
  }
}
