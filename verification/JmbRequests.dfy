/**
  What the JMB39x controller reads in the requests, and what its answers come to
  (lib/dev_jmb39x_raid.cpp), stated over the sectors on the disk.
 */
module JmbRequests {
  import opened BitBytes
  import opened Wrappers
  import opened JmbSector
  import opened JmbSession

  // ---------------------------------------------------------------------
  // Reading a request

  /** A request as the controller reads it: command code and id, the head of the command,
      the port, the kind of transfer, the registers, and the data embedded */
  datatype Received = Received(
    code: nat, id: nat, head: seq<byte>, port: byte, size: byte, address: byte, regs: Regs, device: byte,
    unused: seq<byte>, data: seq<byte>)

  function Read(sector: Sector): (r: Received)
    ensures |r.data| == OUT_MAX
  {
    var p := Obfuscated(sector);
    Received(FromLe32(p[..4]), FromLe32(p[4..8]), p[8..12], p[12], p[13], p[15],
             Regs(p[18], p[19], p[20], p[21], p[22], p[23], p[24], p[25], p[26], p[27], p[30]), p[28],
             [p[14], p[16], p[17], p[29], p[31]], p[32..508])
  }

  predicate CodeIs(version: byte, code: nat) {
    code == match version
            case 1 => 0x197b_0393
            case 3 => 0x197b_0393
            case 2 => 0x197b_0562
            case _ => 0x197b_0322
  }

  /** The sector asks the controller for `cmd` of the caller, on the port of the device. */
  ghost predicate Asks(c: Config, sector: Sector, id: Id, cmd: AtaCmd) {
    var r := Read(sector);
    && CrcOk(Obfuscated(sector)) && CodeIs(c.version, r.code) && r.id == id
    && r.head == [0x00, 0x02, 0x03, 0xff] && r.port == c.port && r.unused == [0, 0, 0, 0, 0]
    && r.size == (match cmd.direction case NoData => 1 case DataIn => 2 case DataOut => 3)
    && r.address == (if cmd.direction.NoData? then 0x00 else 0xe0)
    && r.regs == cmd.regs && r.device == 0xa0
    && forall i :: 0 <= i < OUT_MAX ==>
         r.data[i] == if cmd.direction.DataOut? && i < |cmd.buffer| then cmd.buffer[i] else 0
  }

  lemma CodeOfVersion(version: byte)
    ensures CodeIs(version, RequestCode(version)) && RequestCode(version) < ID_END
  {
  }

  lemma RequestBytes(version: byte, id: Id, cmd: Command, out: seq<byte>, i: nat)
    requires 32 <= i < 508
    ensures Request(version, id, cmd, out)[i] == if i - 32 < |out| then out[i - 32] else 0
  {
    hide Crc, Le32, RequestCode, Zeros, LeWord;
    RequestParts(version, id, cmd, out);
    assert Request(version, id, cmd, out)[i] == Body(version, id, cmd, out)[..508][i] == Body(version, id, cmd, out)[i];
  }

  lemma RequestHeader(version: byte, id: Id, cmd: Command, out: seq<byte>)
    requires |cmd| == 24
    ensures var p := Request(version, id, cmd, out);
      && CrcOk(p) && CodeIs(version, FromLe32(p[..4])) && FromLe32(p[4..8]) == id && p[8..32] == cmd
  {
    hide CrcOk, Request, FromLe32, Le32, RequestCode, CodeIs;
    RequestRead(version, id, cmd, out);
    CodeOfVersion(version);
    Le32Read(RequestCode(version));
  }

  /** The bytes of a pass-through command, in their order */
  lemma PassBytes(c: Config, cmd: AtaCmd)
    ensures var q := PassCommand(c, cmd);
      && |q| == 24 && q[0] == 0x00 && q[1] == 0x02 && q[2] == 0x03 && q[3] == 0xff && q[4] == c.port
  {
  }

  lemma PassConstants(c: Config, cmd: AtaCmd)
    ensures var q := PassCommand(c, cmd);
      && |q| == 24 && q[6] == 0 && q[8] == 0 && q[9] == 0 && q[20] == 0xa0 && q[21] == 0 && q[23] == 0
  {
  }

  lemma PassKind(c: Config, cmd: AtaCmd)
    ensures var q := PassCommand(c, cmd);
      && |q| == 24 && q[5] == (match cmd.direction case NoData => 1 case DataIn => 2 case DataOut => 3)
      && q[7] == (if cmd.direction.NoData? then 0x00 else 0xe0)
  {
  }

  lemma PassRegisters(c: Config, cmd: AtaCmd)
    ensures var q, r := PassCommand(c, cmd), cmd.regs;
      && |q| == 24 && q[10] == r.features && q[11] == r.features' && q[12] == r.count && q[13] == r.count'
      && q[14] == r.lbaLow && q[15] == r.lbaLow' && q[16] == r.lbaMid && q[17] == r.lbaMid'
      && q[18] == r.lbaHigh && q[19] == r.lbaHigh' && q[22] == r.command
  {
  }

  lemma RequestAsks(c: Config, id: Id, cmd: AtaCmd)
    ensures Asks(c, Obfuscated(Request(c.version, id, PassCommand(c, cmd),
                                       if cmd.direction.DataOut? then cmd.buffer else [])), id, cmd)
  {
    hide CrcOk, Request, FromLe32, CodeIs, Obfuscated, PassCommand;
    var out := if cmd.direction.DataOut? then cmd.buffer else [];
    var p, q := Request(c.version, id, PassCommand(c, cmd), out), PassCommand(c, cmd);
    ObfuscatedTwice(p);
    PassBytes(c, cmd);
    PassConstants(c, cmd);
    PassKind(c, cmd);
    PassRegisters(c, cmd);
    RequestHeader(c.version, id, q, out);
    CommandBytes(p, q);
    forall i | 0 <= i < OUT_MAX
      ensures p[32..508][i] == if i < |out| then out[i] else 0
    {
      RequestBytes(c.version, id, q, out, 32 + i);
    }
  }

  lemma CommandBytes(p: Sector, q: seq<byte>)
    requires p[8..32] == q
    ensures p[8] == q[0] && p[9] == q[1] && p[10] == q[2] && p[11] == q[3] && p[8..12] == [q[0], q[1], q[2], q[3]]
    ensures p[12] == q[4] && p[13] == q[5] && p[14] == q[6] && p[15] == q[7] && p[16] == q[8] && p[17] == q[9]
    ensures p[18] == q[10] && p[19] == q[11] && p[20] == q[12] && p[21] == q[13] && p[22] == q[14] && p[23] == q[15]
    ensures p[24] == q[16] && p[25] == q[17] && p[26] == q[18] && p[27] == q[19] && p[28] == q[20] && p[29] == q[21]
    ensures p[30] == q[22] && p[31] == q[23]
  {
    assert p[8..32][..4] == p[8..12];
  }

  // ---------------------------------------------------------------------
  // Which commands are sent

  /** IDENTIFY DEVICE, READ LOG EXT, SMART READ DATA and READ THRESHOLDS, self-tests, some
      logs, and writing the SCT log */
  predicate Sendable(r: Regs) {
    || r.command in {0xec, 0x2f}
    || (r.command == 0xb0 && r.features in {0xd0, 0xd1, 0xd4})
    || (r.command == 0xb0 && r.features == 0xd5 && r.lbaLow in {0x00, 0x01, 0x06, 0xe0, 0xe1})
    || (r.command == 0xb0 && r.features == 0xd6 && r.lbaLow == 0xe0)
  }

  /** The data of these end with a checksum that the transfer cuts off. */
  predicate Checksummed(r: Regs) {
    r.command == 0xb0 && (r.features in {0xd0, 0xd1} || (r.features == 0xd5 && r.lbaLow == 0x01))
  }

  predicate SelfTestLog(r: Regs) { r.command == 0xb0 && r.features == 0xd5 && r.lbaLow == 0x06 }

  lemma SupportIs(r: Regs)
    ensures SupportedBy(r).No? <==> !Sendable(r)
    ensures SupportedBy(r).WithChecksum? <==> Checksummed(r)
  {
  }

  // ---------------------------------------------------------------------
  // Answers

  /** An answer to the request: not the request itself, intact, and with its code and id */
  predicate Valid(request: Sector, answer: Sector) {
    answer != request && CrcOk(answer) && answer[..8] == request[..8]
  }

  /** Entry `i` of the self-test log */
  function Entry(d: Sector, i: nat): seq<byte>
    requires i < ENTRIES
  {
    d[2 + 24 * i..26 + 24 * i]
  }

  /** The entry with the most power-on hours, the first of them, in the self-test log */
  predicate IsLatest(d: Sector, k: nat)
    requires k < ENTRIES
  {
    && Entry(d, k) != Zeros(24)
    && forall i: nat :: i < ENTRIES && Entry(d, i) != Zeros(24) ==>
         PowerOnHours(d, i) <= PowerOnHours(d, k) && (i < k ==> PowerOnHours(d, i) < PowerOnHours(d, k))
  }

  function PowerOnHours(d: Sector, i: nat): nat
    requires i < ENTRIES
  {
    Number(d[6 + 24 * i]) + 256 * Number(d[7 + 24 * i])
  }

  /** What the caller gets: 464 bytes of the answer and zeros, but for a checksum that fits
      and the index of the self-test log. */
  ghost predicate Holds(d: Sector, answer: Sector, r: Regs) {
    && (forall i :: 0 <= i < 464 ==> d[i] == answer[32 + i])
    && (forall i :: 464 <= i < 511 && i != 508 ==> d[i] == 0)
    && (if Checksummed(r) then Sum(d) == 0 else d[511] == 0)
    && (if SelfTestLog(r) && exists k: nat :: k < ENTRIES && IsLatest(d, k) then
          exists k: nat :: k < ENTRIES && IsLatest(d, k) && d[508] == (k + 1) as byte
        else d[508] == 0)
  }

  lemma {:induction false} UsedIs(d: Sector, i: nat)
    requires i < ENTRIES
    ensures Used(d, i) <==> Entry(d, i) != Zeros(24)
    ensures Hours(d, i) == PowerOnHours(d, i)
  {
    hide Zeros;
    assert 2 + i * 24 == 2 + 24 * i;
  }

  lemma LatestEntry(d: Sector)
    ensures var r := Latest(d, ENTRIES);
      if r.None? then !exists k: nat :: k < ENTRIES && IsLatest(d, k) else IsLatest(d, r.value)
  {
    hide Used, Hours, Zeros, PowerOnHours, Entry;
    LatestIs(d, ENTRIES);
    forall i: nat | i < ENTRIES
      ensures Used(d, i) <==> Entry(d, i) != Zeros(24)
      ensures Hours(d, i) == PowerOnHours(d, i)
    {
      UsedIs(d, i);
    }
  }

  lemma SameEntries(d: Sector, e: Sector, k: nat)
    requires k < ENTRIES && d[..508] == e[..508]
    ensures IsLatest(d, k) <==> IsLatest(e, k)
  {
    hide Zeros, Entry, PowerOnHours;
    forall i: nat | i < ENTRIES
      ensures Entry(d, i) == Entry(e, i) && PowerOnHours(d, i) == PowerOnHours(e, i)
    {
      SameEntry(d, e, i);
    }
  }

  lemma SameEntry(d: Sector, e: Sector, i: nat)
    requires i < ENTRIES && d[..508] == e[..508]
    ensures Entry(d, i) == Entry(e, i) && PowerOnHours(d, i) == PowerOnHours(e, i)
  {
    hide Number;
    assert d[2 + 24 * i..26 + 24 * i] == d[..508][2 + 24 * i..26 + 24 * i];
    assert e[2 + 24 * i..26 + 24 * i] == e[..508][2 + 24 * i..26 + 24 * i];
    assert d[6 + 24 * i] == d[..508][6 + 24 * i] && d[7 + 24 * i] == d[..508][7 + 24 * i];
    assert e[6 + 24 * i] == e[..508][6 + 24 * i] && e[7 + 24 * i] == e[..508][7 + 24 * i];
  }

  lemma IndexHolds(d: Sector)
    requires d[508] == 0
    ensures var e := WithIndex(d);
      && (forall i :: 0 <= i < SIZE && i != 508 ==> e[i] == d[i])
      && if exists k: nat :: k < ENTRIES && IsLatest(e, k) then
           exists k: nat :: k < ENTRIES && IsLatest(e, k) && e[508] == (k + 1) as byte
         else e[508] == 0
  {
    hide Latest, IsLatest;
    var e := WithIndex(d);
    LatestEntry(d);
    assert e[..508] == d[..508];
    forall k: nat | k < ENTRIES
      ensures IsLatest(d, k) <==> IsLatest(e, k)
    {
      SameEntries(d, e, k);
    }
  }

  lemma DeliveredIs(answer: Sector, r: Regs)
    ensures Delivered(answer, r) == if Checksummed(r) then WithSum(Payload(answer))
                                    else if SelfTestLog(r) then WithIndex(Payload(answer)) else Payload(answer)
  {
    hide SupportedBy, WithIndex, WithSum, Payload, Checksummed;
    SupportIs(r);
    NotBoth(r);
  }

  lemma DeliveredHolds(answer: Sector, r: Regs)
    ensures Holds(Delivered(answer, r), answer, r)
  {
    hide Delivered, WithIndex, IsLatest, Checksummed, SelfTestLog, WithSum, Sum, Payload;
    var data := Payload(answer);
    DeliveredIs(answer, r);
    PayloadIs(answer);
    NotBoth(r);
    if Checksummed(r) {
      WithSumIsZero(data);
      OnlyLastByte(data);
    } else if SelfTestLog(r) {
      IndexHolds(data);
    }
  }

  lemma PayloadIs(answer: Sector)
    ensures var d := Payload(answer);
      (forall i :: 0 <= i < 464 ==> d[i] == answer[32 + i]) && forall i :: 464 <= i < SIZE ==> d[i] == 0
  {
  }

  lemma OnlyLastByte(d: Sector)
    ensures forall i :: 0 <= i < 511 ==> WithSum(d)[i] == d[i]
  {
    hide Sum;
  }

  lemma NotBoth(r: Regs)
    ensures !(Checksummed(r) && SelfTestLog(r))
  {
  }

  // ---------------------------------------------------------------------
  // Pass-through

  /** The command reaches the controller. */
  predicate Sent(s: Device, cmd: AtaCmd) {
    s.disk.isOpen && !s.blocked && cmd.accepted && Sendable(cmd.regs)
  }

  predicate Grown(log: seq<Write>, was: seq<Write>) { |log| == |was| + 1 && log[..|was|] == was }

  /** How a pass-through command changes the device from `s` to `u`, and its result: at most
      one write, which asks for the command; success exactly if the answer to it says that
      the drive is ready without error; and then the data of the answer. */
  ghost predicate Passes(c: Config, s: Device, cmd: AtaCmd, o: Oracle, u: Device, reply: Reply) {
    if !Sent(s, cmd) then u == s && reply == if s.disk.isOpen then Refused else Thrown
    else
      && Grown(u.disk.log, s.disk.log)
      && var w, n := u.disk.log[|s.disk.log|], s.disk.calls;
         var answer := Obfuscated(o(n + 1).data);
         var answered := o(n).ok && o(n + 1).ok && Valid(Obfuscated(w.data), answer);
         var ready := answer[31] & 0xc1 == 0x40;
         && w.kind == RequestWrite(s.cmdId) && Asks(c, w.data, s.cmdId, cmd)
         && (u.blocked <==> !answered || answer[31] == 0)
         && u.cmdId == (if answered then Next(s.cmdId) else s.cmdId)
         && u.writeBack == s.writeBack && u.orig == s.orig
         && (reply.Done? <==> answered && ready && (cmd.direction.DataIn? ==> |cmd.buffer| == SIZE))
         && (reply.Thrown? <==> answered && ready && cmd.direction.DataIn? && |cmd.buffer| != SIZE)
         && (reply.Done? ==> (reply.buffer.Some? <==> cmd.direction.DataIn?))
         && (reply.Done? && reply.buffer.Some? ==> Holds(reply.buffer.value, answer, cmd.regs))
  }

  /** A write that is not a restore */
  lemma ProtocolWrite(d: Disk, kind: Kind, data: Sector, o: Oracle)
    requires !kind.RestoreWrite?
    ensures var (d', ok) := RawWrite(d, kind, data, o);
      && ok == o(d.calls).ok && d'.calls == d.calls + 1 && d'.active && d'.isOpen == d.isOpen
      && Grown(d'.log, d.log) && d'.log[|d.log|].kind == kind && d'.log[|d.log|].data == data
  {
    hide Stored;
  }

  /** A read while the controller answers */
  lemma ProtocolRead(d: Disk, o: Oracle)
    requires d.active
    ensures var (d', ok, data) := RawRead(d, o);
      d' == d.(calls := d.calls + 1) && ok == o(d.calls).ok && (ok ==> data == o(d.calls).data)
  {
    hide Zeros;
  }

  lemma ValidIs(request: Sector, answer: Sector)
    ensures Valid(request, answer) <==> !(request == answer || !CrcOk(answer) || request[..8] != answer[..8])
  {
    hide CrcOk;
  }

  /** One command of the protocol: what is written, and what the answer leads to */
  ghost predicate Ran(
    c: Config, s: Device, cmd: Command, out: seq<byte>, o: Oracle, u: Device, r: Option<seq<byte>>)
  {
    && Grown(u.disk.log, s.disk.log)
    && var w, n := u.disk.log[|s.disk.log|], s.disk.calls;
       var answer := Obfuscated(o(n + 1).data);
       var answered := o(n).ok && o(n + 1).ok && Valid(Obfuscated(w.data), answer);
       && w.kind == RequestWrite(s.cmdId) && w.data == Obfuscated(Request(c.version, s.cmdId, cmd, out))
       && r == (if answered then Some(answer) else None)
       && u.blocked == (s.blocked || !answered)
       && u.cmdId == (if answered then Next(s.cmdId) else s.cmdId)
       && u.writeBack == s.writeBack && u.orig == s.orig && u.disk.isOpen == s.disk.isOpen
  }

  lemma CommandRuns(c: Config, s: Device, cmd: Command, out: seq<byte>, o: Oracle)
    ensures var (u, r) := RunCommand(c, s, cmd, out, o); Ran(c, s, cmd, out, o, u, r)
  {
    hide Request, Obfuscated, CrcOk, RawWrite, RawRead, Valid, Zeros, Grown;
    var request := Request(c.version, s.cmdId, cmd, out);
    var d1 := RawWrite(s.disk, RequestWrite(s.cmdId), Obfuscated(request), o).0;
    ProtocolWrite(s.disk, RequestWrite(s.cmdId), Obfuscated(request), o);
    GrownOne(d1.log, s.disk.log);
    ProtocolRead(d1, o);
    ObfuscatedTwice(request);
    ValidIs(request, Obfuscated(o(s.disk.calls + 1).data));
  }

  /** What pass-through makes of the answer `r` */
  ghost predicate Replies(cmd: AtaCmd, s1: Device, r: Option<seq<byte>>, u: Device, reply: Reply) {
    var ready := r.Some? && |r.value| == SIZE && r.value[31] & 0xc1 == 0x40;
    && u.disk == s1.disk && u.cmdId == s1.cmdId && u.writeBack == s1.writeBack && u.orig == s1.orig
    && u.blocked == (s1.blocked || (r.Some? && |r.value| == SIZE && r.value[31] == 0))
    && reply == (if !ready then Refused else if !cmd.direction.DataIn? then Done(None)
                 else if |cmd.buffer| != SIZE then Thrown else Done(Some(Delivered(r.value, cmd.regs))))
  }

  lemma ReplyIs(c: Config, s: Device, cmd: AtaCmd, o: Oracle)
    requires Sent(s, cmd)
    ensures var (s1, r) := RunCommand(c, s, PassCommand(c, cmd), if cmd.direction.DataOut? then cmd.buffer else [], o);
      Replies(cmd, s1, r, Pass(c, s, cmd, o).0, Pass(c, s, cmd, o).1)
  {
    hide RunCommand, PassCommand, Delivered, SupportedBy, Sendable;
    SupportIs(cmd.regs);
    var r := RunCommand(c, s, PassCommand(c, cmd), if cmd.direction.DataOut? then cmd.buffer else [], o).1;
    if r.Some? {
      NotReady(r.value[31]);
    }
  }

  lemma RanPasses(c: Config, s: Device, cmd: AtaCmd, out: seq<byte>, o: Oracle, s1: Device, r: Option<seq<byte>>,
                  u: Device, reply: Reply)
    requires Sent(s, cmd) && out == (if cmd.direction.DataOut? then cmd.buffer else [])
    requires Ran(c, s, PassCommand(c, cmd), out, o, s1, r) && Replies(cmd, s1, r, u, reply)
    ensures Passes(c, s, cmd, o, u, reply)
  {
    hide PassCommand, Delivered, Asks, Valid, Holds, Request, Obfuscated, Grown, Sendable;
    RequestAsks(c, s.cmdId, cmd);
    DeliveredHolds(Obfuscated(o(s.disk.calls + 1).data), cmd.regs);
    GrownOne(s1.disk.log, s.disk.log);
  }

  /** The result of a command that has been sent */
  lemma SentPasses(c: Config, s: Device, cmd: AtaCmd, o: Oracle)
    requires Sent(s, cmd)
    ensures var (u, reply) := Pass(c, s, cmd, o); Passes(c, s, cmd, o, u, reply)
  {
    hide RunCommand, Pass, PassCommand, Passes, Ran, Replies, Sendable;
    var out := if cmd.direction.DataOut? then cmd.buffer else [];
    var (s1, r) := RunCommand(c, s, PassCommand(c, cmd), out, o);
    var (u, reply) := Pass(c, s, cmd, o);
    ReplyIs(c, s, cmd, o);
    CommandRuns(c, s, PassCommand(c, cmd), out, o);
    RanPasses(c, s, cmd, out, o, s1, r, u, reply);
  }

  lemma PassPasses(c: Config, s: Device, cmd: AtaCmd, o: Oracle)
    ensures var (u, reply) := Pass(c, s, cmd, o); Passes(c, s, cmd, o, u, reply)
  {
    if Sent(s, cmd) {
      hide Pass, Passes;
      SentPasses(c, s, cmd, o);
    } else {
      hide RunCommand, PassCommand, Delivered, SupportedBy, Sendable, Asks, Valid, Holds, Obfuscated;
      SupportIs(cmd.regs);
    }
  }

  lemma NotReady(status: byte)
    ensures status == 0 ==> status & 0xc1 != 0x40
  {
  }

  lemma GrownOne(log: seq<Write>, was: seq<Write>)
    requires Grown(log, was)
    ensures |log| == |was| + 1
  {
  }

  // ---------------------------------------------------------------------
  // Open and close

  /** The sector asks for the identity of the disk at the port. */
  ghost predicate Identifies(c: Config, sector: Sector) {
    var p := Obfuscated(sector);
    var b: byte := if c.version == 1 then 0x01 else 0x02;
    && CrcOk(p) && CodeIs(c.version, FromLe32(p[..4])) && FromLe32(p[4..8]) == 1
    && p[8] == 0 && p[9] == b && p[10] == b && p[11] == 0xff && p[12] == c.port && p[16] == c.port
    && forall i :: 13 <= i < 508 && i != 16 ==> p[i] == 0
  }

  lemma IdentifyBytes(c: Config)
    ensures var q := Identify(c);
      var b: byte := if c.version == 1 then 0x01 else 0x02;
      && |q| == 24 && q[0] == 0 && q[1] == b && q[2] == b && q[3] == 0xff && q[4] == c.port && q[8] == c.port
      && forall i :: 5 <= i < 24 && i != 8 ==> q[i] == 0
  {
  }

  lemma IdentifyIdentifies(c: Config)
    ensures Identifies(c, Obfuscated(Request(c.version, 1, Identify(c), [])))
  {
    hide CrcOk, Request, FromLe32, CodeIs, Obfuscated, Identify;
    var p, q := Request(c.version, 1, Identify(c), []), Identify(c);
    ObfuscatedTwice(p);
    IdentifyBytes(c);
    RequestHeader(c.version, 1, q, []);
    CommandBytes(p, q);
    forall i | 13 <= i < 508 && i != 16
      ensures p[i] == 0
    {
      if i < 32 {
        assert p[8..32][i - 8] == q[i - 8];
      } else {
        RequestBytes(c.version, 1, q, [], i);
      }
    }
  }

  /** The sector that `open` finds */
  function Found(s: Device, o: Oracle): Sector {
    if s.disk.active then o(s.disk.calls + 2).data else s.disk.sector
  }

  /** Open comes to the identify command. */
  predicate Wakes(c: Config, s: Device, o: Oracle) {
    var n := s.disk.calls;
    && !s.blocked && o(n).ok && o(n + 1).ok && o(n + 2).ok && (c.force || Found(s, o) == Zeros(SIZE))
    && o(n + 3).ok && o(n + 4).ok && o(n + 5).ok && o(n + 6).ok
  }

  /** The identify command is on the disk, and its outcome is success exactly if it is
      answered with the name of a disk. */
  ghost predicate Greeted(c: Config, o: Oracle, n: nat, u: Device, k: nat, ok: bool) {
    && |u.disk.log| > k && u.disk.log[k].kind == RequestWrite(1) && Identifies(c, u.disk.log[k].data)
    && (ok <==> && o(n).ok && o(n + 1).ok && Valid(Obfuscated(u.disk.log[k].data), Obfuscated(o(n + 1).data))
                && Obfuscated(o(n + 1).data)[16] >= 0x20)
    && (if ok then u.disk.isOpen && !u.blocked && u.writeBack && u.cmdId == 2 else !u.disk.isOpen)
  }

  /** Open succeeds exactly if the sector may be used, all calls succeed, and the controller
      answers with the name of a disk. */
  ghost predicate Opens(c: Config, s: Device, o: Oracle, u: Device, ok: bool) {
    if Wakes(c, s, o) then Greeted(c, o, s.disk.calls + 7, u, |s.disk.log| + 4, ok)
    else !ok && (s.blocked || !u.disk.isOpen)
  }

  /** The next `m` calls succeed. */
  predicate AllOk(o: Oracle, n: nat, m: nat)
    decreases m
  {
    m == 0 || (o(n).ok && AllOk(o, n + 1, m - 1))
  }

  lemma FourOk(o: Oracle, n: nat)
    ensures AllOk(o, n, 4) <==> o(n).ok && o(n + 1).ok && o(n + 2).ok && o(n + 3).ok
  {
    assert AllOk(o, n + 2, 2) <==> o(n + 2).ok && AllOk(o, n + 3, 1);
    assert AllOk(o, n + 3, 1) <==> o(n + 3).ok && AllOk(o, n + 4, 0);
  }

  lemma {:induction false} WakeUpFrom(d: Disk, k: nat, o: Oracle)
    requires k <= 4
    ensures var (d', ok) := WakeUp(d, k, o);
      && (ok <==> AllOk(o, d.calls, 4 - k))
      && (ok ==> (k < 4 || d.active ==> d'.active) && d'.isOpen == d.isOpen
                 && d'.calls == d.calls + (4 - k) && |d'.log| == |d.log| + (4 - k))
    decreases 4 - k
  {
    hide WakeUp, Wakeup, RawWrite, Grown;
    if k < 4 {
      WakeUpNext(d, k, o);
      ProtocolWrite(d, WakeupWrite(k), Wakeup(k), o);
      GrownOne(RawWrite(d, WakeupWrite(k), Wakeup(k), o).0.log, d.log);
      var d1 := RawWrite(d, WakeupWrite(k), Wakeup(k), o).0;
      WakeUpFrom(d1, k + 1, o);
    } else {
      assert WakeUp(d, k, o) == (d, true) by {
        WakeUpEnd(d, o);
      }
    }
  }

  lemma WakeUpEnd(d: Disk, o: Oracle)
    ensures WakeUp(d, 4, o) == (d, true)
  {
  }

  lemma WakeUpNext(d: Disk, k: nat, o: Oracle)
    requires k < 4
    ensures var (d1, ok) := RawWrite(d, WakeupWrite(k), Wakeup(k), o);
      WakeUp(d, k, o) == if !ok then (d1, false) else WakeUp(d1, k + 1, o)
  {
    hide Wakeup, Stored, RawWrite;
  }

  lemma CloseCloses(s: Device, o: Oracle)
    ensures var (u, ok) := Close(s, o); Closes(s, o, u, ok)
  {
    hide Stored;
  }

  /** Close writes the original sector back if that is due, closes the device below in any
      case, and succeeds exactly if both do. */
  ghost predicate Closes(s: Device, o: Oracle, u: Device, ok: bool) {
    var n := s.disk.calls;
    && !u.writeBack && !u.disk.isOpen && u.orig == s.orig && u.cmdId == s.cmdId
    && (if s.writeBack then
          && Grown(u.disk.log, s.disk.log)
          && u.disk.log[|s.disk.log|].kind == RestoreWrite && u.disk.log[|s.disk.log|].data == s.orig
          && (u.blocked <==> s.blocked || !o(n).ok) && (ok <==> o(n).ok && o(n + 1).ok)
        else
          u.disk.log == s.disk.log && u.blocked == s.blocked && (ok <==> o(n).ok))
  }

  lemma GreetRuns(c: Config, s: Device, o: Oracle)
    requires s.cmdId == 1 && !s.blocked && s.writeBack && s.disk.isOpen
    ensures var (u, ok) := Greet(c, s, o); Greeted(c, o, s.disk.calls, u, |s.disk.log|, ok)
  {
    hide RunCommand, Close, Identify, Identifies, Valid, Request, Obfuscated;
    CommandRuns(c, s, Identify(c), [], o);
    IdentifyIdentifies(c);
    CloseCloses(RunCommand(c, s, Identify(c), [], o).0, o);
  }

  /** The second half of open */
  lemma BeginRuns(c: Config, s: Device, o: Oracle)
    requires !s.blocked && s.disk.isOpen
    ensures var (u, ok) := Begin(c, s, o);
      if (c.force || s.orig == Zeros(SIZE)) && AllOk(o, s.disk.calls, 4) then
        Greeted(c, o, s.disk.calls + 4, u, |s.disk.log| + 4, ok)
      else !ok && !u.disk.isOpen
  {
    hide Begin, WakeUp, Greet, ToRestore, Zeros, Greeted, AllOk;
    BeginGreets(c, s, o);
    if (c.force || s.orig == Zeros(SIZE)) && AllOk(o, s.disk.calls, 4) {
      WakeUpFrom(s.disk, 0, o);
      var d := WakeUp(s.disk, 0, o).0;
      GreetRuns(c, s.(orig := ToRestore(s.orig), disk := d, writeBack := true, cmdId := 1), o);
    }
  }

  lemma BeginGreets(c: Config, s: Device, o: Oracle)
    requires !s.blocked && s.disk.isOpen
    ensures if (c.force || s.orig == Zeros(SIZE)) && AllOk(o, s.disk.calls, 4) then
              Begin(c, s, o) == Greet(c, s.(orig := ToRestore(s.orig), disk := WakeUp(s.disk, 0, o).0,
                                            writeBack := true, cmdId := 1), o)
            else !Begin(c, s, o).1 && !Begin(c, s, o).0.disk.isOpen
  {
    hide WakeUp, Greet, ToRestore, Zeros, AllOk;
    WakeUpFrom(s.disk, 0, o);
  }

  /** Open up to the point where the sector has been read */
  lemma OpenBegins(c: Config, s: Device, o: Oracle)
    ensures var n := s.disk.calls;
      if !s.blocked && o(n).ok && o(n + 1).ok && o(n + 2).ok then
        Open(c, s, o)
        == Begin(c, s.(writeBack := false, orig := Found(s, o), disk := s.disk.(isOpen := true, calls := n + 3)), o)
      else !Open(c, s, o).1 && (s.blocked || !Open(c, s, o).0.disk.isOpen)
  {
    hide Begin, Zeros;
  }

  lemma OpenOpens(c: Config, s: Device, o: Oracle)
    ensures var (u, ok) := Open(c, s, o); Opens(c, s, o, u, ok)
  {
    hide Open, Begin, Zeros, Greeted, AllOk;
    var n := s.disk.calls;
    OpenBegins(c, s, o);
    if !s.blocked && o(n).ok && o(n + 1).ok && o(n + 2).ok {
      FourOk(o, n + 3);
      BeginRuns(c, s.(writeBack := false, orig := Found(s, o), disk := s.disk.(isOpen := true, calls := n + 3)), o);
    }
  }
}
