/**
  What every run of the JMB39x device keeps (lib/dev_jmb39x_raid.cpp).
 */
module JmbSafety {
  import opened BitBytes
  import opened Wrappers
  import opened JmbSector
  import opened JmbSession
  import R = JmbRequests

  // ---------------------------------------------------------------------
  // The log of writes

  /** Where the protocol stands: `Waking(k)` after `k` wakeup sectors, `Talking(id)`
      after the request `id`. */
  datatype Phase = Quiet | Waking(k: nat) | Talking(id: Id) | Wrong

  /** A request for the controller, with this id. */
  predicate ReadsAs(c: Config, id: Id, data: Sector) {
    var r := Obfuscated(data);
    CrcOk(r) && r[..4] == Le32(RequestCode(c.version)) && FromLe32(r[4..8]) == id
  }

  predicate Faithful(c: Config, w: Write) {
    && (match w.kind
        case WakeupWrite(k) => k < 4 && w.data == Wakeup(k)
        case RequestWrite(id) => ReadsAs(c, id, w.data)
        case RestoreWrite => Stored(w.data))
    && (!c.force && !w.active ==> w.before == Zeros(SIZE))
  }

  function Advance(p: Phase, kind: Kind): Phase {
    match kind
    case WakeupWrite(k) =>
      if k == 0 || p == Waking(k) then Waking(k + 1) else Wrong
    case RequestWrite(id) =>
      if (p == Waking(4) && id == 1) || (p.Talking? && id == Next(p.id)) then Talking(id) else Wrong
    case RestoreWrite =>
      if p.Talking? then Quiet else Wrong
  }

  function PhaseOf(c: Config, log: seq<Write>): Phase {
    if log == [] then Quiet else
    var p := PhaseOf(c, log[..|log| - 1]);
    var w := log[|log| - 1];
    if p.Wrong? || !Faithful(c, w) then Wrong else Advance(p, w.kind)
  }

  lemma PhaseNext(c: Config, log: seq<Write>, w: Write)
    ensures PhaseOf(c, log + [w]) ==
            if PhaseOf(c, log).Wrong? || !Faithful(c, w) then Wrong else Advance(PhaseOf(c, log), w.kind)
  {
    hide Faithful, Advance;
    assert (log + [w])[..|log|] == log;
  }

  // ---------------------------------------------------------------------
  // The log stays in order in every run

  ghost predicate Orderly(c: Config, s: Device) {
    var p := PhaseOf(c, s.disk.log);
    && !p.Wrong?
    && (s.writeBack ==> s.disk.isOpen && s.disk.active && Stored(s.orig) && p.Talking?)
    && (s.disk.isOpen && !s.blocked ==> s.writeBack && s.cmdId == Next(p.id))
  }

  lemma RequestFaithful(c: Config, id: Id, cmd: Command, out: seq<byte>, before: Sector, ok: bool)
    ensures Faithful(c, Write(RequestWrite(id), Obfuscated(Request(c.version, id, cmd, out)), before, true, ok))
  {
    hide Request, Obfuscated, CrcOk, Le32, FromLe32, RequestCode;
    RequestRead(c.version, id, cmd, out);
    ObfuscatedTwice(Request(c.version, id, cmd, out));
  }

  lemma CommandOrderly(c: Config, s: Device, cmd: Command, out: seq<byte>, o: Oracle)
    requires s.disk.active && s.disk.isOpen && s.writeBack && !s.blocked && Stored(s.orig)
    requires Advance(PhaseOf(c, s.disk.log), RequestWrite(s.cmdId)) == Talking(s.cmdId)
    requires !PhaseOf(c, s.disk.log).Wrong?
    ensures var s' := RunCommand(c, s, cmd, out, o).0;
      && Orderly(c, s') && s'.writeBack && s'.orig == s.orig && s'.disk.active && s'.disk.isOpen
      && (RunCommand(c, s, cmd, out, o).1.Some? ==> !s'.blocked)
  {
    hide Request, Obfuscated, CrcOk, Advance, Faithful, Stored, PhaseOf;
    RequestFaithful(c, s.cmdId, cmd, out, s.disk.sector, o(s.disk.calls).ok);
    PhaseNext(c, s.disk.log, Write(RequestWrite(s.cmdId),
        Obfuscated(Request(c.version, s.cmdId, cmd, out)), s.disk.sector, true, o(s.disk.calls).ok));
  }

  lemma CloseOrderly(c: Config, s: Device, o: Oracle)
    requires Orderly(c, s)
    ensures Orderly(c, Close(s, o).0)
  {
    hide Stored, PhaseOf, Faithful;
    if s.writeBack {
      var w := Write(RestoreWrite, s.orig, s.disk.sector, s.disk.active, o(s.disk.calls).ok);
      PhaseNext(c, s.disk.log, w);
      assert Faithful(c, w) by {
        FaithfulRestore(c, w);
      }
    }
  }

  lemma FaithfulRestore(c: Config, w: Write)
    requires w.kind == RestoreWrite && w.active && Stored(w.data)
    ensures Faithful(c, w)
  {
    hide Stored;
  }

  lemma FaithfulWakeup(c: Config, k: nat, before: Sector, active: bool, ok: bool)
    requires k < 4 && (!c.force && !active ==> before == Zeros(SIZE))
    ensures Faithful(c, Write(WakeupWrite(k), Wakeup(k), before, active, ok))
  {
    hide Wakeup, ReadsAs, Stored;
  }

  lemma {:induction false} WakeUpOrderly(c: Config, d: Disk, k: nat, o: Oracle)
    requires k <= 4 && !PhaseOf(c, d.log).Wrong?
    requires if k == 0 then !c.force && !d.active ==> d.sector == Zeros(SIZE)
        else PhaseOf(c, d.log) == Waking(k) && d.active
    ensures var (d', ok) := WakeUp(d, k, o);
      && !PhaseOf(c, d'.log).Wrong? && d'.isOpen == d.isOpen
      && (ok ==> d'.active && PhaseOf(c, d'.log) == Waking(4))
    decreases 4 - k
  {
    hide PhaseOf, Wakeup, Faithful, Stored;
    if k < 4 {
      FaithfulWakeup(c, k, d.sector, d.active, o(d.calls).ok);
      PhaseNext(c, d.log, Write(WakeupWrite(k), Wakeup(k), d.sector, d.active, o(d.calls).ok));
      var (d1, ok) := RawWrite(d, WakeupWrite(k), Wakeup(k), o);
      if ok {
        WakeUpOrderly(c, d1, k + 1, o);
      }
    }
  }

  lemma ToRestoreStored(data: Sector)
    ensures Stored(ToRestore(data))
  {
    hide TypeOf;
  }

  lemma GreetOrderly(c: Config, s: Device, o: Oracle)
    requires s.disk.active && s.disk.isOpen && s.writeBack && !s.blocked && Stored(s.orig)
    requires PhaseOf(c, s.disk.log) == Waking(4) && s.cmdId == 1
    ensures Orderly(c, Greet(c, s, o).0)
  {
    hide RunCommand, Close, PhaseOf, Stored, Identify, Orderly;
    CommandOrderly(c, s, Identify(c), [], o);
    CloseOrderly(c, RunCommand(c, s, Identify(c), [], o).0, o);
  }

  lemma BeginOrderly(c: Config, s: Device, o: Oracle)
    requires !s.blocked && !s.writeBack && s.disk.isOpen && !PhaseOf(c, s.disk.log).Wrong?
    requires s.disk.active || s.disk.sector == s.orig
    ensures Orderly(c, Begin(c, s, o).0)
  {
    hide PhaseOf, Stored, WakeUp, Greet, ToRestore;
    if s.orig == Zeros(SIZE) || c.force {
      WakeUpOrderly(c, s.disk, 0, o);
      ToRestoreStored(s.orig);
      var (d, ok) := WakeUp(s.disk, 0, o);
      if ok {
        GreetOrderly(c, s.(orig := ToRestore(s.orig), disk := d, writeBack := true, cmdId := 1), o);
      }
    }
  }

  lemma OpenOrderly(c: Config, s: Device, o: Oracle)
    requires Orderly(c, s)
    ensures Orderly(c, Open(c, s, o).0)
  {
    hide PhaseOf, Stored, Begin;
    var d1 := TunnelOpen(s.disk, o).0;
    var d2 := CheckSize(d1, o).0;
    var (d3, got, data) := RawRead(d2, o);
    if !s.blocked && d1.isOpen && got {
      BeginOrderly(c, s.(writeBack := false, orig := data, disk := d3), o);
    }
  }

  lemma PassOrderly(c: Config, s: Device, cmd: AtaCmd, o: Oracle)
    requires Orderly(c, s)
    ensures Orderly(c, Pass(c, s, cmd, o).0)
  {
    hide PhaseOf, Stored, RunCommand, PassCommand, Delivered, SupportedBy;
    if s.disk.isOpen && !s.blocked && cmd.accepted && !SupportedBy(cmd.regs).No? {
      CommandOrderly(c, s, PassCommand(c, cmd), if cmd.direction.DataOut? then cmd.buffer else [], o);
    }
  }

  // ---------------------------------------------------------------------
  // The sector comes back

  /** The content `first` from before the first open, or zeros if that was a
      leftover of the protocol and the user has forced its use. */
  predicate Kept(c: Config, first: Sector, x: Sector) {
    x == first || (c.force && first != Zeros(SIZE) && TypeOf(first) != Foreign && x == Zeros(SIZE))
  }

  ghost predicate Intact(c: Config, first: Sector, d: Disk) { !d.active && Kept(c, first, d.sector) }

  ghost predicate Safe(c: Config, first: Sector, s: Device) {
    && (s.writeBack ==> s.disk.isOpen && Stored(s.orig) && Kept(c, first, s.orig))
    && (!s.blocked && !s.writeBack ==> Intact(c, first, s.disk))
    && (s.disk.isOpen && !s.blocked ==> s.writeBack)
  }

  lemma CommandSafe(c: Config, first: Sector, s: Device, cmd: Command, out: seq<byte>, o: Oracle)
    requires Safe(c, first, s) && s.writeBack
    ensures var s' := RunCommand(c, s, cmd, out, o).0;
      && Safe(c, first, s') && s'.writeBack
      && (RunCommand(c, s, cmd, out, o).1.Some? && !s.blocked ==> !s'.blocked)
  {
    hide Request, Obfuscated, CrcOk, Stored, Kept;
  }

  /** A successful close puts the sector back, except after a failed wakeup. */
  lemma CloseSafe(c: Config, first: Sector, s: Device, o: Oracle)
    requires Safe(c, first, s)
    ensures var (s', ok) := Close(s, o);
      && Safe(c, first, s')
      && !s'.disk.isOpen && !s'.writeBack
      && (ok && (s.writeBack || !s.blocked) ==> Intact(c, first, s'.disk))
      && (!s.writeBack ==> s'.disk.sector == s.disk.sector && s'.disk.active == s.disk.active)
  {
    hide Stored, Kept;
  }

  lemma ToRestoreKept(c: Config, first: Sector, x: Sector)
    requires Kept(c, first, x) && (x == Zeros(SIZE) || c.force)
    ensures Stored(ToRestore(x)) && Kept(c, first, ToRestore(x))
  {
    hide TypeOf;
  }

  lemma {:induction false} WakeUpKeepsOpen(d: Disk, k: nat, o: Oracle)
    requires k <= 4
    ensures WakeUp(d, k, o).0.isOpen == d.isOpen
    decreases 4 - k
  {
    hide Wakeup, Stored;
    if k < 4 {
      WakeUpKeepsOpen(RawWrite(d, WakeupWrite(k), Wakeup(k), o).0, k + 1, o);
    }
  }

  lemma GreetSafe(c: Config, first: Sector, s: Device, o: Oracle)
    requires Safe(c, first, s) && s.writeBack && !s.blocked
    ensures Safe(c, first, Greet(c, s, o).0)
  {
    hide RunCommand, Close, Identify, Safe;
    CommandSafe(c, first, s, Identify(c), [], o);
    CloseSafe(c, first, RunCommand(c, s, Identify(c), [], o).0, o);
  }

  lemma BeginSafe(c: Config, first: Sector, s: Device, o: Oracle)
    requires !s.writeBack && !s.blocked && s.disk.isOpen && Intact(c, first, s.disk) && s.orig == s.disk.sector
    ensures Safe(c, first, Begin(c, s, o).0)
  {
    hide WakeUp, Greet, ToRestore, Stored, Kept;
    if s.orig == Zeros(SIZE) || c.force {
      ToRestoreKept(c, first, s.orig);
      WakeUpKeepsOpen(s.disk, 0, o);
      var (d, ok) := WakeUp(s.disk, 0, o);
      if ok {
        GreetSafe(c, first, s.(orig := ToRestore(s.orig), disk := d, writeBack := true, cmdId := 1), o);
      }
    }
  }

  lemma OpenSafe(c: Config, first: Sector, s: Device, o: Oracle)
    requires Safe(c, first, s) && !s.writeBack
    ensures Safe(c, first, Open(c, s, o).0)
  {
    hide Begin, Kept, Stored;
    var d1 := TunnelOpen(s.disk, o).0;
    var d2 := CheckSize(d1, o).0;
    var (d3, got, data) := RawRead(d2, o);
    if !s.blocked && d1.isOpen && got {
      BeginSafe(c, first, s.(orig := data, disk := d3), o);
    }
  }

  lemma PassSafe(c: Config, first: Sector, s: Device, cmd: AtaCmd, o: Oracle)
    requires Safe(c, first, s)
    ensures Safe(c, first, Pass(c, s, cmd, o).0)
  {
    hide RunCommand, PassCommand, Delivered, SupportedBy, Kept, Stored;
    if s.disk.isOpen && !s.blocked {
      CommandSafe(c, first, s, PassCommand(c, cmd), if cmd.direction.DataOut? then cmd.buffer else [], o);
    }
  }

  // ---------------------------------------------------------------------
  // Whole runs

  datatype Op = OpenOp | PassOp(cmd: AtaCmd) | CloseOp

  function Apply(c: Config, s: Device, op: Op, o: Oracle): Device {
    match op
    case OpenOp => Open(c, s, o).0
    case PassOp(cmd) => Pass(c, s, cmd, o).0
    case CloseOp => Close(s, o).0
  }

  function Run(c: Config, s: Device, ops: seq<Op>, o: Oracle): Device {
    if ops == [] then s else Apply(c, Run(c, s, ops[..|ops| - 1], o), ops[|ops| - 1], o)
  }

  /** The callers open a device only while no write-back is due. */
  predicate Sparing(c: Config, s: Device, ops: seq<Op>, o: Oracle) {
    ops != [] ==>
      var before := ops[..|ops| - 1];
      && Sparing(c, s, before, o)
      && (ops[|ops| - 1].OpenOp? ==> !Run(c, s, before, o).writeBack)
  }

  /** The device as constructed, over a disk that nobody has touched yet. */
  predicate Fresh(s: Device, first: Sector) {
    && !s.blocked && !s.writeBack && s.cmdId == 0
    && !s.disk.isOpen && !s.disk.active && s.disk.sector == first && s.disk.log == []
  }

  lemma {:induction false} RunOrderly(c: Config, s: Device, first: Sector, ops: seq<Op>, o: Oracle)
    requires Fresh(s, first)
    ensures Orderly(c, Run(c, s, ops, o))
  {
    hide Open, Pass, Close;
    if ops != [] {
      var before, op := ops[..|ops| - 1], ops[|ops| - 1];
      RunOrderly(c, s, first, before, o);
      var t := Run(c, s, before, o);
      match op
      case OpenOp => OpenOrderly(c, t, o);
      case PassOp(cmd) => PassOrderly(c, t, cmd, o);
      case CloseOp => CloseOrderly(c, t, o);
    }
  }

  /** Whenever no session is active and the device is not blocked, the sector
      holds what it held before the first open. */
  lemma {:induction false} RunSafe(c: Config, s: Device, first: Sector, ops: seq<Op>, o: Oracle)
    requires Fresh(s, first) && Sparing(c, s, ops, o)
    ensures Safe(c, first, Run(c, s, ops, o))
  {
    hide Open, Pass, Close;
    if ops != [] {
      var before, op := ops[..|ops| - 1], ops[|ops| - 1];
      RunSafe(c, s, first, before, o);
      var t := Run(c, s, before, o);
      match op
      case OpenOp => OpenSafe(c, first, t, o);
      case PassOp(cmd) => PassSafe(c, first, t, cmd, o);
      case CloseOp => CloseSafe(c, first, t, o);
    }
  }

  /** The destructor writes back what `close` has not. */
  lemma DestroySafe(c: Config, first: Sector, s: Device, o: Oracle)
    requires Safe(c, first, s)
    ensures var (d, ok) := Destroy(s, o); ok && (s.writeBack || !s.blocked) ==> Intact(c, first, d)
  {
    hide Stored, Kept;
  }

  /** Opening keeps the sector safe and does not lose it whatever the disk does, exactly if
      no write-back is due, be the device blocked or not. */
  lemma OpenCondition(c: Config, first: Sector, s: Device)
    requires Orderly(c, s) && Safe(c, first, s)
    ensures (forall o: Oracle ::
               var t := Open(c, s, o).0;
               Safe(c, first, t) && (s.writeBack ==> t.writeBack || Intact(c, first, t.disk)))
            <==> !s.writeBack
  {
    hide PhaseOf, Stored, Kept, Begin;
    if !s.writeBack {
      forall o: Oracle
        ensures Safe(c, first, Open(c, s, o).0)
      {
        OpenSafe(c, first, s, o);
      }
    } else {
      var o: Oracle := n => Outcome(false, s.disk.sector);
      var t := Open(c, s, o).0;
      assert !t.writeBack && !Intact(c, first, t.disk);
    }
  }

  /** An answer to the identify command that `open` accepts */
  function Answer(c: Config): Sector {
    Sealed(Request(c.version, 1, Identify(c), [])[16 := if c.port == 0x20 then 0x21 else 0x20])
  }

  /** Everything succeeds but the second open of the device below. */
  function SecondOpenFails(c: Config): Oracle { n => Outcome(n != 9, Obfuscated(Answer(c))) }

  lemma SealedKeeps(s: Sector, i: nat)
    requires i < 508
    ensures Sealed(s)[i] == s[i]
  {
    hide Crc, LeWord;
  }

  /** Byte 16 of the request holds the port. */
  lemma PortByte(c: Config)
    ensures Request(c.version, 1, Identify(c), [])[16] == c.port
  {
    hide CrcOk, Request, Le32, FromLe32, RequestCode;
    RequestRead(c.version, 1, Identify(c), []);
    assert Identify(c)[8] == c.port;
  }

  lemma AnswerAccepted(c: Config)
    ensures var request, answer := Request(c.version, 1, Identify(c), []), Answer(c);
      && CrcOk(answer) && request[..8] == answer[..8] && request != answer && answer[16] >= 0x20
      && Obfuscated(Obfuscated(answer)) == answer
  {
    hide CrcOk, Obfuscated, Request, Sealed, Identify;
    var request := Request(c.version, 1, Identify(c), []);
    var changed: Sector := request[16 := if c.port == 0x20 then 0x21 else 0x20];
    SealedOk(changed);
    PortByte(c);
    forall i | 0 <= i < 508
      ensures Answer(c)[i] == changed[i]
    {
      SealedKeeps(changed, i);
    }
    assert Answer(c)[16] != request[16];
    ObfuscatedTwice(Answer(c));
  }

  lemma FourWakeups(d: Disk, o: Oracle)
    requires forall n :: d.calls <= n < d.calls + 4 ==> o(n).ok
    ensures var (d', ok) := WakeUp(d, 0, o);
      ok && d'.active && d'.isOpen == d.isOpen && d'.calls == d.calls + 4
  {
    hide Wakeup, Stored;
    var d1 := RawWrite(d, WakeupWrite(0), Wakeup(0), o).0;
    var d2 := RawWrite(d1, WakeupWrite(1), Wakeup(1), o).0;
    var d3 := RawWrite(d2, WakeupWrite(2), Wakeup(2), o).0;
    var d4 := RawWrite(d3, WakeupWrite(3), Wakeup(3), o).0;
    assert WakeUp(d4, 4, o) == (d4, true);
    assert WakeUp(d3, 3, o) == (d4, true);
    assert WakeUp(d2, 2, o) == (d4, true);
    assert WakeUp(d1, 1, o) == (d4, true);
  }

  lemma FirstOpen(c: Config, s: Device)
    requires Fresh(s, Zeros(SIZE)) && s.disk.calls == 0
    ensures var (t, ok) := Open(c, s, SecondOpenFails(c));
      && ok && !t.blocked && t.writeBack && t.orig == Zeros(SIZE)
      && t.disk.isOpen && t.disk.active && t.disk.calls == 9
  {
    hide Wakeup, Stored, Zeros, Answer, Request, Obfuscated, CrcOk, WakeUp, Identify, TypeOf;
    var o := SecondOpenFails(c);
    AnswerAccepted(c);
    var d3 := s.disk.(isOpen := true, calls := 3);
    FourWakeups(d3, o);
    var s1 := s.(orig := ToRestore(Zeros(SIZE)), disk := WakeUp(d3, 0, o).0, writeBack := true, cmdId := 1);
    assert Begin(c, s.(orig := Zeros(SIZE), disk := d3), o) == Greet(c, s1, o);
  }

  /** Opening an open device is such a case: a run that loses the sector although nothing
      has failed but the second open, and closing the device afterwards returns true. */
  lemma LostByReopen(c: Config, s: Device)
    requires Fresh(s, Zeros(SIZE)) && s.disk.calls == 0
    ensures var o := SecondOpenFails(c);
      var t, u := Run(c, s, [OpenOp], o), Run(c, s, [OpenOp, OpenOp], o);
      && Orderly(c, t) && Safe(c, Zeros(SIZE), t) && t.disk.isOpen && !t.blocked
      && !u.blocked && !u.writeBack && !Intact(c, Zeros(SIZE), u.disk)
      && Close(u, o).1 && !Intact(c, Zeros(SIZE), Close(u, o).0.disk)
  {
    hide Wakeup, Stored, Zeros, Begin, PhaseOf, Kept, Answer, Obfuscated;
    var o := SecondOpenFails(c);
    assert [OpenOp][..0] == [] && [OpenOp, OpenOp][..1] == [OpenOp];
    FirstOpen(c, s);
    assert Sparing(c, s, [OpenOp], o);
    RunOrderly(c, s, Zeros(SIZE), [OpenOp], o);
    RunSafe(c, s, Zeros(SIZE), [OpenOp], o);
    assert Run(c, s, [OpenOp], o) == Open(c, s, o).0;
    assert Run(c, s, [OpenOp, OpenOp], o) == Open(c, Run(c, s, [OpenOp], o), o).0;
  }

  /** A blocked device is no better: after a request that cannot be written a write-back is
      still due, and closing the device restores the sector.  Opening it first drops the
      write-back, and closing it then returns true with the sector lost. */
  lemma LostByBlockedReopen(c: Config, s: Device, cmd: AtaCmd)
    requires Fresh(s, Zeros(SIZE)) && s.disk.calls == 0 && cmd.accepted && !SupportedBy(cmd.regs).No?
    ensures var o := SecondOpenFails(c);
      var t, u := Run(c, s, [OpenOp, PassOp(cmd)], o), Run(c, s, [OpenOp, PassOp(cmd), OpenOp], o);
      && Orderly(c, t) && Safe(c, Zeros(SIZE), t) && t.blocked && t.writeBack
      && Close(t, o).1 && Intact(c, Zeros(SIZE), Close(t, o).0.disk)
      && u.blocked && !u.writeBack && Close(u, o).1 && !Intact(c, Zeros(SIZE), Close(u, o).0.disk)
  {
    hide Wakeup, Stored, Zeros, Begin, PhaseOf, Kept, Answer, Obfuscated, Request, SupportedBy, PassCommand, Delivered;
    var o := SecondOpenFails(c);
    var ops := [OpenOp, PassOp(cmd)];
    assert [OpenOp][..0] == [] && ops[..1] == [OpenOp] && (ops + [OpenOp])[..2] == ops;
    assert ops + [OpenOp] == [OpenOp, PassOp(cmd), OpenOp];
    FirstOpen(c, s);
    assert Sparing(c, s, [OpenOp], o) && Sparing(c, s, ops, o);
    RunOrderly(c, s, Zeros(SIZE), ops, o);
    RunSafe(c, s, Zeros(SIZE), ops, o);
    var t := Run(c, s, ops, o);
    assert t == Pass(c, Open(c, s, o).0, cmd, o).0;
    CloseSafe(c, Zeros(SIZE), t, o);
    assert Run(c, s, ops + [OpenOp], o) == Open(c, t, o).0;
  }

  // ---------------------------------------------------------------------
  // What the writes say about the sector

  /** Nothing has been written, or the last write was a restore that succeeded. */
  predicate AtRest(log: seq<Write>) {
    log == [] || (log[|log| - 1].kind.RestoreWrite? && log[|log| - 1].ok)
  }

  ghost predicate Settled(c: Config, first: Sector, d: Disk) {
    (d.active <==> !AtRest(d.log)) && (!d.active ==> Kept(c, first, d.sector))
  }

  lemma WriteSettled(c: Config, first: Sector, d: Disk, kind: Kind, data: Sector, o: Oracle)
    requires Settled(c, first, d)
    requires kind.RestoreWrite? ==> d.active && Stored(data) && Kept(c, first, data)
    ensures Settled(c, first, RawWrite(d, kind, data, o).0)
  {
    hide Stored, Kept;
  }

  lemma CommandSettled(c: Config, first: Sector, s: Device, cmd: Command, out: seq<byte>, o: Oracle)
    requires Settled(c, first, s.disk)
    ensures Settled(c, first, RunCommand(c, s, cmd, out, o).0.disk)
    ensures RunCommand(c, s, cmd, out, o).0.disk.active
  {
    hide Request, Obfuscated, CrcOk, Stored, Kept;
    WriteSettled(c, first, s.disk, RequestWrite(s.cmdId), Obfuscated(Request(c.version, s.cmdId, cmd, out)), o);
  }

  lemma CloseSettled(c: Config, first: Sector, s: Device, o: Oracle)
    requires Settled(c, first, s.disk)
    requires s.writeBack ==> s.disk.active && Stored(s.orig) && Kept(c, first, s.orig)
    ensures Settled(c, first, Close(s, o).0.disk)
  {
    hide Stored, Kept, AtRest;
    if s.writeBack {
      WriteSettled(c, first, s.disk, RestoreWrite, s.orig, o);
    }
  }

  lemma {:induction false} WakeUpSettled(c: Config, first: Sector, d: Disk, k: nat, o: Oracle)
    requires k <= 4 && Settled(c, first, d)
    ensures Settled(c, first, WakeUp(d, k, o).0)
    decreases 4 - k
  {
    hide Stored, Kept, Settled, Wakeup;
    if k < 4 {
      WriteSettled(c, first, d, WakeupWrite(k), Wakeup(k), o);
      WakeUpSettled(c, first, RawWrite(d, WakeupWrite(k), Wakeup(k), o).0, k + 1, o);
    }
  }

  lemma BeginSettled(c: Config, first: Sector, s: Device, o: Oracle)
    requires Settled(c, first, s.disk) && Kept(c, first, s.orig)
    ensures Settled(c, first, Begin(c, s, o).0.disk)
  {
    hide Stored, Kept, AtRest, WakeUp, RunCommand, Close, Identify, ToRestore;
    if s.orig == Zeros(SIZE) || c.force {
      var (d, ok) := WakeUp(s.disk, 0, o);
      WakeUpSettled(c, first, s.disk, 0, o);
      ToRestoreKept(c, first, s.orig);
      if ok {
        var s1 := s.(orig := ToRestore(s.orig), disk := d, writeBack := true, cmdId := 1);
        CommandSettled(c, first, s1, Identify(c), [], o);
        CommandKeeps(c, s1, Identify(c), [], o);
        CloseSettled(c, first, RunCommand(c, s1, Identify(c), [], o).0, o);
      }
    }
  }

  lemma CommandKeeps(c: Config, s: Device, cmd: Command, out: seq<byte>, o: Oracle)
    ensures var s' := RunCommand(c, s, cmd, out, o).0; s'.writeBack == s.writeBack && s'.orig == s.orig
  {
    hide Request, Obfuscated, CrcOk, Stored;
  }

  lemma OpenSettled(c: Config, first: Sector, s: Device, o: Oracle)
    requires Safe(c, first, s) && !s.writeBack && Settled(c, first, s.disk)
    ensures Settled(c, first, Open(c, s, o).0.disk)
  {
    hide Begin, Kept, Stored, AtRest;
    var d1 := TunnelOpen(s.disk, o).0;
    var d2 := CheckSize(d1, o).0;
    var (d3, got, data) := RawRead(d2, o);
    if !s.blocked && d1.isOpen && got {
      BeginSettled(c, first, s.(writeBack := false, orig := data, disk := d3), o);
    }
  }

  lemma PassSettled(c: Config, first: Sector, s: Device, cmd: AtaCmd, o: Oracle)
    requires Settled(c, first, s.disk)
    ensures Settled(c, first, Pass(c, s, cmd, o).0.disk)
  {
    hide RunCommand, PassCommand, Delivered, SupportedBy, Settled;
    if s.disk.isOpen && !s.blocked {
      CommandSettled(c, first, s, PassCommand(c, cmd), if cmd.direction.DataOut? then cmd.buffer else [], o);
    }
  }

  /** In every run the log of writes tells whether the sector is intact. */
  lemma {:induction false} RunSettled(c: Config, s: Device, first: Sector, ops: seq<Op>, o: Oracle)
    requires Fresh(s, first) && Sparing(c, s, ops, o)
    ensures Settled(c, first, Run(c, s, ops, o).disk)
  {
    hide Open, Pass, Close, AtRest, Kept, Stored;
    if ops == [] {
      FreshSettled(c, s, first);
    } else {
      var before, op := ops[..|ops| - 1], ops[|ops| - 1];
      RunSettled(c, s, first, before, o);
      RunSafe(c, s, first, before, o);
      RunOrderly(c, s, first, before, o);
      var t := Run(c, s, before, o);
      match op
      case OpenOp => OpenSettled(c, first, t, o);
      case PassOp(cmd) => PassSettled(c, first, t, cmd, o);
      case CloseOp => CloseSettled(c, first, t, o);
    }
  }

  lemma FreshSettled(c: Config, s: Device, first: Sector)
    requires Fresh(s, first)
    ensures Settled(c, first, s.disk)
  {
  }

  /** A close that returns true has put the sector back whatever the disk does, exactly if
      something was due, nothing has failed, nothing has been written yet, or the last write
      was a successful restore. */
  lemma CloseCondition(c: Config, s0: Device, first: Sector, ops: seq<Op>, o0: Oracle)
    requires Fresh(s0, first) && Sparing(c, s0, ops, o0)
    ensures var s := Run(c, s0, ops, o0);
      (forall o: Oracle :: Close(s, o).1 ==> Intact(c, first, Close(s, o).0.disk))
      <==> (s.writeBack || !s.blocked || AtRest(s.disk.log))
  {
    hide Stored, Kept, Run, AtRest, Sparing;
    var s := Run(c, s0, ops, o0);
    RunSafe(c, s0, first, ops, o0);
    RunSettled(c, s0, first, ops, o0);
    if s.writeBack || !s.blocked || AtRest(s.disk.log) {
      forall o: Oracle
        ensures Close(s, o).1 ==> Intact(c, first, Close(s, o).0.disk)
      {
        CloseSafe(c, first, s, o);
      }
    } else {
      var o: Oracle := n => Outcome(true, s.disk.sector);
      assert Close(s, o).1 && !Intact(c, first, Close(s, o).0.disk);
    }
  }

  /** The second wakeup sector cannot be written. */
  function SecondWakeupFails(left: Sector): Oracle { n => Outcome(n != 4, left) }

  /** A failed wakeup is such a case: the sector is lost, and closing the device
      afterwards returns true. */
  lemma LostByWakeup(c: Config, s: Device, left: Sector)
    requires Fresh(s, Zeros(SIZE)) && s.disk.calls == 0
    ensures var t := Run(c, s, [OpenOp], SecondWakeupFails(left));
      var (u, ok) := Close(t, SecondWakeupFails(left));
      t.blocked && ok && u.disk.active && u.disk.sector == left
  {
    hide Wakeup, Stored, Zeros;
    var o := SecondWakeupFails(left);
    assert [OpenOp][..0] == [];
    assert Run(c, s, [OpenOp], o) == Open(c, s, o).0;
    var d3 := s.disk.(isOpen := true, calls := 3);
    var d4 := RawWrite(d3, WakeupWrite(0), Wakeup(0), o).0;
    var d5 := RawWrite(d4, WakeupWrite(1), Wakeup(1), o).0;
    assert WakeUp(d4, 1, o) == (d5, false);
    assert WakeUp(d3, 0, o) == (d5, false);
  }

  // ---------------------------------------------------------------------
  // Nothing foreign is touched without force

  ghost predicate Untouched(s: Device, first: Sector) {
    !s.writeBack && (s.disk.isOpen ==> s.blocked) && !s.disk.active && s.disk.sector == first && s.disk.log == []
  }

  lemma OpenUntouched(c: Config, first: Sector, s: Device, o: Oracle)
    requires !c.force && first != Zeros(SIZE) && Untouched(s, first)
    ensures Untouched(Open(c, s, o).0, first)
  {
    hide WakeUp, Greet, ToRestore, Zeros;
  }

  lemma PassUntouched(c: Config, first: Sector, s: Device, cmd: AtaCmd, o: Oracle)
    requires Untouched(s, first)
    ensures Pass(c, s, cmd, o).0 == s
  {
    hide RunCommand, PassCommand, Delivered, SupportedBy;
  }

  lemma CloseUntouched(first: Sector, s: Device, o: Oracle)
    requires Untouched(s, first)
    ensures Untouched(Close(s, o).0, first)
  {
  }

  /** Without force a sector that is not zero filled is never written, in any run. */
  lemma {:induction false} NeverWritten(c: Config, s: Device, first: Sector, ops: seq<Op>, o: Oracle)
    requires Fresh(s, first) && !c.force && first != Zeros(SIZE)
    ensures Untouched(Run(c, s, ops, o), first)
  {
    hide Open, Pass, Close, Zeros;
    if ops != [] {
      var before, op := ops[..|ops| - 1], ops[|ops| - 1];
      NeverWritten(c, s, first, before, o);
      var t := Run(c, s, before, o);
      match op
      case OpenOp => OpenUntouched(c, first, t, o);
      case PassOp(cmd) => PassUntouched(c, first, t, cmd, o);
      case CloseOp => CloseUntouched(first, t, o);
    }
  }

  // ---------------------------------------------------------------------
  // A blocked device

  /** What a blocked device may still do: one restore, if one is due. */
  ghost predicate Silent(s: Device, t: Device) {
    && t.blocked && t.orig == s.orig
    && (t.writeBack ==> s.writeBack)
    && (t.disk.log == s.disk.log
        || (&& s.writeBack && !t.writeBack && |t.disk.log| == |s.disk.log| + 1
            && t.disk.log[..|s.disk.log|] == s.disk.log
            && t.disk.log[|s.disk.log|].kind == RestoreWrite && t.disk.log[|s.disk.log|].data == s.orig))
  }

  lemma BlockedStep(c: Config, s: Device, op: Op, o: Oracle)
    requires s.blocked
    ensures Silent(s, Apply(c, s, op, o))
  {
    hide Begin, RunCommand, PassCommand, Delivered, SupportedBy, Stored;
  }

  /** A device never leaves the blocked state, and writes nothing but one restore. */
  lemma {:induction false} BlockedRun(c: Config, s: Device, ops: seq<Op>, o: Oracle)
    requires s.blocked
    ensures Silent(s, Run(c, s, ops, o))
  {
    hide Apply;
    if ops != [] {
      var before, op := ops[..|ops| - 1], ops[|ops| - 1];
      BlockedRun(c, s, before, o);
      BlockedStep(c, Run(c, s, before, o), op, o);
    }
  }

  // ---------------------------------------------------------------------
  // Command ids

  lemma {:induction false} PhaseOfPrefix(c: Config, log: seq<Write>, n: nat)
    requires n <= |log| && !PhaseOf(c, log).Wrong?
    ensures !PhaseOf(c, log[..n]).Wrong?
    ensures forall i :: 0 <= i < n ==> Faithful(c, log[i])
    decreases |log|
  {
    hide Faithful, Advance;
    if n < |log| {
      assert log[..|log| - 1][..n] == log[..n];
      PhaseOfPrefix(c, log[..|log| - 1], n);
    } else if n > 0 {
      assert log[..n] == log;
      PhaseOfPrefix(c, log[..n - 1], n - 1);
    }
  }

  /** `m` requests follow the last wakeup sector at `start`. */
  predicate Session(log: seq<Write>, start: nat, m: nat) {
    && start + m < |log|
    && log[start].kind == WakeupWrite(3)
    && forall i :: start < i <= start + m ==> log[i].kind.RequestWrite?
  }

  lemma {:induction false} SessionPhase(c: Config, log: seq<Write>, start: nat, m: nat)
    requires Session(log, start, m) && m < ID_END && !PhaseOf(c, log).Wrong?
    ensures PhaseOf(c, log[..start + m + 1]) == if m == 0 then Waking(4) else Talking(m)
  {
    hide Faithful;
    var n := start + m;
    PhaseOfPrefix(c, log, n + 1);
    PhaseOfPrefix(c, log, n);
    PhaseNext(c, log[..n], log[n]);
    assert log[..n] + [log[n]] == log[..n + 1];
    if m > 0 {
      SessionPhase(c, log, start, m - 1);
    }
  }

  /** The requests of one session carry the ids 1, 2, 3, ... on the disk. */
  lemma ConsecutiveIds(c: Config, s: Device, first: Sector, ops: seq<Op>, o: Oracle, start: nat, m: nat)
    requires Fresh(s, first)
    requires var log := Run(c, s, ops, o).disk.log; Session(log, start, m)
    requires 0 < m < ID_END
    ensures var log := Run(c, s, ops, o).disk.log;
      && log[start + m].kind == RequestWrite(m)
      && ReadsAs(c, m, log[start + m].data)
  {
    hide Run, ReadsAs, PhaseOf, Session;
    RunOrderly(c, s, first, ops, o);
    IdInLog(c, Run(c, s, ops, o).disk.log, start, m);
  }

  lemma IdInLog(c: Config, log: seq<Write>, start: nat, m: nat)
    requires Session(log, start, m) && 0 < m < ID_END && !PhaseOf(c, log).Wrong?
    ensures log[start + m].kind == RequestWrite(m) && ReadsAs(c, m, log[start + m].data)
  {
    hide ReadsAs, Advance, PhaseOf, Stored, Wakeup;
    var n := start + m;
    SessionPhase(c, log, start, m);
    SessionPhase(c, log, start, m - 1);
    assert log[..n] + [log[n]] == log[..n + 1];
    PhaseNext(c, log[..n], log[n]);
    IdOf(PhaseOf(c, log[..n]), log[n].kind, m);
  }

  lemma IdOf(p: Phase, kind: Kind, m: Id)
    requires kind.RequestWrite? && Advance(p, kind) == Talking(m)
    ensures kind == RequestWrite(m)
  {
  }

  // ---------------------------------------------------------------------
  // What the controller is asked for

  /** In every run a command that reaches the controller asks it for exactly what the caller
      wants, under the next id; any other command changes nothing. */
  lemma RunAsks(c: Config, s: Device, ops: seq<Op>, o: Oracle, cmd: AtaCmd)
    ensures var t, u := Run(c, s, ops, o), Run(c, s, ops + [PassOp(cmd)], o);
      if R.Sent(t, cmd) then
        && R.Grown(u.disk.log, t.disk.log)
        && u.disk.log[|t.disk.log|].kind == RequestWrite(t.cmdId)
        && R.Asks(c, u.disk.log[|t.disk.log|].data, t.cmdId, cmd)
      else u == t
  {
    hide R.Asks, R.Sent, R.Valid, R.Holds, Pass, R.Grown;
    assert (ops + [PassOp(cmd)])[..|ops|] == ops;
    R.PassPasses(c, Run(c, s, ops, o), cmd, o);
  }

  /** The next open of a run succeeds exactly if the sector may be used, all calls succeed,
      and the controller answers with the name of a disk. */
  lemma RunOpens(c: Config, s: Device, ops: seq<Op>, o: Oracle)
    ensures var t := Run(c, s, ops, o); R.Opens(c, t, o, Run(c, s, ops + [OpenOp], o), Open(c, t, o).1)
  {
    hide Open, R.Opens;
    assert (ops + [OpenOp])[..|ops|] == ops;
    R.OpenOpens(c, Run(c, s, ops, o), o);
  }
}
