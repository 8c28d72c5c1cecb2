/** The flag word of the selective self-test log. */
module SelectiveFlags {
  // Bits: 0x0002 scan after the test, 0x0008 scan pending, 0x0010 scan active

  function NewFlags(flags: bv16, scanAfterSelect: int): bv16 {
    var f := if scanAfterSelect == 1 then flags & 0xfffd
             else if scanAfterSelect == 2 then flags | 0x0002 else flags;
    f & 0xffe7
  }

  /** The flag word: the scan choice of the caller, active and pending cleared. */
  method FinishFlags(flags: bv16, scanAfterSelect: int) returns (f: bv16)
    ensures f == NewFlags(flags, scanAfterSelect)
  {
    f := flags;
    if scanAfterSelect == 1 {
      f := f & !0x0002;
    } else if scanAfterSelect == 2 {
      f := f | 0x0002;
    }
    f := f & !0x0010;
    f := f & !0x0008;
  }

  /** Only the three documented bits change. */
  lemma FlagBits(flags: bv16, scanAfterSelect: int)
    ensures var f := NewFlags(flags, scanAfterSelect);
      && f & 0x0018 == 0
      && f & 0xffe5 == flags & 0xffe5
      && f & 0x0002 == if scanAfterSelect == 1 then 0 else if scanAfterSelect == 2 then 0x0002 else flags & 0x0002
  {
  }
}

/**
  Preparing the selective self-test log (lib/atacmds.cpp): reading the log of the
  drive, resolving every span argument in place, and writing the log back with a
  valid checksum.
 */
module SelectiveLog {
  import opened Bytes
  import opened Words
  import opened Wrappers
  import opened SelectiveFlags
  import opened SelectiveTest

  type u16 = x: int | 0 <= x < 0x1_0000

  const MAX_SPANS := 5
  /** `ata_selective_self_test_log`: one 512-byte sector. */
  datatype Log = Log(
    version: u16, spans: seq<TestSpan>, reserved1: seq<byte>, vendor1: seq<byte>, currentLba: u64,
    currentSpan: u16, flags: bv16, vendor2: seq<byte>, pendingTime: u16, reserved2: byte, checksum: byte)
  {
    ghost predicate Valid() {
      |spans| == MAX_SPANS && |reserved1| == 256 && |vendor1| == 154 && |vendor2| == 4
    }

    function Bytes(): (b: seq<byte>)
      requires Valid()
      ensures |b| == 512 && b[511] == checksum
    {
      SpanBytesLength(spans);
      LittleEndian(version, 2) + SpanBytes(spans) + reserved1 + vendor1 + LittleEndian(currentLba, 8)
      + LittleEndian(currentSpan, 2) + LittleEndian(flags as int, 2) + vendor2
      + LittleEndian(pendingTime, 2) + [reserved2] + [checksum]
    }
  }

  function LittleEndian(x: nat, size: nat): (b: seq<byte>)
    ensures |b| == size
  {
    if size == 0 then [] else [x % 256] + LittleEndian(x / 256, size - 1)
  }

  function SpanBytes(spans: seq<TestSpan>): seq<byte> {
    if spans == [] then []
    else LittleEndian(spans[0].start, 8) + LittleEndian(spans[0].end, 8) + SpanBytes(spans[1..])
  }

  lemma {:induction false} SpanBytesLength(spans: seq<TestSpan>)
    ensures |SpanBytes(spans)| == 16 * |spans|
  {
    if spans != [] {
      SpanBytesLength(spans[1..]);
    }
  }

  // ---------------------------------------------------------------------
  // Checksums

  function Sum(b: seq<byte>): nat {
    if b == [] then 0 else Sum(b[..|b| - 1]) + b[|b| - 1]
  }

  /** Zero for an intact sector: the sum of all bytes, modulo 256. */
  method AtaChecksum(b: seq<byte>) returns (sum: byte)
    requires |b| == 512
    ensures sum == Sum(b) % 256
  {
    sum := 0;
    for i := 0 to 512
      invariant sum == Sum(b[..i]) % 256
    {
      assert b[..i + 1][..i] == b[..i];
      sum := (sum + b[i]) % 256;
    }
    assert b[..512] == b;
  }

  /** The two's complement of the sum of the other bytes is the only checksum
      byte that makes the sector sum to zero. */
  lemma ChecksumByte(log: Log, sum: nat, c: byte)
    requires log.Valid() && sum == Sum(log.(checksum := 0).Bytes())
    ensures Sum(log.(checksum := c).Bytes()) % 256 == 0 <==> c == (255 - sum % 256 + 1) % 256
  {
    var zero, b := log.(checksum := 0).Bytes(), log.(checksum := c).Bytes();
    assert zero[..511] == b[..511];
    assert Sum(b) == sum + c;
  }

  // ---------------------------------------------------------------------
  // The request

  /** The drive: its log sector and whether the next commands succeed. */
  class AtaDevice {
    var log: Log
    var readOk: bool
    var writeOk: bool

    constructor (log: Log, readOk: bool, writeOk: bool)
      ensures this.log == log && this.readOk == readOk && this.writeOk == writeOk
    {
      this.log, this.readOk, this.writeOk := log, readOk, writeOk;
    }

    method WriteLog(data: Log) returns (ok: bool)
      modifies this`log
      ensures ok == writeOk && log == if ok then data else old(log)
    {
      ok := writeOk;
      if ok {
        log := data;
      }
    }
  }

  /** `ata_selective_selftest_args` */
  class SelftestArgs {
    const span: array<SpanArg>
    var numSpans: nat
    var pendingTime: int
    var scanAfterSelect: int

    ghost predicate Valid()
      reads this
    {
      span.Length == MAX_SPANS && numSpans <= MAX_SPANS
    }

    constructor ()
      ensures Valid() && fresh(span) && numSpans == 0 && pendingTime == 0 && scanAfterSelect == 0
    {
      span := new SpanArg[MAX_SPANS](_ => SpanArg(Range, 0, 0));
      numSpans, pendingTime, scanAfterSelect := 0, 0, 0;
    }
  }

  function Remembered(prev: Option<seq<TestSpan>>, i: nat): Option<TestSpan> {
    if prev.Some? && i < |prev.value| then Some(prev.value[i]) else None
  }

  /** What becomes of one argument; `ZeroDivisor`: the size adjustment divides by zero. */
  datatype Resolution = Ready(arg: SpanArg) | Invalid | ZeroDivisor

  function FromOption(r: Option<SpanArg>): Resolution { if r.Some? then Ready(r.value) else Invalid }

  ghost function Resolved(a: seq<SpanArg>, log: Log, prev: Option<seq<TestSpan>>, status: nat, n: u64, i: nat)
    : Resolution
    requires 0 < n <= MAX_SECTORS && log.Valid() && i < |a| <= MAX_SPANS
  {
    ResolvedOne(a[i], log.spans[i], Remembered(prev, i), status, n)
  }

  ghost function ResolvedOne(arg: SpanArg, onDrive: TestSpan, remembered: Option<TestSpan>, status: nat, n: u64)
    : Resolution
    requires 0 < n <= MAX_SECTORS
  {
    if Crashes(arg, onDrive, remembered, status, n) then ZeroDivisor
    else FromOption(Prepare(arg, onDrive, remembered, status, n))
  }

  /** The first argument that cannot be resolved, or the number of arguments. */
  ghost function FirstFailure(a: seq<SpanArg>, log: Log, prev: Option<seq<TestSpan>>, status: nat, n: u64): (k: nat)
    requires 0 < n <= MAX_SECTORS && log.Valid() && |a| <= MAX_SPANS
    ensures k <= |a|
    ensures forall i: nat :: i < k ==> Resolved(a, log, prev, status, n, i).Ready?
    ensures k < |a| ==> !Resolved(a, log, prev, status, n, k).Ready?
  {
    if a == [] then 0
    else
      var k := FirstFailure(a[..|a| - 1], log, prev, status, n);
      assert forall i: nat :: i < |a| - 1 ==>
        Resolved(a[..|a| - 1], log, prev, status, n, i) == Resolved(a, log, prev, status, n, i);
      if k < |a| - 1 then k else if Resolved(a, log, prev, status, n, k).Ready? then k + 1 else k
  }

  predicate InProgress(log: Log, status: nat) { 0 < log.currentSpan < 6 && status == 0xf }

  /** The log written for the resolved arguments `a`. */
  ghost predicate Written(was: Log, now: Log, a: seq<SpanArg>, pendingTime: int, scanAfterSelect: int) {
    && now.Valid()
    && (forall i :: 0 <= i < MAX_SPANS ==>
          now.spans[i] == if i < |a| then TestSpan(a[i].start, a[i].end) else EMPTY)
    && now.version == 1 && now.currentLba == 0 && now.currentSpan == 0
    && now.flags == NewFlags(was.flags, scanAfterSelect)
    && now.pendingTime == (if pendingTime != 0 then (pendingTime - 1) % 0x1_0000 else was.pendingTime)
    && now.reserved1 == was.reserved1 && now.vendor1 == was.vendor1
    && now.vendor2 == was.vendor2 && now.reserved2 == was.reserved2
    && Sum(now.Bytes()) % 256 == 0
  }

  method ResolveNext(prev: TestSpan, size: u64, n: u64) returns (r: Resolution)
    requires 0 < n <= MAX_SECTORS
    ensures r == if DividesByZero(prev, size, n) then ZeroDivisor else FromOption(NextSpan(prev, size, n))
  {
    hide RangeCheck, FromOption, Adjusted;
    if prev.end == 0 {
      r := FromOption(RangeCheck(Next, 0, 0, n));
    } else {
      var start: u64 := Wrap(prev.end + 1);
      if start >= n {
        start := 0;
      }
      var end;
      if size > 0 {
        end := Wrap(size - 1 + start);
      } else {
        var oldSize := SizeOf(prev);
        end := Wrap(start + oldSize - 1);
        if end >= n {
          DivisionByZero(prev, size, n);
          var newSize := AdjustSize(n, oldSize);
          if newSize.None? {
            return ZeroDivisor;
          }
          start, end := Wrap(n - newSize.value), n - 1;
        }
      }
      r := FromOption(RangeCheck(Next, start, end, n));
    }
  }

  /** One pass of the mode switch and the range check. */
  method ResolveSpan(arg: SpanArg, prev: TestSpan, n: u64) returns (r: Resolution)
    requires 0 < n <= MAX_SECTORS && arg.mode != Cont
    ensures r == ResolvedOne(arg, prev, None, 0, n)
  {
    var start, end := arg.start, arg.end;
    match arg.mode {
      case Range =>
      case Redo =>
        start := prev.start;
        end := if end > 0 then Wrap(end - 1 + start) else prev.end;
      case Next =>
        r := ResolveNext(prev, end, n);
        return;
      case Cont | Unknown =>
        return Invalid;
    }
    if start < n <= end {
      end := n - 1;
    }
    r := if start <= end < n then Ready(SpanArg(arg.mode, start, end)) else Invalid;
  }

  /** The two ceiling divisions of the size adjustment; `None`: a divisor is zero. */
  method AdjustSize(n: u64, oldSize: u64) returns (newSize: Option<nat>)
    requires 0 < n <= MAX_SECTORS
    ensures newSize.Some? <==> 1 <= oldSize <= U64 - n
    ensures newSize.Some? ==> newSize.value == Adjusted(n, oldSize) && newSize.value <= oldSize
  {
    if oldSize == 0 {
      return None;
    }
    var spans := Wrap(n + oldSize - 1) / oldSize;
    SmallQuotient(Wrap(n + oldSize - 1), oldSize);
    if spans == 0 {
      return None;
    }
    QuotientIsCeilDiv(n, oldSize);
    AdjustedSize(n, oldSize);
    CeilDivUnique(n, oldSize, spans);
    SpanCountPositive(n, oldSize);
    QuotientIsCeilDiv(n, spans);
    newSize := Some((n + spans - 1) / spans);
    CeilDivUnique(n, spans, newSize.value);
  }

  method SetChecksum(log: Log) returns (data: Log)
    requires log.Valid()
    ensures data.Valid() && data == log.(checksum := data.checksum)
    ensures Sum(data.Bytes()) % 256 == 0
  {
    data := log.(checksum := 0);
    var bytes := data.Bytes();
    var sum: byte := 0;
    for i := 0 to 512
      invariant sum == Sum(bytes[..i]) % 256
    {
      assert bytes[..i + 1][..i] == bytes[..i];
      sum := (sum + bytes[i]) % 256;
    }
    assert bytes[..512] == bytes;
    ChecksumByte(data, Sum(bytes), (255 - sum + 1) % 256);
    data := data.(checksum := (255 - sum + 1) % 256);
  }

  /** Sets the spans for testing, the flags and the checksum. */
  method FinishLog(log: Log, args: SelftestArgs) returns (data: Log)
    requires log.Valid() && args.Valid() && log.version == 1
    ensures Written(log, data, args.span[..args.numSpans], args.pendingTime, args.scanAfterSelect)
  {
    data := log.(spans := seq(MAX_SPANS, _ => EMPTY));
    var i := 0;
    while i < args.numSpans
      invariant 0 <= i <= args.numSpans
      invariant |data.spans| == MAX_SPANS && data == log.(spans := data.spans)
      invariant forall j :: 0 <= j < MAX_SPANS ==>
        data.spans[j] == if j < i then TestSpan(args.span[j].start, args.span[j].end) else EMPTY
    {
      data := data.(spans := data.spans[i := TestSpan(args.span[i].start, args.span[i].end)]);
      i := i + 1;
    }
    data := data.(currentLba := 0, currentSpan := 0);
    var flags := FinishFlags(data.flags, args.scanAfterSelect);
    data := data.(flags := flags);
    if args.pendingTime != 0 {
      data := data.(pendingTime := (args.pendingTime - 1) % 0x1_0000);
    }
    data := SetChecksum(data);
  }

  /** One argument: choose redo or next, replace a cleared old span, resolve. */
  method ResolveOne(arg: SpanArg, onDrive: TestSpan, remembered: Option<TestSpan>, status: nat, n: u64)
    returns (r: Resolution)
    requires 0 < n <= MAX_SECTORS
    ensures r == ResolvedOne(arg, onDrive, remembered, status, n)
  {
    hide DividesByZero, NextSpan, RangeCheck, FromOption;
    var mode, span := arg.mode, onDrive;
    if mode == Cont {
      mode := if status == 1 || status == 2 then Redo else Next;
    }
    if (mode == Redo || mode == Next) && remembered.Some? && span == EMPTY {
      span := remembered.value;
    }
    r := ResolveSpan(arg.(mode := mode), span, n);
  }

  /** Resolves the arguments in place, up to the first that fails. */
  method ResolveSpans(args: SelftestArgs, log: Log, prev: Option<seq<TestSpan>>, status: nat, n: u64)
    returns (failure: Option<Resolution>)
    requires 0 < n <= MAX_SECTORS && args.Valid() && log.Valid()
    modifies args.span
    ensures var a := old(args.span[..args.numSpans]);
      var k := FirstFailure(a, log, prev, status, n);
      && failure == (if k == |a| then None else Some(Resolved(a, log, prev, status, n, k)))
      && (forall i: nat :: i < k ==> Ready(args.span[i]) == Resolved(a, log, prev, status, n, i))
      && (forall i: nat :: k <= i < MAX_SPANS ==> args.span[i] == old(args.span[i]))
  {
    hide FirstFailure, ResolvedOne, Remembered;
    ghost var a := args.span[..args.numSpans];
    ghost var k := FirstFailure(a, log, prev, status, n);
    var i := 0;
    while i < args.numSpans
      invariant 0 <= i <= k
      invariant forall j: nat :: j < i ==> Ready(args.span[j]) == Resolved(a, log, prev, status, n, j)
      invariant forall j: nat :: i <= j < MAX_SPANS ==> args.span[j] == old(args.span[j])
    {
      var resolved := ResolveOne(args.span[i], log.spans[i], Remembered(prev, i), status, n);
      assert resolved == Resolved(a, log, prev, status, n, i);
      if !resolved.Ready? {
        return Some(resolved);
      }
      args.span[i] := resolved.arg;
      i := i + 1;
    }
    failure := None;
  }

  /** Returns 1 on success, 0 if a test is already running, or -1 on error; no value if
      the size adjustment divides by zero. */
  method PrepareSelectiveSelfTest(device: AtaDevice, args: SelftestArgs, status: nat, n: u64,
                                  prev: Option<seq<TestSpan>>) returns (rc: Option<int>)
    requires args.Valid() && device.log.Valid() && n <= MAX_SECTORS
    modifies device`log, args.span
    ensures args.Valid()
    ensures n == 0 || !device.readOk ==> rc == Some(-1) && args.span[..] == old(args.span[..])
    ensures n > 0 && device.readOk && InProgress(old(device.log), status) ==>
      rc == Some(0) && args.span[..] == old(args.span[..])
    ensures n > 0 && device.readOk && !InProgress(old(device.log), status) ==>
      var a := old(args.span[..args.numSpans]);
      var k := FirstFailure(a, old(device.log), prev, status, n);
      && (forall i: nat :: i < k ==> Ready(args.span[i]) == Resolved(a, old(device.log), prev, status, n, i))
      && (forall i: nat :: k <= i < MAX_SPANS ==> args.span[i] == old(args.span[i]))
      && rc == (if k == |a| && device.writeOk then Some(1)
                else if k < |a| && Resolved(a, old(device.log), prev, status, n, k).ZeroDivisor? then None
                else Some(-1))
    ensures rc == Some(0) <==> n > 0 && device.readOk && 0 < old(device.log).currentSpan < 6 && status == 15
    ensures rc == Some(1) ==>
      Written(old(device.log), device.log, args.span[..args.numSpans], args.pendingTime, args.scanAfterSelect)
    ensures rc != Some(1) ==> device.log == old(device.log)
  {
    if n == 0 || !device.readOk {
      return Some(-1);
    }
    var data := device.log;
    if InProgress(data, status) {
      return Some(0);
    }
    var failure := ResolveSpans(args, data, prev, status, n);
    if failure.Some? {
      return if failure.value.ZeroDivisor? then None else Some(-1);
    }
    data := FinishLog(data.(version := 1), args);
    var ok := device.WriteLog(data);
    return Some(if ok then 1 else -1);
  }
}
