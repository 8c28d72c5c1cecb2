/**
  What the single requests for a selective self-test come to (lib/atacmds.cpp): statuses,
  sizes and sectors.
 */
module SelectiveRequests {
  import opened Words
  import opened Wrappers
  import opened SelectiveTest
  import opened SelectiveLog

  // ---------------------------------------------------------------------
  // Continue

  /** `-t select,cont` does what `redo` does if the host has aborted or interrupted the last
      test, and what `next` does otherwise. */
  lemma ContinueIs(start: u64, end: u64, onDrive: TestSpan, remembered: Option<TestSpan>, status: nat, n: u64)
    requires 0 < n <= MAX_SECTORS
    ensures ResolvedOne(SpanArg(Cont, start, end), onDrive, remembered, status, n)
         == ResolvedOne(SpanArg(if status == 1 || status == 2 then Redo else Next, start, end),
                        onDrive, remembered, status, n)
  {
    hide DividesByZero, NextSpan, RangeCheck;
  }

  /** The other modes ignore the status. */
  lemma StatusIgnored(arg: SpanArg, onDrive: TestSpan, remembered: Option<TestSpan>, s: nat, t: nat, n: u64)
    requires 0 < n <= MAX_SECTORS && arg.mode != Cont
    ensures ResolvedOne(arg, onDrive, remembered, s, n) == ResolvedOne(arg, onDrive, remembered, t, n)
  {
    hide DividesByZero, NextSpan, RangeCheck;
  }

  /** A continue request: the status of the test before it, and whether the drive has lost
      its log meanwhile */
  datatype Continue = Continue(status: nat, cleared: bool)

  function Requests(cs: seq<Continue>): (rs: seq<Request>)
    ensures |rs| == |cs| && forall i :: 0 <= i < |cs| ==> rs[i] == Request(Cont, cs[i].status, cs[i].cleared)
  {
    if cs == [] then [] else [Request(Cont, cs[0].status, cs[0].cleared)] + Requests(cs[1..])
  }

  /** The number of tests that the host has not aborted or interrupted */
  function Completed(cs: seq<Continue>): nat {
    if cs == [] then 0
    else (if cs[0].status == 1 || cs[0].status == 2 then 0 else 1) + Completed(cs[1..])
  }

  lemma {:induction false} CompletedMoves(cs: seq<Continue>)
    ensures Moves(Requests(cs)) == Completed(cs)
  {
    if cs != [] {
      CompletedMoves(cs[1..]);
      assert Requests(cs)[1..] == Requests(cs[1..]);
    }
  }

  /** Nothing but continue requests tests every sector, once as many tests have been
      completed as there are spans behind the first. */
  lemma ContinueCovers(n: u64, z: nat, cs: seq<Continue>, x: nat)
    requires 0 < n <= MAX_SECTORS && 0 < z <= n && (z >= 2 || n == 1)
    requires Completed(cs) >= CeilDiv(n, z) - 1 && x < n
    ensures TestedBy(TestSpan(0, z - 1), Requests(cs), n, x)
  {
    hide SelectiveTest.SpanAt;
    CompletedMoves(cs);
    FirstSpan(n, z);
    RunCovers(n, z, 0, Requests(cs), x);
  }

  /** An interrupted span is served again; otherwise the run moves on like `next`. */
  lemma ContinueServes(last: TestSpan, c: Continue, n: u64)
    requires 0 < n <= MAX_SECTORS && WellFormed(last, n) && Divisible(last, n)
    ensures c.status == 1 || c.status == 2 ==> Serve(last, Request(Cont, c.status, c.cleared), n) == Some(last)
    ensures c.status != 1 && c.status != 2 ==>
              Serve(last, Request(Cont, c.status, c.cleared), n) == Serve(last, Request(Next, 0, false), n)
  {
    hide DividesByZero, NextSpan;
    ServeCases(last, Request(Cont, c.status, c.cleared), n);
    ServeCases(last, Request(Next, 0, false), n);
  }

  // ---------------------------------------------------------------------
  // The sectors of one request

  /** The old span: that of the drive, or the remembered one if the drive has cleared it */
  function Old(onDrive: TestSpan, remembered: Option<TestSpan>): TestSpan {
    if onDrive == TestSpan(0, 0) && remembered.Some? then remembered.value else onDrive
  }

  /** The request is accepted, and it selects exactly the sectors from `from` up to `to`
      that are on the disk. */
  ghost predicate SelectsSectors(r: Resolution, mode: Mode, from: int, to: int, n: u64) {
    && r.Ready? && r.arg.mode == mode
    && forall x: nat :: Tests(TestSpan(r.arg.start, r.arg.end), x) <==> from <= x < to && x < n
  }

  /** START-END is refused exactly if it is empty or behind the disk. */
  lemma RangeSectors(start: u64, end: u64, onDrive: TestSpan, remembered: Option<TestSpan>, status: nat, n: u64)
    requires 0 < n <= MAX_SECTORS
    ensures var r := ResolvedOne(SpanArg(Range, start, end), onDrive, remembered, status, n);
      if start <= end && start < n then SelectsSectors(r, Range, start, end + 1, n) else r == Invalid
  {
  }

  lemma UnknownRefused(arg: SpanArg, onDrive: TestSpan, remembered: Option<TestSpan>, status: nat, n: u64)
    requires 0 < n <= MAX_SECTORS && arg.mode == Unknown
    ensures ResolvedOne(arg, onDrive, remembered, status, n) == Invalid
  {
  }

  /** redo: the old span again, up to the end of the disk */
  lemma RedoSectors(onDrive: TestSpan, remembered: Option<TestSpan>, status: nat, n: u64)
    requires 0 < n <= MAX_SECTORS
    ensures var r, old' := ResolvedOne(SpanArg(Redo, 0, 0), onDrive, remembered, status, n), Old(onDrive, remembered);
      if old'.start <= old'.end && old'.start < n then SelectsSectors(r, Redo, old'.start, old'.end + 1, n)
      else r == Invalid
  {
  }

  /** redo+SIZE: SIZE sectors from the old start on */
  lemma RedoSizeSectors(size: u64, onDrive: TestSpan, remembered: Option<TestSpan>, status: nat, n: u64)
    requires 0 < n <= MAX_SECTORS && size > 0
    ensures var r := ResolvedOne(SpanArg(Redo, 0, size), onDrive, remembered, status, n);
      var old' := Old(onDrive, remembered);
      if old'.start < n && old'.start + size <= U64 then SelectsSectors(r, Redo, old'.start, old'.start + size, n)
      else r == Invalid
  {
  }

  /** Where the span after `old'` starts: behind it, or at LBA 0 behind the end of the disk */
  function Behind(old': TestSpan, n: u64): nat { if old'.end + 1 < n then old'.end + 1 else 0 }

  /** next+SIZE: SIZE sectors behind the old span; an old span that ends at LBA 0 counts as
      empty and leads to LBA 0 alone. */
  lemma NextSizeSectors(size: u64, onDrive: TestSpan, remembered: Option<TestSpan>, status: nat, n: u64)
    requires 0 < n <= MAX_SECTORS && size > 0
    ensures var r := ResolvedOne(SpanArg(Next, 0, size), onDrive, remembered, status, n);
      var old' := Old(onDrive, remembered);
      if old'.end == 0 then SelectsSectors(r, Next, 0, 1, n)
      else if Behind(old', n) + size <= U64 then SelectsSectors(r, Next, Behind(old', n), Behind(old', n) + size, n)
      else r == Invalid
  {
    hide Adjusted, SelectsSectors, RangeCheck;
    var old' := Old(onDrive, remembered);
    CheckedSectors(Next, 0, 0, n);
    CheckedSectors(Next, Behind(old', n), SelectiveTest.Wrap(size - 1 + Behind(old', n)), n);
  }

  lemma CheckedSectors(mode: Mode, start: u64, end: u64, n: u64)
    requires n > 0
    ensures var r := FromOption(RangeCheck(mode, start, end, n));
      if start <= end && start < n then SelectsSectors(r, mode, start, end + 1, n) else r == Invalid
  {
  }

  /** next: as many sectors behind the old span as it has itself, if the disk has so many;
      otherwise the last ones of the disk, as many as the adjusted size. */
  lemma NextSectors(onDrive: TestSpan, remembered: Option<TestSpan>, status: nat, n: u64)
    requires 0 < n <= MAX_SECTORS && WellFormed(Old(onDrive, remembered), n) && Old(onDrive, remembered).end > 0
    ensures var r, old' := ResolvedOne(SpanArg(Next, 0, 0), onDrive, remembered, status, n), Old(onDrive, remembered);
      var size := old'.end - old'.start + 1;
      if Behind(old', n) + size <= n then SelectsSectors(r, Next, Behind(old', n), Behind(old', n) + size, n)
      else SelectsSectors(r, Next, n - Adjusted(n, size), n, n)
  {
    hide Adjusted, SelectsSectors, RangeCheck;
    var old' := Old(onDrive, remembered);
    var size := old'.end - old'.start + 1;
    AdjustedSize(n, size);
    NextCases(old', n, Adjusted(n, size));
    DivisibleSafe(old', n);
    SectorsOf(SpanArg(Next, Behind(old', n), Behind(old', n) + size - 1), n);
    SectorsOf(SpanArg(Next, n - Adjusted(n, size), n - 1), n);
  }

  lemma SectorsOf(arg: SpanArg, n: u64)
    requires n > 0
    ensures arg.start <= arg.end < n ==> SelectsSectors(Ready(arg), arg.mode, arg.start, arg.end + 1, n)
  {
  }
}
