/**
  Selective self-test spans (lib/atacmds.cpp, `ata_prepare_selective_self_test`):
  the span arithmetic of one request, and what a whole run of redo, next and
  continue requests does to the disk.
 */
module SelectiveTest {
  import opened Words
  import opened Wrappers

  /** Disk sizes stay below this; twice a size fits into 64 bits. */
  const MAX_SECTORS: int := 0x8000_0000_0000_0000

  // ---------------------------------------------------------------------
  // One span of one request

  datatype Mode = Range | Redo | Next | Cont | Unknown

  /** A span argument of the caller (`span_args`). */
  datatype SpanArg = SpanArg(mode: Mode, start: u64, end: u64)

  /** A span as stored in the log on the drive (`test_span`). */
  datatype TestSpan = TestSpan(start: u64, end: u64)

  const EMPTY := TestSpan(0, 0)

  /** The 64-bit result of one addition or subtraction. */
  function Wrap(x: int): (w: u64)
    requires -U64 <= x < 2 * U64
    ensures w == x % U64
  {
    if x < 0 then x + U64 else if x < U64 then x else x - U64
  }

  /** The size of a stored span, in the wrapping arithmetic of the code. */
  function SizeOf(s: TestSpan): u64 { Wrap(s.end - s.start + 1) }

  /** The size adjustment divides by the old size and by the resulting number of
      spans; neither division is by zero when the size plus the disk size fits. */
  predicate Divisible(s: TestSpan, n: u64) { s.end == 0 || 1 <= SizeOf(s) <= U64 - n }

  /** Where the span after `prev` starts */
  function NextStart(prev: TestSpan, n: u64): u64 { if Wrap(prev.end + 1) >= n then 0 else Wrap(prev.end + 1) }

  /** The size adjustment is reached, and it divides by zero. */
  predicate DividesByZero(prev: TestSpan, size: u64, n: u64) {
    && prev.end != 0 && size == 0 && Wrap(NextStart(prev, n) + SizeOf(prev) - 1) >= n
    && (SizeOf(prev) == 0 || Wrap(n + SizeOf(prev) - 1) / SizeOf(prev) == 0)
  }

  lemma SmallQuotient(x: nat, d: nat)
    requires d > 0
    ensures x / d == 0 <==> x < d
  {
    assert x == d * (x / d) + x % d;
  }

  lemma DivisionByZero(prev: TestSpan, size: u64, n: u64)
    requires 0 < n <= MAX_SECTORS && prev.end != 0 && size == 0
    requires Wrap(NextStart(prev, n) + SizeOf(prev) - 1) >= n
    ensures DividesByZero(prev, size, n) <==> !Divisible(prev, n)
  {
    if SizeOf(prev) > 0 {
      SmallQuotient(Wrap(n + SizeOf(prev) - 1), SizeOf(prev));
    }
  }

  /** The stored spans for which a request for the next span divides by zero: spans of
      almost 2^64 sectors, and reversed spans whose ends are less than a disk apart. */
  lemma DivisionCondition(prev: TestSpan, size: u64, n: u64)
    requires 0 < n <= MAX_SECTORS
    ensures DividesByZero(prev, size, n) <==>
            && size == 0 && prev.end != 0
            && if prev.start <= prev.end then prev.end - prev.start + 1 > U64 - n
               else prev.start - prev.end - 1 < n && (prev.end + 1 >= n || 2 * (prev.end + 1) <= prev.start)
  {
    if size == 0 && prev.end != 0 && Wrap(NextStart(prev, n) + SizeOf(prev) - 1) >= n {
      DivisionByZero(prev, size, n);
    }
  }

  /** The next span after 1000-999 on a disk of 1000 sectors */
  lemma DivisionExample()
    ensures DividesByZero(TestSpan(1000, 999), 0, 1000)
  {
    DivisionCondition(TestSpan(1000, 999), 0, 1000);
  }

  /** `SEL_CONT` becomes redo after an abort (status 1 or 2), else next. */
  function EffectiveMode(mode: Mode, status: nat): Mode {
    if mode != Cont then mode
    else if status == 1 || status == 2 then Redo else Next
  }

  /** A span the drive cleared is replaced by the one the caller remembers. */
  function OldSpan(mode: Mode, onDrive: TestSpan, remembered: Option<TestSpan>): TestSpan {
    if (mode == Redo || mode == Next) && remembered.Some? && onDrive == EMPTY
    then remembered.value else onDrive
  }

  /** The number of spans of size `d` that just cover `n` sectors. */
  ghost function CeilDiv(n: nat, d: nat): (q: nat)
    requires d > 0
    ensures n <= q * d < n + d
  {
    QuotientIsCeilDiv(n, d);
    var q: nat :| n <= q * d < n + d;
    q
  }

  lemma QuotientIsCeilDiv(n: nat, d: nat)
    requires d > 0
    ensures var q := (n + d - 1) / d; n <= q * d < n + d
  {
    var x := n + d - 1;
    assert x == d * (x / d) + x % d;
  }

  /** Multiplication is monotone in its first argument. */
  lemma MulLe(a: int, b: int, d: nat)
    requires a <= b
    ensures a * d <= b * d
  {
  }

  lemma CeilDivUnique(n: nat, d: nat, q: nat)
    requires d > 0 && n <= q * d < n + d
    ensures q == CeilDiv(n, d)
  {
    var c := CeilDiv(n, d);
    if q < c {
      MulLe(q + 1, c, d);
    } else if q > c {
      MulLe(c + 1, q, d);
    }
  }

  lemma SpanCountPositive(n: nat, z: nat)
    requires n > 0 && z > 0
    ensures CeilDiv(n, z) > 0
  {
  }

  /** ceil(n / ceil(n / z)): the size that divides the disk into as many spans as
      size z does, but as evenly as possible. */
  ghost function Adjusted(n: nat, z: nat): nat
    requires n > 0 && z > 0
  {
    SpanCountPositive(n, z);
    CeilDiv(n, CeilDiv(n, z))
  }

  /** The range check at the end of each span: cut at the disk end, or fail. */
  function RangeCheck(mode: Mode, start: u64, end: u64, n: u64): (r: Option<SpanArg>)
    requires n > 0
  {
    var e: u64 := if start < n <= end then n - 1 else end;
    if start <= e < n then Some(SpanArg(mode, start, e)) else None
  }

  ghost function NextSpan(prev: TestSpan, size: u64, n: u64): (r: Option<SpanArg>)
    requires 0 < n <= MAX_SECTORS && !DividesByZero(prev, size, n)
  {
    if prev.end == 0 then RangeCheck(Next, 0, 0, n)
    else if !Divisible(prev, n) then NextAfter(prev, size, n, 0)
    else
      AdjustedSize(n, SizeOf(prev));
      NextAfter(prev, size, n, Adjusted(n, SizeOf(prev)))
  }

  /** The span after `prev`, if the size has to be adjusted to `newSize` at the end. */
  function NextAfter(prev: TestSpan, size: u64, n: u64, newSize: nat): (r: Option<SpanArg>)
    requires 0 < n && newSize <= U64
  {
    var start := NextStart(prev, n);
    if size > 0 then RangeCheck(Next, start, Wrap(size - 1 + start), n)
    else
      var end := Wrap(start + SizeOf(prev) - 1);
      if end >= n then RangeCheck(Next, Wrap(n - newSize), n - 1, n)
      else RangeCheck(Next, start, end, n)
  }

  /** Resolving the argument divides by zero. */
  predicate Crashes(arg: SpanArg, onDrive: TestSpan, remembered: Option<TestSpan>, status: nat, n: u64) {
    var mode := EffectiveMode(arg.mode, status);
    mode == Next && DividesByZero(OldSpan(mode, onDrive, remembered), arg.end, n)
  }

  /** The new span for one argument, or `None` for the error return. */
  ghost function Prepare(arg: SpanArg, onDrive: TestSpan, remembered: Option<TestSpan>,
                         status: nat, n: u64): (r: Option<SpanArg>)
    requires 0 < n <= MAX_SECTORS && !Crashes(arg, onDrive, remembered, status, n)
  {
    var mode := EffectiveMode(arg.mode, status);
    var prev := OldSpan(mode, onDrive, remembered);
    match mode
    case Range => RangeCheck(Range, arg.start, arg.end, n)
    case Redo => RangeCheck(Redo, prev.start, if arg.end > 0 then Wrap(arg.end - 1 + prev.start) else prev.end, n)
    case Next => NextSpan(prev, arg.end, n)
    case Cont | Unknown => None
  }

  lemma DivisibleSafe(s: TestSpan, n: u64)
    requires 0 < n <= MAX_SECTORS && Divisible(s, n)
    ensures forall size :: !DividesByZero(s, size, n)
  {
    if s.end != 0 && Wrap(NextStart(s, n) + SizeOf(s) - 1) >= n {
      DivisionByZero(s, 0, n);
    }
  }

  // ---------------------------------------------------------------------
  // The adjusted size

  /** `m` spans of `z` just cover `n`, and so do `m` spans of `f`. */
  ghost predicate Even(n: nat, z: nat, m: nat, f: nat) {
    0 < z && 0 < m && 0 < f && n <= m * z < n + z && n <= f * m < n + m
  }

  lemma EvenOf(n: nat, z: nat)
    requires 0 < n && 0 < z
    ensures CeilDiv(n, z) > 0 && Adjusted(n, z) > 0
    ensures Even(n, z, CeilDiv(n, z), Adjusted(n, z))
  {
    SpanCountPositive(n, z);
    SpanCountPositive(n, CeilDiv(n, z));
  }

  lemma EvenShrinks(n: nat, z: nat, m: nat, f: nat)
    requires 0 < n && Even(n, z, m, f)
    ensures f <= z && n <= m * f < n + f
    ensures n - f <= (m - 1) * f <= (m - 1) * z < n
  {
    assert (f - 1) * m == f * m - m && z * m == m * z;
    if f > z {
      MulLe(z, f - 1, m);
    }
    MulLe(f, z, m - 1);
    assert f * (m - 1) == (m - 1) * f == m * f - f;
    assert z * (m - 1) == (m - 1) * z == m * z - z;
    assert f * m == m * f;
  }

  lemma LastSpan(n: nat, z: nat, m: nat, j: nat)
    requires 0 < z && n <= m * z < n + z && j * z < n <= j * z + z
    ensures m == j + 1
  {
    assert (j + 2) * z == j * z + z + z;
    if j + 1 < m {
      MulLe(j + 2, m, z);
    } else if m < j + 1 {
      MulLe(m, j, z);
    }
  }

  /** The adjusted size never grows, keeps the number of spans, is its own
      adjustment, and its last span joins the one before it. */
  lemma AdjustedSize(n: nat, z: nat)
    requires 0 < n && 0 < z
    ensures 1 <= Adjusted(n, z) <= z
    ensures CeilDiv(n, Adjusted(n, z)) == CeilDiv(n, z)
    ensures Adjusted(n, Adjusted(n, z)) == Adjusted(n, z)
    ensures forall j: nat {:trigger j * z} :: j * z < n <= j * z + z ==> n - Adjusted(n, z) <= j * z
  {
    EvenOf(n, z);
    var m, f := CeilDiv(n, z), Adjusted(n, z);
    EvenShrinks(n, z, m, f);
    CeilDivUnique(n, f, m);
    forall j: nat | j * z < n <= j * z + z
      ensures n - f <= j * z
    {
      LastSpan(n, z, m, j);
    }
  }

  /** A test of at least two sectors keeps at least two sectors. */
  lemma AdjustedAtLeastTwo(n: nat, z: nat)
    requires 2 <= z <= n
    ensures Adjusted(n, z) >= 2
  {
    EvenOf(n, z);
    var m := CeilDiv(n, z);
    EvenShrinks(n, z, m, Adjusted(n, z));
    MulLe(2, z, n - 1);
  }

  // ---------------------------------------------------------------------
  // Next steps from LBA 0

  ghost predicate WellFormed(s: TestSpan, n: u64) { s.start <= s.end < n }

  /** A position in a run of next steps: span `index` of cycle `cycle`. */
  datatype Place = Place(cycle: nat, index: nat)

  function Follow(p: Place, m: nat): Place {
    if p.index + 1 < m then Place(p.cycle, p.index + 1) else Place(p.cycle + 1, 0)
  }

  /** The span at a place, starting from the span of `z` sectors at LBA 0. The
      first cycle uses size `z` and all later ones the adjusted size; the last
      span of a cycle ends at the last sector. */
  ghost function SpanAt(n: u64, z: nat, p: Place): (s: TestSpan)
    requires 0 < z <= n && p.index < CeilDiv(n, z)
    ensures WellFormed(s, n)
  {
    EvenOf(n, z);
    var m, f := CeilDiv(n, z), Adjusted(n, z);
    EvenShrinks(n, z, m, f);
    if p.index == m - 1 then TestSpan(n - f, n - 1)
    else
      var size := if p.cycle == 0 then z else f;
      InnerSpan(n, m, p.index, size);
      TestSpan(p.index * size, (p.index + 1) * size - 1)
  }

  lemma InnerSpan(n: nat, m: nat, j: nat, size: nat)
    requires 0 < size && j + 1 < m && (m - 1) * size < n
    ensures 0 <= j * size < (j + 1) * size == j * size + size < n
  {
    MulLe(j + 1, m - 1, size);
    MulLe(0, j, size);
    assert (j + 1) * size == j * size + size;
  }

  /** What `-t select,next` does to a well-formed span other than 0-0, if the
      adjusted size is `f`. */
  lemma NextCases(prev: TestSpan, n: u64, f: nat)
    requires 0 < n <= MAX_SECTORS && WellFormed(prev, n) && 1 <= f <= prev.end - prev.start + 1
    ensures SizeOf(prev) == prev.end - prev.start + 1 && Divisible(prev, n)
    ensures var size := prev.end - prev.start + 1;
      NextAfter(prev, 0, n, f) == Some(
        if prev.end == n - 1 then SpanArg(Next, 0, size - 1)
        else if prev.end + size < n then SpanArg(Next, prev.end + 1, prev.end + size)
        else SpanArg(Next, n - f, n - 1))
  {
  }

  /** `t` follows `s`; `last` says whether `s` ends its cycle. */
  ghost predicate Consecutive(s: TestSpan, t: TestSpan, last: bool, n: u64, f: nat)
    requires WellFormed(s, n)
  {
    var size := s.end - s.start + 1;
    if last then s.end == n - 1 && t == TestSpan(0, size - 1)
    else
      && s.end + 1 < n && 1 <= f <= n
      && t == if s.end + size < n then TestSpan(s.end + 1, s.end + size) else TestSpan(n - f, n - 1)
  }

  lemma SpanAtCases(n: u64, z: nat, p: Place)
    requires 0 < z <= n && p.index < CeilDiv(n, z)
    ensures Follow(p, CeilDiv(n, z)).index < CeilDiv(n, z)
    ensures SpanAt(n, z, p).end - SpanAt(n, z, p).start + 1 in {z, Adjusted(n, z)}
    ensures Consecutive(SpanAt(n, z, p), SpanAt(n, z, Follow(p, CeilDiv(n, z))),
                        p.index == CeilDiv(n, z) - 1, n, Adjusted(n, z))
  {
    EvenOf(n, z);
    var m, f, j := CeilDiv(n, z), Adjusted(n, z), p.index;
    EvenShrinks(n, z, m, f);
    if j == m - 1 {
      if m == 1 {
        assert m * z == z && f * m == f;
      }
    } else {
      var size := if p.cycle == 0 then z else f;
      InnerSpan(n, m, j, size);
      assert (j + 2) * size == (j + 1) * size + size;
      if j + 2 < m {
        InnerSpan(n, m, j + 1, size);
      } else {
        LastTwo(n, m, size, f);
      }
    }
  }

  lemma LastTwo(n: nat, m: nat, size: nat, f: nat)
    requires 0 < m && 0 < f <= size && n <= m * f
    ensures m * size == n ==> f == size
    ensures n <= m * size
  {
    MulLe(f, size, m);
    assert f * m + m == (f + 1) * m;
    if f < size {
      MulLe(f + 1, size, m);
    }
  }

  /** One `-t select,next` moves on by one place in the sequence. */
  lemma NextFollows(n: u64, z: nat, p: Place)
    requires 0 < n <= MAX_SECTORS && 0 < z <= n && p.index < CeilDiv(n, z) && (z >= 2 || n == 1)
    ensures Divisible(SpanAt(n, z, p), n) && Follow(p, CeilDiv(n, z)).index < CeilDiv(n, z)
    ensures var s := SpanAt(n, z, Follow(p, CeilDiv(n, z)));
            NextSpan(SpanAt(n, z, p), 0, n) == Some(SpanArg(Next, s.start, s.end))
  {
    SpanAtCases(n, z, p);
    var s, t := SpanAt(n, z, p), SpanAt(n, z, Follow(p, CeilDiv(n, z)));
    if n > 1 {
      AdjustedAtLeastTwo(n, z);
      AdjustedSize(n, z);
      NextOfConsecutive(s, t, p.index == CeilDiv(n, z) - 1, n, Adjusted(n, z));
    }
  }

  lemma NextOfConsecutive(s: TestSpan, t: TestSpan, last: bool, n: u64, f: nat)
    requires 0 < n <= MAX_SECTORS && WellFormed(s, n) && s.start < s.end && Consecutive(s, t, last, n, f)
    requires f == Adjusted(n, s.end - s.start + 1)
    ensures Divisible(s, n) && NextSpan(s, 0, n) == Some(SpanArg(Next, t.start, t.end))
  {
    AdjustedSize(n, s.end - s.start + 1);
    NextCases(s, n, f);
  }

  // ---------------------------------------------------------------------
  // Whole runs of redo, next and continue requests

  /** One request of a run: its mode, the status of the test before it, and
      whether the drive lost its log meanwhile. */
  datatype Request = Request(mode: Mode, status: nat, cleared: bool)

  predicate Scheduled(r: Request) { r.mode == Redo || r.mode == Next || r.mode == Cont }

  predicate MovesOn(r: Request) { EffectiveMode(r.mode, r.status) == Next }

  /** The caller passes the span it recorded after the previous request. */
  ghost function Serve(last: TestSpan, r: Request, n: u64): (s: Option<TestSpan>)
    requires 0 < n <= MAX_SECTORS && Divisible(last, n)
  {
    DivisibleSafe(last, n);
    match Prepare(SpanArg(r.mode, 0, 0), if r.cleared then EMPTY else last, Some(last), r.status, n)
    case Some(a) => Some(TestSpan(a.start, a.end))
    case None => None
  }

  /** The span after the requests, or `None` if one of them failed. */
  ghost function Run(s: TestSpan, rs: seq<Request>, n: u64): (t: Option<TestSpan>)
    requires 0 < n <= MAX_SECTORS
    decreases |rs|
  {
    if rs == [] then Some(s)
    else if !Divisible(s, n) || Serve(s, rs[0], n).None? then None
    else Run(Serve(s, rs[0], n).value, rs[1..], n)
  }

  ghost predicate Tests(s: TestSpan, x: nat) { s.start <= x <= s.end }

  /** The span `s` or one of the spans of the requests after it tests sector `x`. */
  ghost predicate TestedBy(s: TestSpan, rs: seq<Request>, n: u64, x: nat)
    requires 0 < n <= MAX_SECTORS
    decreases |rs|
  {
    || Tests(s, x)
    || (rs != [] && Divisible(s, n) && Serve(s, rs[0], n).Some? && TestedBy(Serve(s, rs[0], n).value, rs[1..], n, x))
  }

  /** Only the requests that move on count for the position. */
  function Advance(p: Place, rs: seq<Request>, m: nat): Place
    decreases |rs|
  {
    if rs == [] then p else Advance(if MovesOn(rs[0]) then Follow(p, m) else p, rs[1..], m)
  }

  function Moves(rs: seq<Request>): nat {
    if rs == [] then 0 else (if MovesOn(rs[0]) then 1 else 0) + Moves(rs[1..])
  }

  /** A redo request repeats the current span, a next request moves on, and a log
      cleared by the drive changes neither. */
  lemma ServeFollows(n: u64, z: nat, p: Place, r: Request)
    requires 0 < n <= MAX_SECTORS && 0 < z <= n && p.index < CeilDiv(n, z) && (z >= 2 || n == 1)
    requires Scheduled(r)
    ensures Divisible(SpanAt(n, z, p), n) && Follow(p, CeilDiv(n, z)).index < CeilDiv(n, z)
    ensures Serve(SpanAt(n, z, p), r, n)
         == Some(SpanAt(n, z, if MovesOn(r) then Follow(p, CeilDiv(n, z)) else p))
  {
    NextFollows(n, z, p);
    ServeCases(SpanAt(n, z, p), r, n);
  }

  lemma ServeCases(s: TestSpan, r: Request, n: u64)
    requires 0 < n <= MAX_SECTORS && WellFormed(s, n) && Divisible(s, n) && Scheduled(r)
    ensures !MovesOn(r) ==> Serve(s, r, n) == Some(s)
    ensures MovesOn(r) ==>
      var a := NextSpan(s, 0, n);
      Serve(s, r, n) == if a.Some? then Some(TestSpan(a.value.start, a.value.end)) else None
  {
    var onDrive := if r.cleared then EMPTY else s;
    var a := Prepare(SpanArg(r.mode, 0, 0), onDrive, Some(s), r.status, n);
    assert if MovesOn(r) then a == NextSpan(s, 0, n) else a == RangeCheck(Redo, s.start, s.end, n);
  }

  /** Every request of a run succeeds, and the run stays on the sequence of spans. */
  lemma {:induction false} RunFollows(n: u64, z: nat, p: Place, rs: seq<Request>)
    requires 0 < n <= MAX_SECTORS && 0 < z <= n && p.index < CeilDiv(n, z) && (z >= 2 || n == 1)
    requires forall r <- rs :: Scheduled(r)
    ensures Advance(p, rs, CeilDiv(n, z)).index < CeilDiv(n, z)
    ensures Run(SpanAt(n, z, p), rs, n) == Some(SpanAt(n, z, Advance(p, rs, CeilDiv(n, z))))
    decreases |rs|
  {
    if rs != [] {
      ServeFollows(n, z, p, rs[0]);
      RunFollows(n, z, if MovesOn(rs[0]) then Follow(p, CeilDiv(n, z)) else p, rs[1..]);
    }
  }

  /** The `CeilDiv(n, z)` spans of each cycle together hold every sector. */
  lemma CycleCovers(n: u64, z: nat, c: nat, x: nat)
    requires 0 < z <= n && x < n
    ensures exists j: nat :: j < CeilDiv(n, z) && Tests(SpanAt(n, z, Place(c, j)), x)
  {
    EvenOf(n, z);
    var m, f := CeilDiv(n, z), Adjusted(n, z);
    EvenShrinks(n, z, m, f);
    var size := if c == 0 then z else f;
    var j := IndexOf(x, size);
    if j + 1 < m {
      assert (j + 1) * size == j * size + size;
      assert Tests(SpanAt(n, z, Place(c, j)), x);
    } else {
      MulLe(m - 1, j, size);
      MulLe(f, size, m - 1);
      assert Tests(SpanAt(n, z, Place(c, m - 1)), x);
    }
  }

  lemma IndexOf(x: nat, size: nat) returns (j: nat)
    requires 0 < size
    ensures j * size <= x < j * size + size
  {
    j := x / size;
  }

  /** A run of at least `j - i` moves from span `i` of a cycle passes span `j`. */
  lemma {:induction false} RunPasses(n: u64, z: nat, c: nat, i: nat, j: nat, rs: seq<Request>, x: nat)
    requires 0 < n <= MAX_SECTORS && 0 < z <= n && (z >= 2 || n == 1)
    requires forall r <- rs :: Scheduled(r)
    requires i <= j < CeilDiv(n, z) && Moves(rs) >= j - i && Tests(SpanAt(n, z, Place(c, j)), x)
    ensures TestedBy(SpanAt(n, z, Place(c, i)), rs, n, x)
    decreases |rs|
  {
    if i < j {
      ServeFollows(n, z, Place(c, i), rs[0]);
      RunPasses(n, z, c, if MovesOn(rs[0]) then i + 1 else i, j, rs[1..], x);
    }
  }

  /** Main result: from a span of at least two sectors at LBA 0, any run that
      moves on often enough tests every sector of the disk, whatever redo
      requests and log losses come in between, in the first and in every later
      cycle. */
  lemma RunCovers(n: u64, z: nat, c: nat, rs: seq<Request>, x: nat)
    requires 0 < n <= MAX_SECTORS && 0 < z <= n && (z >= 2 || n == 1)
    requires forall r <- rs :: Scheduled(r)
    requires Moves(rs) >= CeilDiv(n, z) - 1
    requires x < n
    ensures 0 < CeilDiv(n, z) && TestedBy(SpanAt(n, z, Place(c, 0)), rs, n, x)
  {
    SpanCountPositive(n, z);
    CycleCovers(n, z, c, x);
    var j: nat :| j < CeilDiv(n, z) && Tests(SpanAt(n, z, Place(c, j)), x);
    RunPasses(n, z, c, 0, j, rs, x);
  }

  lemma {:induction false} AdvanceInCycle(p: Place, rs: seq<Request>, m: nat)
    requires p.index + Moves(rs) <= m && p.index < m
    ensures Advance(p, rs, m)
      == if p.index + Moves(rs) < m then Place(p.cycle, p.index + Moves(rs)) else Place(p.cycle + 1, 0)
    decreases |rs|
  {
    if rs != [] {
      if MovesOn(rs[0]) && p.index + 1 == m {
        NoMoves(Place(p.cycle + 1, 0), rs[1..], m);
      } else {
        AdvanceInCycle(if MovesOn(rs[0]) then Follow(p, m) else p, rs[1..], m);
      }
    }
  }

  lemma {:induction false} NoMoves(p: Place, rs: seq<Request>, m: nat)
    requires Moves(rs) == 0
    ensures Advance(p, rs, m) == p
  {
    if rs != [] {
      NoMoves(p, rs[1..], m);
    }
  }

  /** After one move per span the next cycle starts at LBA 0, with the adjusted size. */
  lemma CycleReturns(n: u64, z: nat, c: nat, rs: seq<Request>)
    requires 0 < n <= MAX_SECTORS && 0 < z <= n && (z >= 2 || n == 1)
    requires forall r <- rs :: Scheduled(r)
    requires Moves(rs) == CeilDiv(n, z)
    ensures 0 < CeilDiv(n, z)
    ensures Run(SpanAt(n, z, Place(c, 0)), rs, n) == Some(TestSpan(0, Adjusted(n, z) - 1))
  {
    SpanCountPositive(n, z);
    var m := CeilDiv(n, z);
    RunFollows(n, z, Place(c, 0), rs);
    AdvanceInCycle(Place(c, 0), rs, m);
    SpanAtCases(n, z, Place(c, m - 1));
    CycleEnd(n, z, c);
  }

  lemma CycleEnd(n: u64, z: nat, c: nat)
    requires 0 < z <= n
    ensures 0 < CeilDiv(n, z) && SpanAt(n, z, Place(c, CeilDiv(n, z) - 1)).start == n - Adjusted(n, z)
  {
    EvenOf(n, z);
    EvenShrinks(n, z, CeilDiv(n, z), Adjusted(n, z));
  }

  // ---------------------------------------------------------------------
  // Where coverage starts, and when it fails

  /** A span of at least two sectors either wraps to LBA 0 or starts later. */
  lemma ServeAnySpan(s: TestSpan, r: Request, n: u64)
    requires 0 < n <= MAX_SECTORS && WellFormed(s, n) && s.start < s.end && Scheduled(r)
    ensures Divisible(s, n)
    ensures Serve(s, r, n).Some?
    ensures var t := Serve(s, r, n).value;
      WellFormed(t, n) && t.start < t.end
      && if MovesOn(r) then t.start == 0 || s.start < t.start else t == s
  {
    var z := s.end - s.start + 1;
    AdjustedSize(n, z);
    AdjustedAtLeastTwo(n, z);
    NextCases(s, n, Adjusted(n, z));
    ServeCases(s, r, n);
  }

  /** Some span of the run has at least two sectors and starts at LBA 0. */
  ghost predicate ReachesLbaZero(s: TestSpan, rs: seq<Request>, n: u64)
    requires 0 < n <= MAX_SECTORS
    decreases |rs|
  {
    || s.start == 0 < s.end < n
    || (rs != [] && Divisible(s, n) && Serve(s, rs[0], n).Some? && ReachesLbaZero(Serve(s, rs[0], n).value, rs[1..], n))
  }

  /** Any old span of at least two sectors, aligned or not, leads to a span of at
      least two sectors at LBA 0, from which coverage counts. */
  lemma {:induction false} AnySpanReachesLbaZero(s: TestSpan, rs: seq<Request>, n: u64)
    requires 0 < n <= MAX_SECTORS && WellFormed(s, n) && s.start < s.end
    requires forall r <- rs :: Scheduled(r)
    requires Moves(rs) >= n - s.start
    ensures ReachesLbaZero(s, rs, n)
    decreases |rs|
  {
    if s.start != 0 {
      ServeAnySpan(s, rs[0], n);
      var t := Serve(s, rs[0], n).value;
      if t.start != 0 {
        AnySpanReachesLbaZero(t, rs[1..], n);
      }
    }
  }

  /** Every run from `s` of at least `moves` moves tests the whole disk. */
  ghost predicate AlwaysCovers(s: TestSpan, n: u64, moves: nat)
    requires 0 < n <= MAX_SECTORS
  {
    forall rs: seq<Request>, x: nat ::
      (forall r <- rs :: Scheduled(r)) && Moves(rs) >= moves && x < n ==> TestedBy(s, rs, n, x)
  }

  /** A span 0-0 counts as empty and is never left. */
  lemma {:induction false} StuckAtZero(rs: seq<Request>, n: u64, x: nat)
    requires 0 < n <= MAX_SECTORS && (forall r <- rs :: Scheduled(r)) && x > 0
    ensures !TestedBy(EMPTY, rs, n, x)
  {
    if rs != [] {
      ServeCases(EMPTY, rs[0], n);
      StuckAtZero(rs[1..], n, x);
    }
  }

  function Nexts(k: nat): (rs: seq<Request>)
    ensures |rs| == k && forall r <- rs :: Scheduled(r)
    ensures Moves(rs) == k
  {
    if k == 0 then [] else [Request(Next, 0, false)] + Nexts(k - 1)
  }

  /** Coverage fails exactly for a single sector at LBA 0 of a larger disk. */
  lemma CoverageCondition(n: u64, z: nat)
    requires 0 < n <= MAX_SECTORS && 0 < z <= n
    ensures 0 < CeilDiv(n, z)
    ensures AlwaysCovers(TestSpan(0, z - 1), n, CeilDiv(n, z) - 1) <==> z >= 2 || n == 1
  {
    SpanCountPositive(n, z);
    var s, m := TestSpan(0, z - 1), CeilDiv(n, z);
    if z >= 2 || n == 1 {
      forall rs: seq<Request>, x: nat
        | (forall r <- rs :: Scheduled(r)) && Moves(rs) >= m - 1 && x < n
        ensures TestedBy(s, rs, n, x)
      {
        FirstSpan(n, z);
        RunCovers(n, z, 0, rs, x);
      }
    } else {
      CeilDivUnique(n, 1, n);
      StuckAtZero(Nexts(n), n, 1);
    }
  }

  lemma FirstSpan(n: u64, z: nat)
    requires 0 < z <= n
    ensures 0 < CeilDiv(n, z) && SpanAt(n, z, Place(0, 0)) == TestSpan(0, z - 1)
  {
    EvenOf(n, z);
    EvenShrinks(n, z, CeilDiv(n, z), Adjusted(n, z));
    if CeilDiv(n, z) == 1 {
      assert 1 * z == z && Adjusted(n, z) * 1 == Adjusted(n, z);
    }
  }
}
