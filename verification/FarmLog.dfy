/**
  Reading the SCSI FARM log (`scsiReadFarmLog` of lib/farmcmds.cpp): a walk over the
  parameters of a log page whose cursor runs past the end of a parameter and jumps
  back.  Sizes are those of the structures in include/smartmon/farmcmds.h.
 */
module FarmLog {

  import opened Bytes

  const GBUF_SIZE := 65532
  const LOG_RESP_LONG_LEN := 62 * 256 + 252
  const ATTRIBUTE := 8
  const PAGE_HEADER := 4
  const PARAMETER_HEADER := 4

  const BY_HEAD := 164
  const BY_ACTUATOR := 188
  const BY_ACTUATOR_FLED := 236
  const BY_ACTUATOR_REALLOCATION := 164
  const LOG_SIZE := 4 + 76 + 252 + 148 + 236 + 212 + 236 + 108 + 68 + 47 * 164 + 188 * 4 + 236 * 4 + 164 * 4

  // ---------------------------------------------------------------------
  // Where a parameter is stored

  function Section(code: nat): nat {
    PAGE_HEADER + (if code >= 0x1 then 76 else 0) + (if code >= 0x2 then 252 else 0) + (if code >= 0x3 then 148 else 0)
    + (if code >= 0x4 then 236 else 0) + (if code >= 0x5 then 212 else 0) + (if code >= 0x6 then 236 else 0)
    + (if code >= 0x7 then 108 else 0) + (if code >= 0x8 then 68 else 0)
  }

  function HeadSection(code: nat): nat {
    if 0x11 <= code <= 0x29 then BY_HEAD * (code - 0x10)
    else if 0x30 <= code <= 0x35 then BY_HEAD * (26 + (code - 0x30))
    else if 0x40 <= code <= 0x4e then BY_HEAD * (32 + (code - 0x40))
    else if code >= 0x50 then BY_HEAD * 47
    else 0
  }

  /** `currentParameterOffset`; the actuators follow each other without a gap. */
  function Offset(code: nat): nat {
    Section(code) + HeadSection(code)
    + (if code >= 0x51 then BY_ACTUATOR else 0) + (if code >= 0x52 then BY_ACTUATOR_FLED else 0)
    + (if code >= 0x53 then BY_ACTUATOR_REALLOCATION else 0)
    + (if code >= 0x61 then BY_ACTUATOR else 0) + (if code >= 0x62 then BY_ACTUATOR_FLED else 0)
    + (if code >= 0x63 then BY_ACTUATOR_REALLOCATION else 0)
    + (if code >= 0x71 then BY_ACTUATOR else 0) + (if code >= 0x72 then BY_ACTUATOR_FLED else 0)
    + (if code >= 0x73 then BY_ACTUATOR_REALLOCATION else 0)
    + (if code >= 0x81 then BY_ACTUATOR else 0) + (if code >= 0x82 then BY_ACTUATOR_FLED else 0)
    + (if code >= 0x83 then BY_ACTUATOR_REALLOCATION else 0)
  }

  const LAST_CODE := 0x83

  /** A parameter that is not skipped has room for its header in the log, except the
      last one: its section would begin at the end of the log. */
  lemma OffsetFits(code: nat)
    requires code <= LAST_CODE
    ensures PAGE_HEADER <= Offset(code) <= LOG_SIZE
    ensures Offset(code) + PARAMETER_HEADER <= LOG_SIZE <==> code != LAST_CODE
  {
  }

  const SIZE_T := 0x1_0000_0000_0000_0000

  /** `copylen`: the subtraction wraps around like that of `size_t`. */
  function CopyLength(code: nat, length: byte): (n: nat)
    requires code <= LAST_CODE
    ensures n <= length
  {
    OffsetFits(code);
    var room := LOG_SIZE - Offset(code) - PARAMETER_HEADER;
    var maxCopy := if room < 0 then room + SIZE_T else room;
    if length > maxCopy then maxCopy else length
  }

  // ---------------------------------------------------------------------
  // What the walk reads

  type Page = g: seq<byte> | |g| == GBUF_SIZE witness Zeros(GBUF_SIZE)

  function PageLength(g: Page): nat { (g[2] as int) * 256 + g[3] }

  function Limit(g: Page): nat { PageLength(g) + PAGE_HEADER }

  /** The check of the page length before the walk */
  predicate Accepted(g: Page) { PageLength(g) + PAGE_HEADER + ATTRIBUTE <= GBUF_SIZE }

  /** The fields of the parameter header at `h` */
  function Code(g: Page, h: nat): nat
    requires h + PARAMETER_HEADER <= GBUF_SIZE
  {
    (g[h] as int) * 256 + g[h + 1]
  }

  function Length(g: Page, h: nat): byte
    requires h + PARAMETER_HEADER <= GBUF_SIZE
  {
    g[h + 3]
  }

  predicate Known(g: Page, h: nat)
    requires h + PARAMETER_HEADER <= GBUF_SIZE
  {
    Code(g, h) <= LAST_CODE
  }

  /** Where the header behind the parameter at `h` stands */
  function Following(g: Page, h: nat): nat
    requires h + PARAMETER_HEADER <= GBUF_SIZE
  {
    h + PARAMETER_HEADER + Length(g, h)
  }

  /** Where metric `j` of the parameter at `h` stands */
  function Position(h: nat, j: nat): nat { h + PARAMETER_HEADER + j * ATTRIBUTE }

  /** Metric `j` ends the parameter at `h`.  The first metric is read even if it stands
      behind the end of the page. */
  predicate Terminator(g: Page, h: nat, j: nat)
    requires h + PARAMETER_HEADER <= GBUF_SIZE
  {
    && (j == 0 || Position(h, j) < Limit(g)) && Position(h, j) + ATTRIBUTE <= GBUF_SIZE
    && j * ATTRIBUTE >= Length(g, h) && g[Position(h, j)] != 0xc0
  }

  ghost predicate Ends(g: Page, h: nat)
    requires h + PARAMETER_HEADER <= GBUF_SIZE
  {
    exists j: nat :: Terminator(g, h, j)
  }

  /** A parameter header that has been read; `copied`: its end has been reached and its
      data stored. */
  datatype Parameter = Parameter(at: nat, copied: bool)

  /** The parameters read so far: each header is read exactly behind the data of the one
      before it; all known parameters but the last have been stored, unknown ones are
      skipped. */
  ghost predicate Chain(g: Page, ps: seq<Parameter>)
    requires Accepted(g)
  {
    && (forall i :: 0 <= i < |ps| ==>
          PAGE_HEADER <= ps[i].at < Limit(g) && (ps[i].copied ==> Known(g, ps[i].at) && Ends(g, ps[i].at)))
    && (ps != [] ==> ps[0].at == PAGE_HEADER)
    && (forall i :: 0 < i < |ps| ==> ps[i].at == Following(g, ps[i - 1].at))
    && (forall i :: 0 <= i < |ps| - 1 ==> ps[i].copied == Known(g, ps[i].at))
  }

  /** The first metric of the parameter at `h` is in the buffer. */
  predicate FirstInside(h: nat) { Position(h, 0) + ATTRIBUTE <= GBUF_SIZE }

  /** The walk has come to the end of the page. */
  ghost predicate Complete(g: Page, ps: seq<Parameter>)
    requires Accepted(g) && Chain(g, ps)
  {
    if ps == [] then PageLength(g) == 0 else
    var p := ps[|ps| - 1];
    if p.copied || !Known(g, p.at) then Following(g, p.at) >= Limit(g)
    else FirstInside(p.at) && !Ends(g, p.at)
  }

  /** The walk has come to a parameter whose first metric is not in the buffer. */
  ghost predicate Overrun(g: Page, ps: seq<Parameter>)
    requires Accepted(g) && Chain(g, ps)
  {
    ps != [] && var h := ps[|ps| - 1].at; Known(g, h) && !FirstInside(h)
  }

  ghost predicate Overruns(g: Page)
    requires Accepted(g)
  {
    exists ps :: Chain(g, ps) && Overrun(g, ps)
  }

  /** Two walks over the same page read the same headers. */
  lemma {:induction false} SameHeaders(g: Page, ps: seq<Parameter>, qs: seq<Parameter>, i: nat)
    requires Accepted(g) && Chain(g, ps) && Chain(g, qs) && i < |ps| && i < |qs|
    ensures ps[i].at == qs[i].at
  {
    hide Known, Ends, Following;
    if i > 0 {
      SameHeaders(g, ps, qs, i - 1);
    }
  }

  /** No walk goes further than a complete one. */
  lemma CompleteIsLongest(g: Page, ps: seq<Parameter>, qs: seq<Parameter>)
    requires Accepted(g) && Chain(g, ps) && Chain(g, qs) && Complete(g, ps)
    ensures |qs| <= |ps|
  {
    hide Known, Ends, Following;
    if |ps| < |qs| {
      assert qs[0].at < Limit(g);
      if ps != [] {
        assert qs[|ps|].at < Limit(g) && qs[|ps| - 1].copied == Known(g, qs[|ps| - 1].at);
        SameHeaders(g, ps, qs, |ps| - 1);
      }
    }
  }

  /** The page alone determines what is read. */
  lemma WalkUnique(g: Page, ps: seq<Parameter>, qs: seq<Parameter>)
    requires Accepted(g) && Chain(g, ps) && Chain(g, qs) && Complete(g, ps) && Complete(g, qs)
    ensures ps == qs
  {
    hide Known, Ends, Following;
    CompleteIsLongest(g, ps, qs);
    CompleteIsLongest(g, qs, ps);
    forall i | 0 <= i < |ps|
      ensures ps[i] == qs[i]
    {
      SameHeaders(g, ps, qs, i);
    }
  }

  /** A walk that comes to the end of the page does not leave the buffer. */
  lemma CompleteNoOverrun(g: Page, ps: seq<Parameter>)
    requires Accepted(g) && Chain(g, ps) && Complete(g, ps)
    ensures !Overruns(g)
  {
    forall qs: seq<Parameter> | Chain(g, qs)
      ensures !Overrun(g, qs)
    {
      CompleteIsLongest(g, ps, qs);
      if qs != [] && !FirstInside(qs[|qs| - 1].at) {
        SameHeaders(g, ps, qs, |qs| - 1);
        NoEnd(g, ps[|qs| - 1].at);
      }
    }
  }

  /** Outside the buffer there is nothing that ends a parameter. */
  lemma NoEnd(g: Page, h: nat)
    requires h + PARAMETER_HEADER <= GBUF_SIZE && !FirstInside(h)
    ensures !Ends(g, h)
  {
  }

  // ---------------------------------------------------------------------
  // Which page lengths are safe

  const LAST_SAFE := 65517

  /** The first parameter has one byte of data, all others none: their headers stand at
      4, 9, 13, 17, and so on up to 65521. */
  function LongPage(length: nat): (g: Page)
    requires length < 0x1_0000
    ensures PageLength(g) == length
    ensures forall i :: LOG_RESP_LONG_LEN <= i < GBUF_SIZE ==> g[i] == 0
  {
    seq(GBUF_SIZE, i => if i == 2 then length / 256 else if i == 3 then length % 256 else if i == 7 then 1 else 0)
  }

  const LONG_COUNT := 16380

  function LongWalk(): (ps: seq<Parameter>) {
    seq(LONG_COUNT, (i: nat) => Parameter(if i == 0 then PAGE_HEADER else 5 + 4 * i, i < LONG_COUNT - 1))
  }

  lemma LongWalkOverruns(length: nat)
    requires LAST_SAFE < length && length + PAGE_HEADER + ATTRIBUTE <= GBUF_SIZE
    ensures var g := LongPage(length); Chain(g, LongWalk()) && Overrun(g, LongWalk())
  {
    hide LongPage;
    var g, ps := LongPage(length), LongWalk();
    LongPageAt(length);
    forall i | 0 <= i < |ps|
      ensures PAGE_HEADER <= ps[i].at < Limit(g) && Known(g, ps[i].at)
      ensures i > 0 ==> ps[i].at == Following(g, ps[i - 1].at)
      ensures ps[i].copied ==> Ends(g, ps[i].at)
    {
      if ps[i].copied {
        assert Terminator(g, ps[i].at, if i == 0 then 1 else 0);
      }
    }
  }

  lemma LongPageAt(length: nat)
    requires length < 0x1_0000
    ensures forall i :: 4 <= i < GBUF_SIZE ==> LongPage(length)[i] == if i == 7 then 1 else 0
  {
  }

  /** The check of the page length is three bytes too generous: for the largest lengths
      that it accepts there are pages whose walk leaves the buffer. */
  lemma SafeLengths(length: nat)
    requires length + PAGE_HEADER + ATTRIBUTE <= GBUF_SIZE
    ensures (forall g: Page :: PageLength(g) == length ==> !Overruns(g)) <==> length <= LAST_SAFE
  {
    if length > LAST_SAFE {
      LongWalkOverruns(length);
      assert PageLength(LongPage(length)) == length && Overruns(LongPage(length));
    }
  }

  // ---------------------------------------------------------------------
  // What is stored

  /** The metric at `p` as its eight bytes in memory, low byte first: without its status
      byte if that is 0xc0, and zero otherwise. */
  function Metric(g: Page, p: nat): (m: seq<byte>)
    requires p + ATTRIBUTE <= GBUF_SIZE
    ensures |m| == ATTRIBUTE
  {
    if g[p] == 0xc0 then [g[p + 7], g[p + 6], g[p + 5], g[p + 4], g[p + 3], g[p + 2], g[p + 1], 0]
    else [0, 0, 0, 0, 0, 0, 0, 0]
  }

  /** The first `n` metrics of the parameter at `h` */
  function Metrics(g: Page, h: nat, n: nat): (m: seq<byte>)
    requires Position(h, n) <= GBUF_SIZE
    ensures |m| == n * ATTRIBUTE
  {
    if n == 0 then [] else Metrics(g, h, n - 1) + Metric(g, Position(h, n - 1))
  }

  /** The metrics needed to fill the length of the parameter at `h` */
  function Needed(g: Page, h: nat): (n: nat)
    requires h + PARAMETER_HEADER <= GBUF_SIZE
    ensures n * ATTRIBUTE >= Length(g, h) && n <= 32
  {
    (Length(g, h) + ATTRIBUTE - 1) / ATTRIBUTE
  }

  /** The data of the parameter at `h` is in the buffer. */
  predicate Filled(g: Page, h: nat) {
    h + PARAMETER_HEADER <= GBUF_SIZE && Position(h, Needed(g, h)) <= GBUF_SIZE
  }

  lemma EndsFilled(g: Page, h: nat)
    requires h + PARAMETER_HEADER <= GBUF_SIZE && Ends(g, h)
    ensures Filled(g, h)
  {
    var j: nat :| Terminator(g, h, j);
    assert j >= Needed(g, h);
  }

  datatype Write = Write(offset: nat, data: seq<byte>)

  function HeaderWrite(g: Page, h: nat): Write
    requires h + PARAMETER_HEADER <= GBUF_SIZE
  {
    Write(Offset(Code(g, h)), [g[h + 1], g[h], g[h + 2], g[h + 3]])
  }

  /** The stored data: the metrics read for this parameter, cut to its length. */
  function DataWrite(g: Page, h: nat): Write
    requires Filled(g, h) && Known(g, h)
  {
    Write(Offset(Code(g, h)) + PARAMETER_HEADER, Metrics(g, h, Needed(g, h))[..CopyLength(Code(g, h), Length(g, h))])
  }

  predicate Sound(g: Page, ps: seq<Parameter>) {
    forall i :: 0 <= i < |ps| ==>
        ps[i].at + PARAMETER_HEADER <= GBUF_SIZE && (ps[i].copied ==> Known(g, ps[i].at) && Filled(g, ps[i].at))
  }

  lemma ChainSound(g: Page, ps: seq<Parameter>)
    requires Accepted(g) && Chain(g, ps)
    ensures Sound(g, ps)
  {
    hide Known, Ends, Following, Filled;
    forall i | 0 <= i < |ps| && ps[i].copied
      ensures Filled(g, ps[i].at)
    {
      EndsFilled(g, ps[i].at);
    }
  }

  /** What is stored for one parameter */
  function ParameterWrites(g: Page, p: Parameter): seq<Write>
    requires p.at + PARAMETER_HEADER <= GBUF_SIZE && (p.copied ==> Known(g, p.at) && Filled(g, p.at))
  {
    (if Known(g, p.at) then [HeaderWrite(g, p.at)] else []) + (if p.copied then [DataWrite(g, p.at)] else [])
  }

  /** Everything stored for these parameters */
  function Writes(g: Page, ps: seq<Parameter>): seq<Write>
    requires Sound(g, ps)
  {
    if ps == [] then [] else Writes(g, ps[..|ps| - 1]) + ParameterWrites(g, ps[|ps| - 1])
  }

  predicate InLog(w: Write) { w.offset + |w.data| <= LOG_SIZE }

  /** What is stored lies inside the log exactly if the code is not the last one. */
  lemma WritesFit(g: Page, h: nat)
    requires h + PARAMETER_HEADER <= GBUF_SIZE && Known(g, h)
    ensures InLog(HeaderWrite(g, h)) <==> Code(g, h) != LAST_CODE
    ensures Filled(g, h) ==> (InLog(DataWrite(g, h)) <==> Code(g, h) != LAST_CODE)
  {
    hide Offset;
    OffsetFits(Code(g, h));
  }

  /** A walk stores nothing outside the log exactly if it reads no parameter with the last
      code. */
  lemma {:induction false} RunFits(g: Page, ps: seq<Parameter>)
    requires Sound(g, ps)
    ensures (forall w :: w in Writes(g, ps) ==> InLog(w)) <==> (forall p :: p in ps ==> Code(g, p.at) != LAST_CODE)
  {
    hide Offset, Code, InLog, HeaderWrite, DataWrite, Filled, Metrics;
    if ps != [] {
      var before, p := ps[..|ps| - 1], ps[|ps| - 1];
      RunFits(g, before);
      OneFits(g, p);
      assert ps == before + [p];
      assert forall q :: q in ps <==> q in before || q == p;
      assert forall w :: w in Writes(g, ps) <==> w in Writes(g, before) || w in ParameterWrites(g, p);
    }
  }

  lemma OneFits(g: Page, p: Parameter)
    requires p.at + PARAMETER_HEADER <= GBUF_SIZE && (p.copied ==> Known(g, p.at) && Filled(g, p.at))
    ensures (forall w :: w in ParameterWrites(g, p) ==> InLog(w)) <==> Code(g, p.at) != LAST_CODE
  {
    hide Offset, Code, InLog, HeaderWrite, DataWrite, Filled, Metrics;
    if Known(g, p.at) {
      WritesFit(g, p.at);
      assert HeaderWrite(g, p.at) in ParameterWrites(g, p);
    }
  }

  /** A page with a parameter that has the last code and `length` bytes of data, and an
      unknown one behind it */
  function LastCodePage(length: byte): (g: Page) {
    seq(GBUF_SIZE, i => if i == 2 then (13 + length) / 256 else if i == 3 then (13 + length) % 256
                        else if i == 5 then LAST_CODE else if i == 7 then length
                        else if 8 + length <= i < 12 + length then 0xff else 0)
  }

  lemma LastCodeWalk(length: byte)
    ensures var g, ps := LastCodePage(length), [Parameter(PAGE_HEADER, true), Parameter(8 + length, false)];
      && Accepted(g) && Chain(g, ps) && Complete(g, ps)
      && Code(g, PAGE_HEADER) == LAST_CODE && Length(g, PAGE_HEADER) == length && !Known(g, 8 + length)
  {
    assert Terminator(LastCodePage(length), PAGE_HEADER, Needed(LastCodePage(length), PAGE_HEADER));
  }

  /** Such a page is read completely, and the header and all data of the first parameter
      are stored behind the end of the log. */
  lemma StoredOutside(length: byte)
    ensures var g, ps := LastCodePage(length), [Parameter(PAGE_HEADER, true), Parameter(8 + length, false)];
      && Accepted(g) && Chain(g, ps) && Complete(g, ps) && Sound(g, ps)
      && Writes(g, ps) == [HeaderWrite(g, PAGE_HEADER), DataWrite(g, PAGE_HEADER)]
      && HeaderWrite(g, PAGE_HEADER).offset == LOG_SIZE && |DataWrite(g, PAGE_HEADER).data| == length
  {
    hide Metrics, LastCodePage, Code, Length, Following, Chain, Complete, Filled;
    var g := LastCodePage(length);
    var p, q := Parameter(PAGE_HEADER, true), Parameter(8 + length, false);
    LastCodeWalk(length);
    ChainSound(g, [p, q]);
    assert Sound(g, [p]) by {
      assert [p, q][0] == p;
    }
    WritesNext(g, [], p);
    WritesNext(g, [p], q);
    assert [] + [p] == [p] && [p] + [q] == [p, q];
  }

  /** The data of a parameter is stored when a metric behind it is read: at the end of a
      page the data of the last parameter is lost. */
  lemma LastDataLost(g: Page, ps: seq<Parameter>)
    requires Accepted(g) && Chain(g, ps) && Complete(g, ps) && ps != []
    requires Length(g, ps[|ps| - 1].at) > 0
    ensures !ps[|ps| - 1].copied
  {
  }

  /** The data of every known parameter is stored exactly if the last one is unknown or has
      no data. */
  lemma StoredCondition(g: Page, ps: seq<Parameter>)
    requires Accepted(g) && Chain(g, ps) && Complete(g, ps)
    ensures (forall i :: 0 <= i < |ps| && Known(g, ps[i].at) && Length(g, ps[i].at) > 0 ==> ps[i].copied) <==>
            (ps == [] || !Known(g, ps[|ps| - 1].at) || Length(g, ps[|ps| - 1].at) == 0)
  {
    hide Known, Ends, Following, Length;
    if ps != [] && Length(g, ps[|ps| - 1].at) > 0 {
      LastDataLost(g, ps);
    }
  }

  /** A page with nothing but parameter 0, which holds the log signature */
  function SignaturePage(): (g: Page) {
    var front := [0, 0, 0, 12, 0, 0, 0, 8, 0xc0, 0, 0x46, 0x41, 0x52, 0x4d, 0x45, 0x52];
    front + Zeros(GBUF_SIZE - |front|)
  }

  /** Such a page is read completely and its signature is right, but it is not stored. */
  lemma SignatureLost()
    ensures var g, ps := SignaturePage(), [Parameter(PAGE_HEADER, false)];
      && Accepted(g) && Chain(g, ps) && Complete(g, ps) && g[8] == 0xc0 && Metric(g, 8) == SIGNATURE
      && Known(g, PAGE_HEADER) && Length(g, PAGE_HEADER) == 8
  {
    hide Zeros;
  }

  // ---------------------------------------------------------------------
  // The walk

  /** The farm log structure in memory: what is copied into it, in order */
  class Store {
    var writes: seq<Write>

    constructor ()
      ensures writes == []
    {
      writes := [];
    }

    method Copy(offset: nat, data: seq<byte>)
      modifies this
      ensures writes == old(writes) + [Write(offset, data)]
    {
      writes := writes + [Write(offset, data)];
    }
  }

  /** One metric, byte by byte from the buffer, with the status byte still in place */
  method ReadMetric(g: Page, p: nat) returns (m: array<byte>)
    requires p + ATTRIBUTE <= GBUF_SIZE
    ensures fresh(m) && m.Length == ATTRIBUTE
    ensures m[..] == [g[p + 7], g[p + 6], g[p + 5], g[p + 4], g[p + 3], g[p + 2], g[p + 1], g[p]]
  {
    m := new byte[ATTRIBUTE](_ => 0);
    for byteOffset := 0 to ATTRIBUTE
      invariant forall j :: ATTRIBUTE - byteOffset <= j < ATTRIBUTE ==> m[j] == g[p + 7 - j]
    {
      m[7 - byteOffset] := g[p + byteOffset];
    }
  }

  const SIGNATURE: seq<byte> := [0x52, 0x45, 0x4d, 0x52, 0x41, 0x46, 0, 0]

  /** The variables of the loop that belong to the current parameter: the header at `h`
      has been read, and `k` metrics. */
  predicate Reading(g: Page, cells: seq<seq<byte>>, h: nat, k: nat)
  {
    Position(h, k) <= GBUF_SIZE && k <= |cells| && forall j: nat :: j < k ==> cells[j] == Metric(g, Position(h, j))
  }

  function Flat(cells: seq<seq<byte>>): (b: seq<byte>) {
    if cells == [] then [] else Flat(cells[..|cells| - 1]) + cells[|cells| - 1]
  }

  lemma {:induction false} FlatIsMetrics(g: Page, cells: seq<seq<byte>>, h: nat, k: nat, n: nat)
    requires Reading(g, cells, h, k) && n <= k
    ensures Flat(cells[..n]) == Metrics(g, h, n)
  {
    hide Metric;
    if n > 0 {
      FlatIsMetrics(g, cells, h, k, n - 1);
      assert cells[..n][..n - 1] == cells[..n - 1];
    }
  }

  /** Stores the data of the parameter at `h`. */
  method CopyData(store: Store, cells: seq<seq<byte>>, code: nat, length: byte,
      ghost g: Page, ghost h: nat, ghost k: nat)
    requires Reading(g, cells, h, k) && Known(g, h) && k * ATTRIBUTE >= length
    requires code == Code(g, h) && length == Length(g, h)
    modifies store
    ensures Filled(g, h) && store.writes == old(store.writes) + [DataWrite(g, h)]
  {
    hide Offset, Metric, Metrics;
    var n := (length + ATTRIBUTE - 1) / ATTRIBUTE;
    FlatIsMetrics(g, cells, h, k, n);
    store.Copy(Offset(code) + PARAMETER_HEADER, Flat(cells[..n])[..CopyLength(code, length)]);
  }

  lemma WritesNext(g: Page, ps: seq<Parameter>, p: Parameter)
    requires Sound(g, ps) && Sound(g, ps + [p])
    ensures p == (ps + [p])[|ps|] && Writes(g, ps + [p]) == Writes(g, ps) + ParameterWrites(g, p)
  {
    hide Known, Filled, ParameterWrites;
    assert p == (ps + [p])[|ps|];
    assert (ps + [p])[..|ps|] == ps;
  }

  lemma HeaderStored(g: Page, ps: seq<Parameter>, h: nat)
    requires Sound(g, ps) && Accepted(g) && Chain(g, ps + [Parameter(h, false)])
    ensures h + PARAMETER_HEADER <= GBUF_SIZE && Sound(g, ps + [Parameter(h, false)])
    ensures Writes(g, ps + [Parameter(h, false)]) == Writes(g, ps) + if Known(g, h) then [HeaderWrite(g, h)] else []
  {
    hide Known, HeaderWrite, Filled;
    assert (ps + [Parameter(h, false)])[|ps|].at == h;
    ChainSound(g, ps + [Parameter(h, false)]);
    WritesNext(g, ps, Parameter(h, false));
  }

  /** The state at the head of the loop */
  ghost predicate Walking(g: Page, ps: seq<Parameter>, isHeader: bool, pageOffset: nat, cells: seq<seq<byte>>, k: nat)
  {
    && Accepted(g) && Chain(g, ps)
    && if isHeader then
         if ps == [] then pageOffset == PAGE_HEADER else
         var p := ps[|ps| - 1];
         pageOffset == Following(g, p.at) && p.copied == Known(g, p.at)
       else
         && ps != []
         && var p := ps[|ps| - 1];
            && !p.copied && Known(g, p.at) && pageOffset == Position(p.at, k) && Reading(g, cells, p.at, k)
            && forall j: nat :: j < k ==> !Terminator(g, p.at, j)
  }

  lemma ChainNext(g: Page, ps: seq<Parameter>, h: nat, cells: seq<seq<byte>>, k: nat)
    requires Walking(g, ps, true, h, cells, k) && h < Limit(g)
    ensures Chain(g, ps + [Parameter(h, false)]) && h + PARAMETER_HEADER <= GBUF_SIZE && h >= PAGE_HEADER
  {
    hide Known, Ends;
  }

  lemma ChainCopied(g: Page, ps: seq<Parameter>)
    requires Accepted(g) && Chain(g, ps) && ps != [] && Known(g, ps[|ps| - 1].at) && Ends(g, ps[|ps| - 1].at)
    ensures Chain(g, ps[|ps| - 1 := ps[|ps| - 1].(copied := true)])
  {
    hide Known, Following, Ends;
  }

  /** Storing the data of the last parameter completes what is stored for it. */
  lemma ChainBack(g: Page, ps: seq<Parameter>)
    requires Sound(g, ps) && ps != [] && !ps[|ps| - 1].copied && Known(g, ps[|ps| - 1].at) && Filled(g, ps[|ps| - 1].at)
    ensures var ps' := ps[|ps| - 1 := ps[|ps| - 1].(copied := true)];
      Sound(g, ps') && Writes(g, ps') == Writes(g, ps) + [DataWrite(g, ps[|ps| - 1].at)]
  {
    hide Known, Filled, DataWrite, HeaderWrite;
    var before, p := ps[..|ps| - 1], ps[|ps| - 1];
    assert before + [p] == ps;
    assert before + [p.(copied := true)] == ps[|ps| - 1 := p.(copied := true)];
    WritesNext(g, before, p);
    WritesNext(g, before, p.(copied := true));
  }

  /** Reads the header at `pageOffset`; false if the parameter is unknown. */
  method ReadHeader(g: Page, store: Store, pageOffset: nat) returns (code: nat, length: byte, known: bool)
    requires pageOffset + PARAMETER_HEADER <= GBUF_SIZE
    modifies store
    ensures code == Code(g, pageOffset) && length == Length(g, pageOffset) && known == Known(g, pageOffset)
    ensures store.writes == old(store.writes) + if known then [HeaderWrite(g, pageOffset)] else []
  {
    hide Offset;
    code, length := (g[pageOffset] as int) * 256 + g[pageOffset + 1], g[pageOffset + 3];
    if code > LAST_CODE {
      return code, length, false;
    }
    store.Copy(Offset(code), [g[pageOffset + 1], g[pageOffset], g[pageOffset + 2], g[pageOffset + 3]]);
    known := true;
  }

  /** The log signature is wrong: the first metric of the first parameter, behind its
      status byte, is not that of a FARM log. */
  predicate BadSignature(g: Page) {
    PageLength(g) > 0 && Known(g, PAGE_HEADER) && g[8] == 0xc0 && Metric(g, 8) != SIGNATURE
  }

  /** The metric at `p`: its status byte is checked and stripped, a metric without it
      counts as zero. */
  method NextMetric(g: Page, p: nat) returns (status: bool, m: seq<byte>)
    requires p + ATTRIBUTE <= GBUF_SIZE
    ensures status == (g[p] == 0xc0) && m == Metric(g, p)
  {
    var currentMetric := ReadMetric(g, p);
    status := currentMetric[7] == 0xc0;
    if status {
      currentMetric[7] := 0;
    } else {
      currentMetric := new byte[ATTRIBUTE](_ => 0);
    }
    m := currentMetric[..];
    assert m[7] == 0;
  }

  /** The next metric of the current parameter does not end it. */
  lemma ReadingNext(g: Page, ps: seq<Parameter>, pageOffset: nat, cells: seq<seq<byte>>, k: nat)
    requires Walking(g, ps, false, pageOffset, cells, k) && k < |cells| && pageOffset + ATTRIBUTE <= GBUF_SIZE
    requires g[pageOffset] == 0xc0 || k * ATTRIBUTE < Length(g, ps[|ps| - 1].at)
    ensures Walking(g, ps, false, pageOffset + ATTRIBUTE, cells[k := Metric(g, pageOffset)], k + 1)
  {
    hide Metric, Known, Chain;
  }

  lemma HeaderRead(g: Page, ps: seq<Parameter>, h: nat, cells: seq<seq<byte>>, k: nat)
    requires Walking(g, ps, true, h, cells, k) && h < Limit(g)
    ensures var ps' := ps + [Parameter(h, false)];
      && h + PARAMETER_HEADER <= GBUF_SIZE && Chain(g, ps')
      && if Known(g, h) then Walking(g, ps', false, h + PARAMETER_HEADER, cells, 0)
         else Walking(g, ps', true, Following(g, h), cells, k)
    ensures h >= PAGE_HEADER && (ps != [] ==> h >= PAGE_HEADER + PARAMETER_HEADER)
  {
    hide Known, Metric, Terminator;
    ChainNext(g, ps, h, cells, k);
  }

  lemma ParameterEnds(g: Page, ps: seq<Parameter>, pageOffset: nat, cells: seq<seq<byte>>, k: nat)
    requires Walking(g, ps, false, pageOffset, cells, k) && Terminator(g, ps[|ps| - 1].at, k)
    ensures var p := ps[|ps| - 1];
      var ps' := ps[|ps| - 1 := Parameter(p.at, true)];
      Reading(g, cells, p.at, k) && Chain(g, ps') && Walking(g, ps', true, Following(g, p.at), cells, k)
  {
    hide Known, Chain, Metric, Reading, Terminator;
    ChainCopied(g, ps);
  }

  lemma PageEnds(g: Page, ps: seq<Parameter>, isHeader: bool, pageOffset: nat, cells: seq<seq<byte>>, k: nat)
    requires Walking(g, ps, isHeader, pageOffset, cells, k) && pageOffset >= Limit(g)
    requires !isHeader ==> k > 0
    ensures Chain(g, ps) && Complete(g, ps)
  {
    hide Known, Chain, Metric;
  }

  /** The end of a call of `scsiReadFarmLog`: true, false, or a read behind the buffer */
  datatype Outcome = Done | Failed | PastBuffer

  method ReadFarmLog(sensed: bool, g: Page, store: Store) returns (r: Outcome, ghost ps: seq<Parameter>)
    requires store.writes == []
    modifies store
    ensures r == Failed <==> !sensed || !Accepted(g) || BadSignature(g)
    ensures r != Failed ==>
              Chain(g, ps) && Sound(g, ps) && store.writes == [Write(0, [g[0], g[1], g[3], g[2]])] + Writes(g, ps)
    ensures r == Done ==> Complete(g, ps) && !Overruns(g)
    ensures r == PastBuffer ==> Overrun(g, ps) && Overruns(g) && PageLength(g) > LAST_SAFE
  {
    hide Metric, Writes, Known, DataWrite, HeaderWrite, Chain, Complete, Sound, Walking, Terminator, Code, Length, Ends,
      Overruns, Overrun, Filled, Reading, Offset, Zeros, FirstInside;
    ps := [];
    if !sensed {
      return Failed, ps;
    }
    store.Copy(0, [g[0], g[1], g[3], g[2]]);
    if PageLength(g) + PAGE_HEADER + ATTRIBUTE > GBUF_SIZE {
      return Failed, ps;
    }
    var isParameterHeader := true;
    var currentParameter := new seq<byte>[GBUF_SIZE / ATTRIBUTE](_ => []);
    var currentMetricIndex: nat := 0;
    var dataStart: nat := 0;
    var code: nat, length: byte := 0, 0;
    var pageOffset: nat := PAGE_HEADER;
    ghost var h := 0;
    NoWrites(g, currentParameter[..]);
    while pageOffset < Limit(g)
      invariant Walking(g, ps, isParameterHeader, pageOffset, currentParameter[..], currentMetricIndex)
      invariant Accepted(g) && Chain(g, ps) && Sound(g, ps)
      invariant isParameterHeader ==> pageOffset >= PAGE_HEADER
      invariant ps == [] ==> isParameterHeader && pageOffset == PAGE_HEADER
      invariant ps != [] ==> PageLength(g) > 0 && !BadSignature(g)
      invariant !isParameterHeader ==>
                  && ps != [] && h == ps[|ps| - 1].at && !ps[|ps| - 1].copied && currentMetricIndex > 0
                  && PAGE_HEADER <= h < Limit(g) && Known(g, h)
                  && code == Code(g, h) && length == Length(g, h) && dataStart == h + PARAMETER_HEADER
      invariant store.writes == [Write(0, [g[0], g[1], g[3], g[2]])] + Writes(g, ps)
      decreases Limit(g) - (if isParameterHeader then pageOffset else h), isParameterHeader, Limit(g) - pageOffset
    {
      ghost var cells := currentParameter[..];
      if isParameterHeader {
        HeaderRead(g, ps, pageOffset, cells, currentMetricIndex);
        HeaderStored(g, ps, pageOffset);
        var known;
        code, length, known := ReadHeader(g, store, pageOffset);
        h := pageOffset;
        ps := ps + [Parameter(h, false)];
        if !known {
          pageOffset := pageOffset + PARAMETER_HEADER + length - ATTRIBUTE + ATTRIBUTE;
          continue;
        }
        pageOffset := pageOffset + PARAMETER_HEADER;
        dataStart := pageOffset;
        isParameterHeader := false;
        currentMetricIndex := 0;
      }
      InPage(g, ps, pageOffset, cells, currentMetricIndex);
      if pageOffset + ATTRIBUTE > GBUF_SIZE {
        return PastBuffer, ps;
      }
      var status, currentMetric := NextMetric(g, pageOffset);
      if status {
        if pageOffset == PAGE_HEADER + PARAMETER_HEADER && currentMetric != SIGNATURE {
          return Failed, ps;
        }
      } else if length <= currentMetricIndex * ATTRIBUTE {
        ParameterEnds(g, ps, pageOffset, cells, currentMetricIndex);
        isParameterHeader := true;
        pageOffset := dataStart + length - ATTRIBUTE;
        CopyData(store, currentParameter[..], code, length, g, h, currentMetricIndex);
        ChainBack(g, ps);
        ps := ps[|ps| - 1 := Parameter(h, true)];
        pageOffset := pageOffset + ATTRIBUTE;
        continue;
      }
      ReadingNext(g, ps, pageOffset, cells, currentMetricIndex);
      currentParameter[currentMetricIndex] := currentMetric;
      assert currentParameter[..] == cells[currentMetricIndex := currentMetric];
      currentMetricIndex := currentMetricIndex + 1;
      pageOffset := pageOffset + ATTRIBUTE;
    }
    PageEnds(g, ps, isParameterHeader, pageOffset, currentParameter[..], currentMetricIndex);
    CompleteNoOverrun(g, ps);
    r := Done;
  }

  /** The metric to be read is in the buffer unless it is the first of its parameter, and
      there is room for it. */
  lemma InPage(g: Page, ps: seq<Parameter>, pageOffset: nat, cells: seq<seq<byte>>, k: nat)
    requires Walking(g, ps, false, pageOffset, cells, k)
    requires (k == 0 || pageOffset < Limit(g)) && |cells| == GBUF_SIZE / ATTRIBUTE
    ensures k < |cells| && pageOffset == Position(ps[|ps| - 1].at, k)
    ensures pageOffset + ATTRIBUTE > GBUF_SIZE ==> Overrun(g, ps) && Overruns(g) && PageLength(g) > LAST_SAFE
    ensures pageOffset + ATTRIBUTE <= GBUF_SIZE && k * ATTRIBUTE >= Length(g, ps[|ps| - 1].at) && g[pageOffset] != 0xc0
            ==> Terminator(g, ps[|ps| - 1].at, k)
  {
    hide Metric, Known, Ends, Following;
  }

  lemma NoWrites(g: Page, cells: seq<seq<byte>>)
    ensures Sound(g, []) && Writes(g, []) == []
    ensures Accepted(g) ==> Chain(g, []) && Walking(g, [], true, PAGE_HEADER, cells, 0)
  {
  }

  lemma {:induction false} MetricsAt(g: Page, h: nat, n: nat, i: nat, b: nat)
    requires Position(h, n) <= GBUF_SIZE && i < n && b < ATTRIBUTE
    ensures Metrics(g, h, n)[i * ATTRIBUTE + b] == Metric(g, Position(h, i))[b]
  {
    hide Metric;
    if i < n - 1 {
      MetricsAt(g, h, n - 1, i, b);
    }
  }

  /** Every byte stored for a parameter is a byte of its own data: byte `b` of metric `i`
      in reverse order, or zero where the metric has no status byte. */
  lemma OwnDataOnly(g: Page, h: nat, i: nat, b: nat)
    requires Filled(g, h) && Known(g, h) && b < ATTRIBUTE
    requires i * ATTRIBUTE + b < |DataWrite(g, h).data|
    ensures var q := Position(h, i);
      && q + ATTRIBUTE <= Position(h, Needed(g, h))
      && DataWrite(g, h).data[i * ATTRIBUTE + b] == if g[q] == 0xc0 && b < 7 then g[q + 7 - b] else 0
  {
    hide Metrics, Offset, Metric;
    MetricsAt(g, h, Needed(g, h), i, b);
    MetricByte(g, Position(h, i), b);
  }

  lemma MetricByte(g: Page, p: nat, b: nat)
    requires p + ATTRIBUTE <= GBUF_SIZE && b < ATTRIBUTE
    ensures Metric(g, p)[b] == if g[p] == 0xc0 && b < 7 then g[p + 7 - b] else 0
  {
  }
}
