/**
  Where the parameters of the FARM log are stored: the sections of `scsiFarmLog` in
  include/smartmon/farmcmds.h, one behind the other.
 */
module FarmLayout {
  import opened Bytes
  import opened FarmLog

  // ---------------------------------------------------------------------
  // The sections of the structure, in their order

  /** Eight single ones, 47 by head, and three for each of four actuators */
  const SECTIONS := 67

  /** The parameter that section `i` is for */
  function CodeOf(i: nat): nat
    requires i < SECTIONS
  {
    if i < 8 then i
    else if i < 34 then 0x10 + (i - 8)
    else if i < 40 then 0x30 + (i - 34)
    else if i < 55 then 0x40 + (i - 40)
    else if i < 58 then 0x50 + (i - 55)
    else if i < 61 then 0x60 + (i - 58)
    else if i < 64 then 0x70 + (i - 61)
    else 0x80 + (i - 64)
  }

  function SectionSize(i: nat): nat
    requires i < SECTIONS
  {
    if i < 8 then [76, 252, 148, 236, 212, 236, 108, 68][i]
    else if i < 55 then BY_HEAD
    else [BY_ACTUATOR, BY_ACTUATOR_FLED, BY_ACTUATOR_REALLOCATION][(i - 55) % 3]
  }

  function Place(i: nat): nat
    requires i <= SECTIONS
  {
    if i == 0 then PAGE_HEADER else Place(i - 1) + SectionSize(i - 1)
  }

  predicate HasSection(code: nat) {
    code < 0x8 || 0x10 <= code < 0x2a || 0x30 <= code < 0x36 || 0x40 <= code < 0x4f
    || 0x50 <= code < 0x53 || 0x60 <= code < 0x63 || 0x70 <= code < 0x73 || 0x80 <= code < 0x83
  }

  function IndexOf(code: nat): (i: nat)
    requires HasSection(code)
    ensures i < SECTIONS && CodeOf(i) == code
  {
    if code < 0x8 then code
    else if code < 0x2a then code - 0x10 + 8
    else if code < 0x36 then code - 0x30 + 34
    else if code < 0x4f then code - 0x40 + 40
    else if code < 0x53 then code - 0x50 + 55
    else if code < 0x63 then code - 0x60 + 58
    else if code < 0x73 then code - 0x70 + 61
    else code - 0x80 + 64
  }

  lemma CodeOfHasSection(i: nat)
    requires i < SECTIONS
    ensures HasSection(CodeOf(i)) && IndexOf(CodeOf(i)) == i
  {
  }

  lemma FirstPlace()
    ensures Offset(CodeOf(0)) == PAGE_HEADER
  {
  }

  /** Each section begins where the one before it ends. */
  lemma NextOffset(i: nat)
    requires i + 1 < SECTIONS
    ensures Offset(CodeOf(i + 1)) == Offset(CodeOf(i)) + SectionSize(i)
  {
  }

  lemma LastOffset()
    ensures Offset(CodeOf(SECTIONS - 1)) + SectionSize(SECTIONS - 1) == LOG_SIZE
  {
  }

  /** A parameter with a section is stored in it: the sections follow each other without
      gaps and fill the structure. */
  lemma {:induction false} OffsetIsPlace(i: nat)
    requires i < SECTIONS
    ensures Offset(CodeOf(i)) == Place(i) && Place(SECTIONS) == LOG_SIZE
  {
    hide Offset, SectionSize, CodeOf;
    PlaceIs(i);
    PlaceIs(SECTIONS - 1);
    LastOffset();
  }

  lemma {:induction false} PlaceIs(i: nat)
    requires i < SECTIONS
    ensures Offset(CodeOf(i)) == Place(i)
  {
    hide Offset, SectionSize, CodeOf;
    if i == 0 {
      FirstPlace();
    } else {
      PlaceIs(i - 1);
      NextOffset(i - 1);
    }
  }

  lemma {:induction false} PlacesGrow(i: nat, j: nat)
    requires i < j <= SECTIONS
    ensures Place(i) + SectionSize(i) <= Place(j)
  {
    hide SectionSize;
    if i + 1 < j {
      PlacesGrow(i, j - 1);
    }
  }

  function Size(code: nat): nat
    requires HasSection(code)
  {
    SectionSize(IndexOf(code))
  }

  /** The places of different parameters are disjoint. */
  lemma SectionsDisjoint(c: nat, d: nat)
    requires HasSection(c) && HasSection(d) && c != d
    ensures Offset(c) + Size(c) <= Offset(d) || Offset(d) + Size(d) <= Offset(c)
    ensures Offset(c) >= PAGE_HEADER && Offset(c) + Size(c) <= LOG_SIZE
  {
    hide Offset, SectionSize, CodeOf, IndexOf;
    var i, j := IndexOf(c), IndexOf(d);
    OffsetIsPlace(i);
    OffsetIsPlace(j);
    PlacesGrow(i, SECTIONS);
    PlacesPositive(i);
    if i < j {
      PlacesGrow(i, j);
    } else {
      PlacesGrow(j, i);
    }
  }

  lemma {:induction false} PlacesPositive(i: nat)
    requires i <= SECTIONS
    ensures Place(i) >= PAGE_HEADER
  {
    if i > 0 {
      PlacesPositive(i - 1);
    }
  }

  // ---------------------------------------------------------------------
  // Parameters without a section

  /** Whose place a parameter without a section gets */
  function Borrowed(code: nat): nat
    requires code < LAST_CODE && !HasSection(code)
  {
    if code < 0x50 then 0x10 else if code < 0x60 then 0x60 else if code < 0x70 then 0x70 else 0x80
  }

  /** Such a parameter is stored over the first one by head or the next actuator, and over
      no other; the last code is stored behind the structure. */
  lemma BorrowedPlace(code: nat)
    requires code <= LAST_CODE && !HasSection(code)
    ensures if code == LAST_CODE then Offset(code) == LOG_SIZE
            else HasSection(Borrowed(code)) && Offset(code) == Offset(Borrowed(code))
                 && forall d :: HasSection(d) && Offset(d) == Offset(code) ==> d == Borrowed(code)
  {
    BorrowedOffset(code);
    if code != LAST_CODE {
      forall d | HasSection(d) && Offset(d) == Offset(code)
        ensures d == Borrowed(code)
      {
        if d != Borrowed(code) {
          SectionsDisjoint(d, Borrowed(code));
          SizePositive(d);
          SizePositive(Borrowed(code));
        }
      }
    }
  }

  lemma BorrowedOffset(code: nat)
    requires code <= LAST_CODE && !HasSection(code)
    ensures if code == LAST_CODE then Offset(code) == LOG_SIZE
            else HasSection(Borrowed(code)) && Offset(code) == Offset(Borrowed(code))
  {
  }

  lemma SizePositive(code: nat)
    requires HasSection(code)
    ensures Size(code) > 0
  {
  }

  // ---------------------------------------------------------------------
  // A whole walk

  /** The parameter at `h` has a section, and its data fit in it. */
  predicate InSection(g: Page, h: nat)
    requires h + PARAMETER_HEADER <= GBUF_SIZE
  {
    HasSection(Code(g, h)) && PARAMETER_HEADER + Length(g, h) <= Size(Code(g, h))
  }

  /** All that is stored for such a parameter lies in its section. */
  lemma WritesInSection(g: Page, p: Parameter)
    requires p.at + PARAMETER_HEADER <= GBUF_SIZE && (p.copied ==> Known(g, p.at) && Filled(g, p.at))
    requires InSection(g, p.at)
    ensures Known(g, p.at)
    ensures p.copied ==> |DataWrite(g, p.at).data| == Length(g, p.at)
    ensures var c := Code(g, p.at);
      forall w :: w in ParameterWrites(g, p) ==> Offset(c) <= w.offset && w.offset + |w.data| <= Offset(c) + Size(c)
  {
    hide Offset, SectionSize, Metrics, HasSection, IndexOf;
    var c := Code(g, p.at);
    SectionKnown(c);
    if p.copied {
      DataLength(g, p.at);
    }
  }

  lemma SectionKnown(code: nat)
    requires HasSection(code)
    ensures code < LAST_CODE && Offset(code) + Size(code) <= LOG_SIZE
  {
    hide Offset, SectionSize, CodeOf, IndexOf;
    var i := IndexOf(code);
    OffsetIsPlace(i);
    PlacesGrow(i, SECTIONS);
  }

  lemma DataLength(g: Page, h: nat)
    requires Filled(g, h) && InSection(g, h) && Known(g, h)
    ensures |DataWrite(g, h).data| == Length(g, h)
  {
    hide Offset, SectionSize, Metrics, HasSection, IndexOf;
    SectionKnown(Code(g, h));
  }

  /** What is stored for two different parameters shares no byte. */
  lemma StoresDisjoint(g: Page, p: Parameter, q: Parameter, v: Write, w: Write)
    requires p.at + PARAMETER_HEADER <= GBUF_SIZE && (p.copied ==> Known(g, p.at) && Filled(g, p.at))
    requires q.at + PARAMETER_HEADER <= GBUF_SIZE && (q.copied ==> Known(g, q.at) && Filled(g, q.at))
    requires InSection(g, p.at) && InSection(g, q.at) && Code(g, p.at) != Code(g, q.at)
    requires v in ParameterWrites(g, p) && w in ParameterWrites(g, q)
    ensures v.offset + |v.data| <= w.offset || w.offset + |w.data| <= v.offset
  {
    hide Offset, SectionSize, Metrics, HasSection, IndexOf, ParameterWrites, Code;
    WritesInSection(g, p);
    WritesInSection(g, q);
    SectionsDisjoint(Code(g, p.at), Code(g, q.at));
  }

  predicate Covers(w: Write, a: nat) { w.offset <= a < w.offset + |w.data| }

  /** The byte at address `a` of the structure, which is zero at first, after the writes */
  function ByteAt(ws: seq<Write>, a: nat): byte {
    if ws == [] then 0
    else if Covers(ws[|ws| - 1], a) then ws[|ws| - 1].data[a - ws[|ws| - 1].offset]
    else ByteAt(ws[..|ws| - 1], a)
  }

  lemma {:induction false} ByteAtConcat(v: seq<Write>, w: seq<Write>, a: nat)
    ensures (forall x :: x in w ==> !Covers(x, a)) ==> ByteAt(v + w, a) == ByteAt(v, a)
  {
    hide Covers;
    if w == [] {
      assert v + w == v;
    } else {
      assert (v + w)[..|v + w| - 1] == v + w[..|w| - 1];
      assert w[|w| - 1] in w;
      ByteAtConcat(v, w[..|w| - 1], a);
    }
  }

  /** Every parameter of the walk that is not skipped fits in its section. */
  predicate Tame(g: Page, ps: seq<Parameter>)
    requires Sound(g, ps)
  {
    forall i :: 0 <= i < |ps| && Known(g, ps[i].at) ==> InSection(g, ps[i].at)
  }

  /** After the writes the structure holds the header of the parameter at `h`, and its data
      if they have been stored. */
  ghost predicate Held(ws: seq<Write>, g: Page, p: Parameter)
    requires p.at + PARAMETER_HEADER <= GBUF_SIZE && Known(g, p.at) && (p.copied ==> Filled(g, p.at))
  {
    var at := Offset(Code(g, p.at));
    && ByteAt(ws, at) + 256 * ByteAt(ws, at + 1) == Code(g, p.at)
    && ByteAt(ws, at + 2) == g[p.at + 2] && ByteAt(ws, at + 3) == Length(g, p.at)
    && (p.copied ==> DataHeld(ws, at + PARAMETER_HEADER, DataWrite(g, p.at).data, Length(g, p.at)))
  }

  ghost predicate DataHeld(ws: seq<Write>, at: nat, data: seq<byte>, length: nat) {
    |data| == length && forall k :: 0 <= k < length ==> ByteAt(ws, at + k) == data[k]
  }

  /** Main result: after a walk whose parameters fit in their sections, the structure holds
      each parameter that does not occur again, undisturbed by all others. */
  lemma {:induction false} ParameterHeld(g: Page, ps: seq<Parameter>, i: nat)
    requires Sound(g, ps) && Tame(g, ps) && i < |ps| && Known(g, ps[i].at)
    requires forall j :: i < j < |ps| ==> Code(g, ps[j].at) != Code(g, ps[i].at)
    ensures Held(Writes(g, ps), g, ps[i])
    decreases |ps|
  {
    hide Offset, HasSection, SectionSize, IndexOf, Metrics, Code, Known, Filled, DataWrite, HeaderWrite, InSection,
      ParameterWrites, Writes, ByteAt;
    var before, p := ps[..|ps| - 1], ps[|ps| - 1];
    assert ps == before + [p];
    WritesNext(g, before, p);
    if i < |ps| - 1 {
      ParameterHeld(g, before, i);
      if Known(g, p.at) {
        OthersKept(Writes(g, before), g, p, before[i]);
      } else {
        NothingStored(g, p);
        assert Writes(g, before) + [] == Writes(g, before);
      }
    } else {
      LastHeld(g, Writes(g, before), p);
    }
  }

  lemma NothingStored(g: Page, p: Parameter)
    requires p.at + PARAMETER_HEADER <= GBUF_SIZE && !Known(g, p.at) && !p.copied
    ensures ParameterWrites(g, p) == []
  {
    hide Known;
  }

  /** A byte of the section of `q` is not touched by what is stored for `p`. */
  lemma NotCovered(g: Page, q: nat, p: Parameter, a: nat)
    requires p.at + PARAMETER_HEADER <= GBUF_SIZE && (p.copied ==> Known(g, p.at) && Filled(g, p.at))
    requires q + PARAMETER_HEADER <= GBUF_SIZE && InSection(g, p.at) && InSection(g, q)
    requires Code(g, p.at) != Code(g, q)
    requires Offset(Code(g, q)) <= a < Offset(Code(g, q)) + Size(Code(g, q))
    ensures forall x :: x in ParameterWrites(g, p) ==> !Covers(x, a)
  {
    hide Offset, SectionSize, Metrics, HasSection, IndexOf, ParameterWrites, Code;
    WritesInSection(g, p);
    SectionsDisjoint(Code(g, p.at), Code(g, q));
  }

  lemma OthersKept(ws: seq<Write>, g: Page, p: Parameter, q: Parameter)
    requires p.at + PARAMETER_HEADER <= GBUF_SIZE && (p.copied ==> Known(g, p.at) && Filled(g, p.at))
    requires q.at + PARAMETER_HEADER <= GBUF_SIZE && (q.copied ==> Filled(g, q.at)) && Known(g, q.at)
    requires InSection(g, p.at) && InSection(g, q.at) && Code(g, p.at) != Code(g, q.at) && Held(ws, g, q)
    ensures Held(ws + ParameterWrites(g, p), g, q)
  {
    hide Offset, HasSection, SectionSize, IndexOf, Metrics, Code, Known, Filled, DataWrite, HeaderWrite, Length,
      ParameterWrites, ByteAt, Covers;
    var at, now := Offset(Code(g, q.at)), ws + ParameterWrites(g, p);
    forall a | at <= a < at + Size(Code(g, q.at))
      ensures ByteAt(now, a) == ByteAt(ws, a)
    {
      NotCovered(g, q.at, p, a);
      ByteAtConcat(ws, ParameterWrites(g, p), a);
    }
  }

  lemma HeaderHeld(ws: seq<Write>, g: Page, p: Parameter)
    requires p.at + PARAMETER_HEADER <= GBUF_SIZE && !p.copied && Known(g, p.at)
    ensures Held(ws + [HeaderWrite(g, p.at)], g, p)
  {
    hide Offset, ByteAt;
    LastByte(ws, HeaderWrite(g, p.at));
    var d := HeaderWrite(g, p.at).data;
    assert d[0] == g[p.at + 1] && d[1] == g[p.at] && d[2] == g[p.at + 2] && d[3] == g[p.at + 3];
  }

  lemma LastHeld(g: Page, ws: seq<Write>, p: Parameter)
    requires p.at + PARAMETER_HEADER <= GBUF_SIZE && (p.copied ==> Filled(g, p.at)) && Known(g, p.at)
    requires InSection(g, p.at)
    ensures Held(ws + ParameterWrites(g, p), g, p)
  {
    hide Offset, HasSection, SectionSize, IndexOf, Metrics, Known, Filled, InSection, ByteAt, HeaderWrite, Code, Length;
    var header := ws + [HeaderWrite(g, p.at)];
    HeaderHeld(ws, g, p.(copied := false));
    if p.copied {
      DataLength(g, p.at);
      var data := DataWrite(g, p.at);
      LastByte(header, data);
      assert ws + ParameterWrites(g, p) == header + [data];
      var at := Offset(Code(g, p.at));
      forall a | at <= a < at + PARAMETER_HEADER
        ensures ByteAt(header + [data], a) == ByteAt(header, a)
      {
        ByteAtConcat(header, [data], a);
      }
    } else {
      assert ws + ParameterWrites(g, p) == header;
    }
  }

  lemma LastByte(ws: seq<Write>, w: Write)
    ensures forall k :: 0 <= k < |w.data| ==> ByteAt(ws + [w], w.offset + k) == w.data[k]
  {
  }

  // ---------------------------------------------------------------------
  // What a stored metric means

  function LittleEndian(b: seq<byte>): nat { if b == [] then 0 else b[0] + 256 * LittleEndian(b[1..]) }

  function BigEndian(b: seq<byte>): nat {
    if b == [] then 0 else 256 * BigEndian(b[..|b| - 1]) + b[|b| - 1]
  }

  function Turned(b: seq<byte>): (r: seq<byte>)
    ensures |r| == |b| && forall i :: 0 <= i < |b| ==> r[i] == b[|b| - 1 - i]
  {
    if b == [] then [] else [b[|b| - 1]] + Turned(b[..|b| - 1])
  }

  lemma {:induction false} TurnedValue(b: seq<byte>)
    ensures LittleEndian(Turned(b)) == BigEndian(b)
  {
    if b != [] {
      TurnedValue(b[..|b| - 1]);
      assert Turned(b)[1..] == Turned(b[..|b| - 1]);
    }
  }

  lemma {:induction false} TrailingZero(b: seq<byte>)
    ensures LittleEndian(b + [0]) == LittleEndian(b)
  {
    if b == [] {
      assert (b + [0])[1..] == [];
    } else {
      assert (b + [0])[1..] == b[1..] + [0];
      TrailingZero(b[1..]);
    }
  }

  /** A stored metric is the big-endian number behind the status byte, or zero. */
  lemma MetricValue(g: Page, p: nat)
    requires p + ATTRIBUTE <= GBUF_SIZE
    ensures LittleEndian(Metric(g, p)) == if g[p] == 0xc0 then BigEndian(g[p + 1..p + ATTRIBUTE]) else 0
  {
    hide LittleEndian, BigEndian, Turned;
    var b := g[p + 1..p + ATTRIBUTE];
    if g[p] == 0xc0 {
      TurnedValue(b);
      TrailingZero(Turned(b));
      assert Metric(g, p) == Turned(b) + [0];
    } else {
      ZeroValue();
    }
  }

  lemma ZeroValue()
    ensures LittleEndian([0, 0, 0, 0, 0, 0, 0, 0]) == 0
  {
    var z: seq<byte> := [];
    TrailingZero(z);
    TrailingZero(z + [0]);
    TrailingZero(z + [0] + [0]);
    TrailingZero(z + [0] + [0] + [0]);
    TrailingZero(z + [0] + [0] + [0] + [0]);
    TrailingZero(z + [0] + [0] + [0] + [0] + [0]);
    TrailingZero(z + [0] + [0] + [0] + [0] + [0] + [0]);
    TrailingZero(z + [0] + [0] + [0] + [0] + [0] + [0] + [0]);
    assert z + [0] + [0] + [0] + [0] + [0] + [0] + [0] + [0] == [0, 0, 0, 0, 0, 0, 0, 0];
  }
}
