/**
  The line ends of a hex dump (lib/hexdump.cpp): every line but perhaps the last ends with
  one, and the option without a final line end leaves out nothing else.
 */
module HexdumpLines {
  import opened Bytes
  import opened Text
  import opened Words
  import opened Hexdump
  import opened HexdumpText

  /** What is printed for some events */
  function AllText(o: Options, es: seq<Event>): string
    requires AllFit(o, es)
  {
    if es == [] then "" else AllText(o, es[..|es| - 1]) + Render(o, es[|es| - 1])
  }

  /** A line without any line end: as it is printed alone and with no final one */
  function Bare(o: Options, e: Event): string
    requires Fits(e)
  {
    Render(o.(noTrailingNl := true), e.(lead := false))
  }

  /** The lines, each with a line end behind it */
  function Ended(o: Options, es: seq<Event>): string
    requires AllFit(o, es)
  {
    if es == [] then "" else Ended(o, es[..|es| - 1]) + Bare(o, es[|es| - 1]) + "\n"
  }

  /** Every event but the first prints the line end that the one before it has left out. */
  predicate Led(o: Options, es: seq<Event>) {
    forall i :: 0 <= i < |es| ==> es[i].lead == (o.noTrailingNl && i > 0)
  }

  lemma {:induction false} StreamLed(o: Options, width: nat, bs: seq<Block>)
    ensures Led(o, Stream(o, width, bs)) && (Stream(o, width, bs) == [] <==> bs == [])
  {
    hide Repeats;
    if bs != [] {
      StreamLed(o, width, Before(bs));
      if Repeats(o, bs) {
        RepeatsTwo(o, bs);
      }
    }
  }

  lemma DumpLed(o: Options, width: nat, d: seq<byte>)
    ensures Led(o, Dump(o, width, d))
  {
    hide Repeats, Stream;
    var (bs, rest) := Split(d);
    FlattenSplit(d);
    FlattenSize(bs);
    StreamLed(o, width, bs);
    if Repeats(o, bs) {
      RepeatsTwo(o, bs);
      StreamLed(o, width, Before(bs));
    }
  }

  lemma {:induction false} SameHex(o: Options, bytes: seq<byte>)
    ensures HexText(o.(noTrailingNl := true), bytes) == HexText(o, bytes)
  {
    hide Hex2;
    if bytes != [] {
      SameHex(o, bytes[..|bytes| - 1]);
    }
  }

  lemma SameAscii(o: Options, bytes: seq<byte>)
    requires |bytes| <= BLOCK_SIZE
    ensures AsciiText(o.(noTrailingNl := true), bytes) == AsciiText(o, bytes)
  {
    hide Repeat, Ascii;
  }

  lemma Around(a: string, b: string, c: string, d: string, e: string, f: string)
    ensures a + b + c + d + e + f == a + (b + c + d + e + "") + f
    ensures a + b + c + f == a + (b + c + "") + f
  {
    assert b + c + d + e + "" == b + c + d + e && b + c + "" == b + c;
  }

  /** The text of an event: the bare line, and the line ends before it and behind it */
  lemma RenderIs(o: Options, e: Event)
    requires Fits(e)
    ensures Render(o, e) == (if e.lead then "\n" else "") + Bare(o, e) + if o.noTrailingNl then "" else "\n"
  {
    hide OffsetText, AsciiText, HexText, Start, Eol;
    var lead := if e.lead then "\n" else "";
    StartIs(o, e.lead);
    match e
    case Line(_, offset, bytes) =>
      SameHex(o, bytes);
      SameAscii(o, bytes);
      Around(lead, Start(o, false), OffsetText(offset, "  "), HexText(o, bytes), AsciiText(o, bytes), Eol(o));
    case Star(_) => Around(lead, Start(o, false), "*", "", "", Eol(o));
    case End(_, offset) => Around(lead, Start(o, false), OffsetText(offset, ""), "", "", Eol(o));
  }

  lemma StartIs(o: Options, lead: bool)
    ensures Start(o, lead) == (if lead then "\n" else "") + Start(o, false)
    ensures Start(o.(noTrailingNl := true), false) == Start(o, false)
    ensures Start(o, false) == if |o.prefix| > 40 then o.prefix[..40] else o.prefix
    ensures Eol(o) == (if o.noTrailingNl then "" else "\n") && Eol(o.(noTrailingNl := true)) == ""
  {
    var prefix := if |o.prefix| > 40 then o.prefix[..40] else o.prefix;
    assert "" + prefix == prefix;
  }

  lemma Middle(a: string, lead: string, b: string)
    ensures lead == "\n" ==> a + (lead + b + "") + "\n" == a + "\n" + b + "\n"
    ensures lead == "" ==> a + (lead + b + "\n") == a + b + "\n"
    ensures a == "" && lead == "" ==> a + (lead + b + "") + "\n" == a + b + "\n"
  {
  }

  lemma {:induction false} EndedIs(o: Options, es: seq<Event>)
    requires AllFit(o, es) && Led(o, es)
    ensures AllText(o, es) + (if o.noTrailingNl && es != [] then "\n" else "") == Ended(o, es)
  {
    hide Render, Bare, Fits;
    if es == [] {
      assert "" + "" == "";
    } else {
      var before, e := es[..|es| - 1], es[|es| - 1];
      EndedIs(o, before);
      RenderIs(o, e);
      Middle(AllText(o, before), if e.lead then "\n" else "", Bare(o, e));
      assert AllText(o, before) + "" == AllText(o, before);
      assert AllText(o, es) + "" == AllText(o, es);
    }
  }

  /** Main result: the printed text of a dump is its lines with a line end behind each one,
      and without the last one if the option says so. */
  lemma LinesEnded(o: Options, width: nat, d: seq<byte>)
    requires GoodWidth(o, width) && |d| < U64
    ensures var es := Dump(o, width, d);
      && AllFit(o, es)
      && AllText(o, es) + (if o.noTrailingNl && es != [] then "\n" else "") == Ended(o, es)
  {
    hide Dump, Leads, AllFit;
    DumpText(o, width, d);
    DumpLed(o, width, d);
    EndedIs(o, Dump(o, width, d));
  }

  // ---------------------------------------------------------------------
  // A line is one line

  predicate OneLine(s: string) { '\n' !in s }

  lemma {:induction false} NumberOneLine(x: nat)
    ensures OneLine(HexNumber(x))
  {
    hide HexDigit;
    DigitOneLine(x % 16);
    if x >= 16 {
      NumberOneLine(x / 16);
    }
  }

  lemma DigitOneLine(x: nat)
    requires x < 16
    ensures HexDigit(x) != '\n'
  {
  }

  lemma {:induction false} HexOneLine(o: Options, bytes: seq<byte>)
    ensures OneLine(HexText(o, bytes))
  {
    hide HexDigit;
    if bytes != [] {
      HexOneLine(o, bytes[..|bytes| - 1]);
      DigitOneLine(bytes[|bytes| - 1] / 16);
      DigitOneLine(bytes[|bytes| - 1] % 16);
    }
  }

  lemma {:induction false} AsciiOneLine(bytes: seq<byte>)
    ensures OneLine(Ascii(bytes))
  {
    if bytes != [] {
      AsciiOneLine(bytes[..|bytes| - 1]);
    }
  }

  /** A bare line begins with the prefix, cut to 40 characters, and has no line end behind it. */
  lemma BareIs(o: Options, e: Event)
    requires Fits(e)
    ensures var k := if |o.prefix| > 40 then 40 else |o.prefix|;
      |Bare(o, e)| >= k && Bare(o, e)[..k] == o.prefix[..k] && OneLine(Bare(o, e)[k..])
  {
    hide OffsetText, AsciiText, HexText, Start, Eol;
    StartIs(o, false);
    var start, p := Start(o, false), o.(noTrailingNl := true);
    match e
    case Line(_, offset, bytes) =>
      ColumnsOneLine(p, offset, bytes);
      Cut(start, OffsetText(offset, "  ") + HexText(p, bytes) + AsciiText(p, bytes), Bare(o, e));
    case Star(_) => Cut(start, "*", Bare(o, e));
    case End(_, offset) =>
      OffsetOneLine(offset, "");
      Cut(start, OffsetText(offset, ""), Bare(o, e));
  }

  lemma Cut(start: string, text: string, bare: string)
    requires bare == start + text || bare == start + text + ""
    ensures |bare| >= |start| && bare[..|start|] == start && bare[|start|..] == text
  {
  }

  lemma OffsetOneLine(offset: Offset, behind: string)
    requires OneLine(behind)
    ensures OneLine(OffsetText(offset, behind))
  {
    hide HexNumber, Repeat;
    if offset.Offset? {
      NumberOneLine(offset.value);
    }
  }

  lemma ColumnsOneLine(o: Options, offset: Offset, bytes: seq<byte>)
    requires |bytes| <= BLOCK_SIZE
    ensures OneLine(OffsetText(offset, "  ") + HexText(o, bytes) + AsciiText(o, bytes))
  {
    hide OffsetText, HexText, Repeat, Ascii, GapSize;
    OffsetOneLine(offset, "  ");
    HexOneLine(o, bytes);
    AsciiOneLine(bytes);
  }
}
