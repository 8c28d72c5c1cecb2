/**
  The text of the lines of a hex dump (lib/hexdump.cpp): how a line is put together in
  its buffer, and that reading the text back loses nothing.
 */
module HexdumpText {
  import opened Bytes
  import opened Text
  import opened Words
  import opened Hexdump

  // ---------------------------------------------------------------------
  // The text of an event

  /** `%02x` */
  function Hex2(b: byte): string { [HexDigit(b / 16), HexDigit(b % 16)] }

  /** `%llx` */
  function HexNumber(x: nat): (s: string)
    ensures |s| == HexLength(x)
  {
    if x < 16 then [HexDigit(x)] else HexNumber(x / 16) + [HexDigit(x % 16)]
  }

  function Repeat(c: char, n: nat): (s: string)
    ensures |s| == n && forall i :: 0 <= i < n ==> s[i] == c
  {
    if n == 0 then "" else Repeat(c, n - 1) + [c]
  }

  /** `%0*llx` */
  function Padded(width: nat, x: nat): string {
    if HexLength(x) < width then Repeat('0', width - HexLength(x)) + HexNumber(x) else HexNumber(x)
  }

  /** `%.40s` of the prefix, behind the newline that the last line has left out */
  function Start(o: Options, lead: bool): string {
    (if lead then "\n" else "") + if |o.prefix| > 40 then o.prefix[..40] else o.prefix
  }

  function Eol(o: Options): string { if o.noTrailingNl then "" else "\n" }

  function Separator(o: Options, bi: nat): string {
    if bi == 0 then "" else if o.hex2Columns && bi == 8 then "  " else " "
  }

  function HexText(o: Options, bytes: seq<byte>): string {
    if bytes == [] then "" else
    HexText(o, bytes[..|bytes| - 1]) + Separator(o, |bytes| - 1) + Hex2(bytes[|bytes| - 1])
  }

  function GapSize(o: Options, n: nat): nat
    requires n <= BLOCK_SIZE
  {
    2 + if n < BLOCK_SIZE then (BLOCK_SIZE - n) * 3 + (if o.hex2Columns && n <= 8 then 1 else 0) else 0
  }

  function Printable(b: byte): char { if 0x20 <= b <= 0x7e then b as char else '.' }

  function Ascii(bytes: seq<byte>): (s: string)
    ensures |s| == |bytes|
  {
    if bytes == [] then "" else Ascii(bytes[..|bytes| - 1]) + [Printable(bytes[|bytes| - 1])]
  }

  function AsciiText(o: Options, bytes: seq<byte>): string
    requires |bytes| <= BLOCK_SIZE
  {
    if o.addAscii then Repeat(' ', GapSize(o, |bytes|)) + "|" + Ascii(bytes) + "|" else ""
  }

  function OffsetText(offset: Offset, behind: string): string {
    if offset.Offset? then Padded(offset.width, offset.value) + behind else ""
  }

  predicate Fits(e: Event) {
    match e
    case Line(_, offset, bytes) => 0 < |bytes| <= BLOCK_SIZE && (offset.Offset? ==> offset.width <= 16)
    case Star(_) => true
    case End(_, offset) => offset.Offset? && offset.width <= 16
  }

  function Render(o: Options, e: Event): string
    requires Fits(e)
  {
    match e
    case Line(lead, offset, bytes) =>
      Start(o, lead) + OffsetText(offset, "  ") + HexText(o, bytes) + AsciiText(o, bytes) + Eol(o)
    case Star(lead) => Start(o, lead) + "*" + Eol(o)
    case End(lead, offset) => Start(o, lead) + OffsetText(offset, "") + Eol(o)
  }

  // ---------------------------------------------------------------------
  // The line buffer

  const LINE_SIZE := 40 + 16 + 2 + BLOCK_SIZE * 3 + 2 + 1 + BLOCK_SIZE + 2 + 1 + 13

  /** `snprintf` into the rest of the buffer */
  method Put(line: array<char>, ci: nat, s: string) returns (ci': nat)
    requires line.Length == LINE_SIZE && ci + |s| < LINE_SIZE
    modifies line
    ensures ci' == ci + |s| && line[..ci'] == old(line[..ci]) + s
  {
    for i := 0 to |s|
      invariant line[..ci + i] == old(line[..ci]) + s[..i]
    {
      line[ci + i] := s[i];
    }
    ci' := ci + |s|;
  }

  lemma {:induction false} HexTextSize(o: Options, bytes: seq<byte>)
    requires bytes != []
    ensures |HexText(o, bytes)| == 3 * |bytes| - 1 + (if o.hex2Columns && |bytes| > 8 then 1 else 0)
  {
    hide Hex2;
    Hex2Size(bytes[|bytes| - 1]);
    if |bytes| > 1 {
      HexTextSize(o, bytes[..|bytes| - 1]);
    } else {
      assert HexText(o, bytes[..0]) == "";
    }
  }

  lemma Hex2Size(b: byte)
    ensures |Hex2(b)| == 2
  {
  }

  /** Any number of 64 bits has at most 16 digits. */
  lemma NumberSize(width: nat, x: u64)
    requires width <= 16
    ensures |Padded(width, x)| <= 16
  {
    hide HexNumber;
    DigitsOf64(x);
  }

  lemma DigitsOf64(x: u64)
    ensures HexLength(x) <= 16
  {
    assert Power16(2) == 0x100 && Power16(4) == 0x1_0000 && Power16(8) == 0x1_0000_0000;
    assert Power16(12) == 0x1_0000_0000_0000;
    assert Power16(16) == U64;
    DigitsBound(x, 16, U64);
  }

  lemma {:induction false} DigitsBound(x: nat, n: nat, bound: nat)
    requires n > 0 && bound == Power16(n) && x < bound
    ensures HexLength(x) <= n
  {
    if n > 1 && x >= 16 {
      assert Power16(n) == 16 * Power16(n - 1);
      DigitsBound(x / 16, n - 1, Power16(n - 1));
    }
  }

  function Power16(n: nat): nat { if n == 0 then 1 else 16 * Power16(n - 1) }

  /** The hex column: the loop over the bytes of a block */
  method PutHex(line: array<char>, ci0: nat, o: Options, bytes: seq<byte>) returns (ci: nat)
    requires line.Length == LINE_SIZE && ci0 <= 59 && 0 < |bytes| <= BLOCK_SIZE
    modifies line
    ensures ci == ci0 + |HexText(o, bytes)| < LINE_SIZE && line[..ci] == old(line[..ci0]) + HexText(o, bytes)
  {
    hide HexText, Hex2, Separator;
    ci := ci0;
    NoHexText(o);
    assert bytes[..0] == [];
    var bi := 0;
    while bi < |bytes| && ci + 4 + 4 < LINE_SIZE
      invariant bi <= |bytes| && ci == ci0 + |HexText(o, bytes[..bi])| <= ci0 + 3 * bi + 1
      invariant line[..ci] == old(line[..ci0]) + HexText(o, bytes[..bi])
      decreases |bytes| - bi
    {
      HexTextNext(o, bytes, bi);
      if bi > 0 {
        HexTextSize(o, bytes[..bi]);
      }
      HexTextSize(o, bytes[..bi + 1]);
      ci := Put(line, ci, Separator(o, bi) + Hex2(bytes[bi]));
      bi := bi + 1;
    }
    assert bytes[..|bytes|] == bytes;
  }

  lemma NoHexText(o: Options)
    ensures HexText(o, []) == ""
  {
  }

  lemma HexTextNext(o: Options, bytes: seq<byte>, bi: nat)
    requires bi < |bytes|
    ensures HexText(o, bytes[..bi + 1]) == HexText(o, bytes[..bi]) + (Separator(o, bi) + Hex2(bytes[bi]))
  {
    hide Hex2, Separator;
    assert bytes[..bi + 1][..bi] == bytes[..bi];
    assert |bytes[..bi + 1]| - 1 == bi;
  }

  method PutSpaces(line: array<char>, ci0: nat, spc: nat) returns (ci: nat)
    requires line.Length == LINE_SIZE && ci0 + spc + 5 < LINE_SIZE
    modifies line
    ensures ci == ci0 + spc && line[..ci] == old(line[..ci0]) + Repeat(' ', spc)
  {
    ci := ci0;
    var bi := 0;
    while bi < spc && ci + 1 + 4 < LINE_SIZE
      invariant bi <= spc && ci == ci0 + bi
      invariant line[..ci] == old(line[..ci0]) + Repeat(' ', bi)
      decreases spc - bi
    {
      line[ci] := ' ';
      ci, bi := ci + 1, bi + 1;
    }
  }

  method PutPrintable(line: array<char>, ci0: nat, bytes: seq<byte>) returns (ci: nat)
    requires line.Length == LINE_SIZE && ci0 + |bytes| + 4 < LINE_SIZE
    modifies line
    ensures ci == ci0 + |bytes| && line[..ci] == old(line[..ci0]) + Ascii(bytes)
  {
    hide Printable;
    ci := ci0;
    NoAscii();
    assert bytes[..0] == [];
    var bi := 0;
    while bi < |bytes| && ci + 1 + 3 < LINE_SIZE
      invariant bi <= |bytes| && ci == ci0 + bi
      invariant line[..ci] == old(line[..ci0]) + Ascii(bytes[..bi])
      decreases |bytes| - bi
    {
      assert bytes[..bi + 1][..bi] == bytes[..bi];
      line[ci] := Printable(bytes[bi]);
      ci, bi := ci + 1, bi + 1;
    }
    assert bytes[..|bytes|] == bytes;
  }

  /** The gap and the ASCII column */
  method PutAscii(line: array<char>, ci0: nat, o: Options, bytes: seq<byte>) returns (ci: nat)
    requires line.Length == LINE_SIZE && 0 < |bytes| <= BLOCK_SIZE && o.addAscii
    requires ci0 + GapSize(o, |bytes|) + |bytes| + 8 < LINE_SIZE
    modifies line
    ensures ci == ci0 + |AsciiText(o, bytes)| < LINE_SIZE && line[..ci] == old(line[..ci0]) + AsciiText(o, bytes)
  {
    hide Ascii, Repeat, AsciiText;
    var spc := 2;
    if |bytes| < BLOCK_SIZE {
      spc := spc + (BLOCK_SIZE - |bytes|) * 3 + (if o.hex2Columns && |bytes| <= 8 then 1 else 0);
    }
    ghost var before := line[..ci0];
    AsciiJoined(o, bytes, before);
    ci := PutSpaces(line, ci0, spc);
    ci := Put(line, ci, "|");
    ci := PutPrintable(line, ci, bytes);
    ci := Put(line, ci, "|");
  }

  lemma AsciiJoined(o: Options, bytes: seq<byte>, before: string)
    requires |bytes| <= BLOCK_SIZE && o.addAscii
    ensures before + AsciiText(o, bytes) == before + Repeat(' ', GapSize(o, |bytes|)) + "|" + Ascii(bytes) + "|"
    ensures |AsciiText(o, bytes)| == GapSize(o, |bytes|) + |bytes| + 2
  {
    hide Repeat, Ascii, GapSize;
  }

  lemma NoAscii()
    ensures Ascii([]) == ""
  {
  }

  /** Puts a line together; the buffer is always large enough. */
  method FormatLine(o: Options, lead: bool, offset: Offset, bytes: seq<byte>) returns (text: string)
    requires Fits(Line(lead, offset, bytes))
    ensures text == Render(o, Line(lead, offset, bytes))
  {
    hide Padded, HexText, AsciiText;
    var line := new char[LINE_SIZE](_ => '\0');
    assert line[..0] == "";
    var ci := Put(line, 0, Start(o, lead));
    if offset.Offset? {
      NumberSize(offset.width, offset.value);
      ci := Put(line, ci, Padded(offset.width, offset.value) + "  ");
    }
    assert line[..ci] == Start(o, lead) + OffsetText(offset, "  ");
    HexTextSize(o, bytes);
    ci := PutHex(line, ci, o, bytes);
    if o.addAscii {
      AsciiSize(o, bytes);
      ci := PutAscii(line, ci, o, bytes);
    } else {
      AsciiSize(o, bytes);
    }
    ci := Put(line, ci, Eol(o));
    text := line[..ci];
  }

  lemma AsciiSize(o: Options, bytes: seq<byte>)
    requires 0 < |bytes| <= BLOCK_SIZE
    ensures o.addAscii ==> |AsciiText(o, bytes)| == GapSize(o, |bytes|) + |bytes| + 2
    ensures !o.addAscii ==> AsciiText(o, bytes) == ""
    ensures |HexText(o, bytes)| + GapSize(o, |bytes|) <= 52
  {
    hide HexText;
    HexTextSize(o, bytes);
  }

  // ---------------------------------------------------------------------
  // Reading a line back

  predicate IsHex(c: char) { '0' <= c <= '9' || 'a' <= c <= 'f' }

  function HexValue(c: char): (x: nat)
    requires IsHex(c)
    ensures x < 16
  {
    if c <= '9' then (c - '0') as nat else 10 + (c - 'a') as nat
  }

  /** The hex digits at the front */
  function HexDigits(s: string): (n: nat)
    ensures n <= |s| && forall i :: 0 <= i < n ==> IsHex(s[i])
  {
    if s != "" && IsHex(s[0]) then 1 + HexDigits(s[1..]) else 0
  }

  function HexRead(s: string): nat
    requires forall i :: 0 <= i < |s| ==> IsHex(s[i])
  {
    if s == "" then 0 else 16 * HexRead(s[..|s| - 1]) + HexValue(s[|s| - 1])
  }

  /** Another byte follows behind the first `n`. */
  predicate Continues(o: Options, s: string, n: nat) {
    var sep := Separator(o, n);
    StartsWith(s, sep) && |sep| < |s| && IsHex(s[|sep|])
  }

  /** The bytes of the hex column from byte `n` on */
  function ParseBytes(o: Options, s: string, n: nat): seq<byte>
  {
    if |s| < 2 || !IsHex(s[0]) || !IsHex(s[1]) then [] else
    var b := 16 * HexValue(s[0]) + HexValue(s[1]);
    [b] + if Continues(o, s[2..], n + 1) then ParseBytes(o, s[2 + |Separator(o, n + 1)|..], n + 1) else []
  }

  function ToU64(x: nat): u64 { Wrap(x) }

  /** Reads a line; `lead`: it begins with the newline left out before. */
  function ParseEvent(o: Options, lead: bool, text: string): Event {
    var k := |Start(o, lead)|;
    var t := if |text| < k then "" else text[k..];
    if t != "" && t[0] == '*' then Star(lead)
    else if o.offsetMax == 0 then Line(lead, NoOffset, ParseBytes(o, t, 0))
    else
      var n := HexDigits(t);
      var offset := Offset(n, ToU64(HexRead(t[..n])));
      if StartsWith(t[n..], "  ") then Line(lead, offset, ParseBytes(o, t[n + 2..], 0)) else End(lead, offset)
  }

  /** Equal but for the number of digits of the offset */
  predicate SameOffset(a: Offset, b: Offset) { a.Offset? == b.Offset? && (a.Offset? ==> a.value == b.value) }

  predicate Alike(a: Event, b: Event) {
    match a
    case Line(lead, offset, bytes) => b.Line? && b.lead == lead && SameOffset(offset, b.offset) && b.bytes == bytes
    case Star(lead) => b == a
    case End(lead, offset) => b.End? && b.lead == lead && SameOffset(offset, b.offset)
  }

  // Numbers

  lemma DigitRead(x: nat)
    requires x < 16
    ensures IsHex(HexDigit(x)) && HexValue(HexDigit(x)) == x
  {
  }

  lemma {:induction false} NumberRead(x: nat)
    ensures forall i :: 0 <= i < |HexNumber(x)| ==> IsHex(HexNumber(x)[i])
    ensures HexRead(HexNumber(x)) == x
  {
    hide HexDigit, IsHex, HexValue;
    DigitRead(x % 16);
    var s := HexNumber(x);
    if x >= 16 {
      NumberRead(x / 16);
      assert s[..|s| - 1] == HexNumber(x / 16);
    } else {
      assert s[..0] == "";
    }
  }

  lemma {:induction false} ZerosRead(n: nat, s: string)
    requires forall i :: 0 <= i < |s| ==> IsHex(s[i])
    ensures forall i :: 0 <= i < n + |s| ==> IsHex((Repeat('0', n) + s)[i])
    ensures HexRead(Repeat('0', n) + s) == HexRead(s)
    decreases |s|, n
  {
    hide HexValue;
    var t := Repeat('0', n) + s;
    ZeroDigit();
    if s != "" {
      ZerosRead(n, s[..|s| - 1]);
      assert t[..|t| - 1] == Repeat('0', n) + s[..|s| - 1];
    } else if n > 0 {
      ZerosRead(n - 1, "");
      assert t[..|t| - 1] == Repeat('0', n - 1) + "";
    }
  }

  lemma ZeroDigit()
    ensures IsHex('0') && HexValue('0') == 0
  {
  }

  lemma PaddedRead(width: nat, x: nat)
    ensures var p := Padded(width, x); p != "" && (forall i :: 0 <= i < |p| ==> IsHex(p[i])) && HexRead(p) == x
  {
    hide HexNumber, HexRead, Repeat, IsHex;
    NumberRead(x);
    if HexLength(x) < width {
      ZerosRead(width - HexLength(x), HexNumber(x));
    }
  }

  lemma {:induction false} DigitsEnd(s: string, rest: string)
    requires (forall i :: 0 <= i < |s| ==> IsHex(s[i])) && (rest == "" || !IsHex(rest[0]))
    ensures HexDigits(s + rest) == |s|
  {
    hide IsHex;
    if s == "" {
      assert s + rest == rest;
    } else {
      assert (s + rest)[1..] == s[1..] + rest;
      DigitsEnd(s[1..], rest);
    }
  }

  // The hex column

  /** The column from byte `n` on, byte by byte from the front */
  function HexFrom(o: Options, bytes: seq<byte>, n: nat): string {
    if bytes == [] then ""
    else Hex2(bytes[0]) + if |bytes| == 1 then "" else Separator(o, n + 1) + HexFrom(o, bytes[1..], n + 1)
  }

  lemma {:induction false} HexFromNext(o: Options, bytes: seq<byte>, b: byte, n: nat)
    requires bytes != []
    ensures HexFrom(o, bytes + [b], n) == HexFrom(o, bytes, n) + (Separator(o, n + |bytes|) + Hex2(b))
  {
    hide Hex2, Separator;
    var t := bytes + [b];
    if |bytes| == 1 {
      assert t[1..] == [b];
      assert HexFrom(o, [b], n + 1) == Hex2(b);
    } else {
      assert t[1..] == bytes[1..] + [b];
      HexFromNext(o, bytes[1..], b, n + 1);
    }
  }

  lemma {:induction false} HexTextIs(o: Options, bytes: seq<byte>)
    ensures HexText(o, bytes) == HexFrom(o, bytes, 0)
  {
    hide Hex2;
    if |bytes| == 1 {
      assert HexText(o, bytes[..0]) == "";
    } else if |bytes| > 1 {
      var before := bytes[..|bytes| - 1];
      HexTextIs(o, before);
      HexFromNext(o, before, bytes[|bytes| - 1], 0);
      assert before + [bytes[|bytes| - 1]] == bytes;
    }
  }

  lemma Hex2Read(b: byte)
    ensures var s := Hex2(b); |s| == 2 && IsHex(s[0]) && IsHex(s[1]) && 16 * HexValue(s[0]) + HexValue(s[1]) == b
  {
    hide IsHex, HexValue, HexDigit;
    DigitRead(b / 16);
    DigitRead(b % 16);
  }

  /** The front of the hex column: one byte, and the separator if there are more */
  lemma HexFront(o: Options, bytes: seq<byte>, n: nat, tail: string)
    requires bytes != []
    ensures var s := HexFrom(o, bytes, n) + tail;
      && |s| >= 2 && IsHex(s[0]) && IsHex(s[1]) && 16 * HexValue(s[0]) + HexValue(s[1]) == bytes[0]
      && s[2..] == if |bytes| == 1 then tail else Separator(o, n + 1) + (HexFrom(o, bytes[1..], n + 1) + tail)
  {
    hide IsHex, HexValue, Hex2, Separator;
    Hex2Read(bytes[0]);
    var s := HexFrom(o, bytes, n) + tail;
    assert s[0] == Hex2(bytes[0])[0] && s[1] == Hex2(bytes[0])[1];
  }

  lemma SeparatorContinues(o: Options, n: nat, more: string)
    requires more != "" && IsHex(more[0])
    ensures Continues(o, Separator(o, n) + more, n)
    ensures (Separator(o, n) + more)[|Separator(o, n)|..] == more
  {
    hide IsHex, Separator;
  }

  lemma ParseOn(o: Options, s: string, n: nat, more: string)
    requires |s| >= 2 && IsHex(s[0]) && IsHex(s[1]) && more != "" && IsHex(more[0])
    requires s[2..] == Separator(o, n + 1) + more
    ensures ParseBytes(o, s, n) == [16 * HexValue(s[0]) + HexValue(s[1])] + ParseBytes(o, more, n + 1)
  {
    hide IsHex, HexValue, Separator, Continues;
    SeparatorContinues(o, n + 1, more);
    var k := |Separator(o, n + 1)|;
    assert s[2 + k..] == s[2..][k..];
  }

  lemma ParseLast(o: Options, s: string, n: nat)
    requires |s| >= 2 && IsHex(s[0]) && IsHex(s[1]) && !Continues(o, s[2..], n + 1)
    ensures ParseBytes(o, s, n) == [16 * HexValue(s[0]) + HexValue(s[1])]
  {
    hide IsHex, HexValue, Separator, Continues;
  }

  lemma {:induction false} ParseHex(o: Options, bytes: seq<byte>, n: nat, tail: string)
    requires bytes != [] && !Continues(o, tail, n + |bytes|)
    ensures ParseBytes(o, HexFrom(o, bytes, n) + tail, n) == bytes
  {
    hide IsHex, HexValue, Separator, HexFrom, Continues, ParseBytes;
    var s := HexFrom(o, bytes, n) + tail;
    HexFront(o, bytes, n, tail);
    assert bytes == [bytes[0]] + bytes[1..];
    if |bytes| == 1 {
      ParseLast(o, s, n);
    } else {
      HexFront(o, bytes[1..], n + 1, tail);
      ParseOn(o, s, n, HexFrom(o, bytes[1..], n + 1) + tail);
      ParseHex(o, bytes[1..], n + 1, tail);
    }
  }

  /** The columns behind the hex column do not look like another byte. */
  lemma TailEnds(o: Options, bytes: seq<byte>)
    requires 0 < |bytes| <= BLOCK_SIZE
    ensures !Continues(o, AsciiText(o, bytes) + Eol(o), |bytes|)
  {
    hide Ascii, Repeat;
    var tail, n := AsciiText(o, bytes) + Eol(o), |bytes|;
    if o.addAscii {
      var spaces := Repeat(' ', GapSize(o, n));
      assert forall i :: 0 <= i < |spaces| ==> tail[i] == spaces[i] == ' ';
      assert n == 8 && o.hex2Columns ==> GapSize(o, n) > 2;
    }
  }

  lemma ParseEnd(o: Options, lead: bool, offset: Offset)
    requires Fits(End(lead, offset)) && o.offsetMax != 0
    ensures Alike(ParseEvent(o, lead, Render(o, End(lead, offset))), End(lead, offset))
  {
    hide Start, Padded, ParseBytes, IsHex, HexRead, HexDigits, Eol, ToU64;
    var start, digits := Start(o, lead), Padded(offset.width, offset.value);
    assert Render(o, End(lead, offset)) == start + (digits + Eol(o)) by {
      assert digits + "" == digits;
    }
    assert (start + (digits + Eol(o)))[|start|..] == digits + Eol(o);
    EolEnds(o);
    NumberLine(offset, Eol(o));
  }

  lemma ParsePlainLine(o: Options, lead: bool, bytes: seq<byte>)
    requires Fits(Line(lead, NoOffset, bytes)) && o.offsetMax == 0
    ensures ParseEvent(o, lead, Render(o, Line(lead, NoOffset, bytes))) == Line(lead, NoOffset, bytes)
  {
    hide Start, HexText, AsciiText, ParseBytes, IsHex, HexRead, Eol, HexFrom;
    var start, tail := Start(o, lead), AsciiText(o, bytes) + Eol(o);
    var hex := HexText(o, bytes) + tail;
    assert Render(o, Line(lead, NoOffset, bytes)) == start + hex;
    assert (start + hex)[|start|..] == hex;
    HexColumn(o, bytes);
  }

  lemma HexColumn(o: Options, bytes: seq<byte>)
    requires 0 < |bytes| <= BLOCK_SIZE
    ensures var hex := HexText(o, bytes) + (AsciiText(o, bytes) + Eol(o));
      hex != "" && hex[0] != '*' && ParseBytes(o, hex, 0) == bytes
  {
    hide HexText, AsciiText, ParseBytes, Eol, HexFrom, Continues;
    TailEnds(o, bytes);
    HexTextIs(o, bytes);
    HexStarts(o, bytes);
    ParseHex(o, bytes, 0, AsciiText(o, bytes) + Eol(o));
  }

  lemma OffsetLineText(o: Options, lead: bool, offset: Offset, bytes: seq<byte>)
    requires Fits(Line(lead, offset, bytes)) && offset.Offset?
    ensures Render(o, Line(lead, offset, bytes)) == Start(o, lead)
            + (Padded(offset.width, offset.value) + ("  " + (HexText(o, bytes) + (AsciiText(o, bytes) + Eol(o)))))
  {
    hide Start, Padded, HexText, AsciiText, Eol;
  }

  /** A line behind its start: digits, two spaces, and the hex column */
  lemma ParseBehindStart(o: Options, lead: bool, digits: string, hex: string)
    requires o.offsetMax != 0 && digits + ("  " + hex) != "" && (digits + ("  " + hex))[0] != '*'
    requires HexDigits(digits + ("  " + hex)) == |digits| && forall i :: 0 <= i < |digits| ==> IsHex(digits[i])
    ensures ParseEvent(o, lead, Start(o, lead) + (digits + ("  " + hex)))
         == Line(lead, Offset(|digits|, ToU64(HexRead(digits))), ParseBytes(o, hex, 0))
  {
    hide Start, ParseBytes, IsHex, HexRead, HexDigits, ToU64;
    var start, t := Start(o, lead), digits + ("  " + hex);
    assert (start + t)[|start|..] == t;
    assert t[..|digits|] == digits && t[|digits|..] == "  " + hex;
    assert ("  " + hex)[..2] == "  ";
    assert t[|digits| + 2..] == hex;
  }

  lemma ParseOffsetLine(o: Options, lead: bool, offset: Offset, bytes: seq<byte>)
    requires Fits(Line(lead, offset, bytes)) && offset.Offset? && o.offsetMax != 0
    ensures Alike(ParseEvent(o, lead, Render(o, Line(lead, offset, bytes))), Line(lead, offset, bytes))
  {
    hide Start, Padded, HexText, AsciiText, ParseBytes, IsHex, HexRead, HexDigits, Eol, ToU64, Render, ParseEvent;
    var digits := Padded(offset.width, offset.value);
    var hex := HexText(o, bytes) + (AsciiText(o, bytes) + Eol(o));
    OffsetLineText(o, lead, offset, bytes);
    SpaceEnds(hex);
    NumberLine(offset, "  " + hex);
    HexColumn(o, bytes);
    ParseBehindStart(o, lead, digits, hex);
  }

  /** A printed line reads as the event that it shows. */
  lemma ParseRender(o: Options, e: Event)
    requires Fits(e) && (e.Star? || (e.offset.Offset? <==> o.offsetMax != 0))
    ensures Alike(ParseEvent(o, e.lead, Render(o, e)), e)
  {
    hide Render, ParseEvent;
    match e
    case Star(lead) => ParseStar(o, lead);
    case End(lead, offset) => ParseEnd(o, lead, offset);
    case Line(lead, offset, bytes) =>
      if o.offsetMax == 0 {
        ParsePlainLine(o, lead, bytes);
      } else {
        ParseOffsetLine(o, lead, offset, bytes);
      }
  }

  lemma ParseStar(o: Options, lead: bool)
    ensures ParseEvent(o, lead, Render(o, Star(lead))) == Star(lead)
  {
    hide Start, ParseBytes, IsHex, HexRead, Eol;
    var start := Start(o, lead);
    assert Render(o, Star(lead))[|start|..] == "*" + Eol(o);
  }

  lemma NumberLine(offset: Offset, rest: string)
    requires offset.Offset? && (rest == "" || !IsHex(rest[0]))
    ensures var digits := Padded(offset.width, offset.value);
      var t := digits + rest;
      && t != "" && t[0] != '*' && HexDigits(t) == |digits| && t[..|digits|] == digits && t[|digits|..] == rest
      && (forall i :: 0 <= i < |digits| ==> IsHex(digits[i]))
      && ToU64(HexRead(digits)) == offset.value
  {
    hide Padded, HexRead;
    PaddedRead(offset.width, offset.value);
    DigitsEnd(Padded(offset.width, offset.value), rest);
  }

  lemma EolEnds(o: Options)
    ensures (Eol(o) == "" || !IsHex(Eol(o)[0])) && !StartsWith(Eol(o), "  ")
  {
  }

  lemma SpaceEnds(s: string)
    ensures !IsHex(("  " + s)[0])
  {
  }

  lemma HexStarts(o: Options, bytes: seq<byte>)
    requires bytes != []
    ensures HexFrom(o, bytes, 0) != "" && HexFrom(o, bytes, 0)[0] != '*'
  {
    hide HexValue, Hex2, Separator;
    Hex2Read(bytes[0]);
    assert HexFrom(o, bytes, 0)[0] == Hex2(bytes[0])[0];
  }

  // ---------------------------------------------------------------------
  // The text of a whole dump

  predicate AllFit(o: Options, es: seq<Event>) {
    forall i :: 0 <= i < |es| ==> Fits(es[i]) && (es[i].Star? || (es[i].offset.Offset? <==> o.offsetMax != 0))
  }

  /** The text of every event */
  function Texts(o: Options, es: seq<Event>): (r: seq<string>)
    requires AllFit(o, es)
    ensures |r| == |es|
  {
    if es == [] then [] else Texts(o, es[..|es| - 1]) + [Render(o, es[|es| - 1])]
  }

  /** Reads the text of a dump: every line but the first has the newline that the one
      before it has left out. */
  function UndumpTexts(o: Options, texts: seq<string>): seq<byte> {
    if texts == [] then [] else
    var d := UndumpTexts(o, texts[..|texts| - 1]);
    Read(o, d, ParseEvent(o, o.noTrailingNl && d != [], texts[|texts| - 1]))
  }

  /** A line has a leading newline exactly if bytes have been printed before it. */
  ghost predicate Leads(o: Options, es: seq<Event>) {
    forall i :: 0 <= i < |es| ==> es[i].lead == (o.noTrailingNl && Undump(o, es[..i]) != [])
  }

  lemma ReadAlike(o: Options, d: seq<byte>, a: Event, b: Event)
    requires Alike(a, b)
    ensures Read(o, d, a) == Read(o, d, b)
  {
  }

  lemma {:induction false} UndumpTextsIs(o: Options, es: seq<Event>)
    requires AllFit(o, es) && Leads(o, es)
    ensures UndumpTexts(o, Texts(o, es)) == Undump(o, es)
  {
    hide Read, ParseEvent, Render, Fits, Alike;
    if es != [] {
      var before, e := es[..|es| - 1], es[|es| - 1];
      forall i | 0 <= i < |before|
        ensures before[i].lead == (o.noTrailingNl && Undump(o, before[..i]) != [])
      {
        assert before[..i] == es[..i];
        assert before[i] == es[i];
      }
      UndumpTextsIs(o, before);
      assert es[|before|] == e;
      ParseRender(o, e);
      ReadAlike(o, Undump(o, before), ParseEvent(o, e.lead, Render(o, e)), e);
    }
  }

  lemma {:induction false} RefillGrows(d: seq<byte>, size: nat)
    ensures |Refill(d, size)| >= |d|
    decreases size - |d|
  {
    if !(|d| < BLOCK_SIZE || size < |d| + BLOCK_SIZE) {
      RefillGrows(d + d[|d| - BLOCK_SIZE..], size);
    }
  }

  lemma ReadGrows(o: Options, d: seq<byte>, e: Event)
    ensures |Read(o, d, e)| >= |d| + if e.Line? then |e.bytes| else 0
  {
    hide Refill;
    if !e.Star? && e.offset.Offset? {
      RefillGrows(d, Position(o, e.offset));
    }
  }

  lemma LeadsNext(o: Options, es: seq<Event>, e: Event)
    requires Leads(o, es) && e.lead == (o.noTrailingNl && Undump(o, es) != [])
    ensures Leads(o, es + [e])
  {
    forall i | 0 <= i < |es| + 1
      ensures (es + [e])[i].lead == (o.noTrailingNl && Undump(o, (es + [e])[..i]) != [])
    {
      if i < |es| {
        assert (es + [e])[..i] == es[..i];
      } else {
        assert (es + [e])[..i] == es;
      }
    }
  }

  predicate GoodWidth(o: Options, width: nat) { width <= 16 && (width == 0 <==> o.offsetMax == 0) }

  lemma WidthIsGood(o: Options, size: nat)
    ensures GoodWidth(o, Width(o, size))
  {
  }

  lemma NextEvent(o: Options, es: seq<Event>, e: Event)
    requires AllFit(o, es) && Leads(o, es) && Fits(e) && (e.Star? || (e.offset.Offset? <==> o.offsetMax != 0))
    requires e.lead == (o.noTrailingNl && Undump(o, es) != [])
    ensures AllFit(o, es + [e]) && Leads(o, es + [e])
    ensures |Undump(o, es + [e])| >= |Undump(o, es)| + if e.Line? then |e.bytes| else 0
  {
    hide Fits, Leads, Read;
    LeadsNext(o, es, e);
    UndumpSnoc(o, es, e);
    ReadGrows(o, Undump(o, es), e);
  }

  lemma {:induction false} StreamText(o: Options, width: nat, bs: seq<Block>)
    requires GoodWidth(o, width)
    ensures var es := Stream(o, width, bs); AllFit(o, es) && Leads(o, es) && (bs != [] <==> Undump(o, es) != [])
  {
    hide Leads, Repeats, Undump, AllFit;
    if bs == [] {
      NoEvents(o);
    } else {
      StreamText(o, width, Before(bs));
      var es := Stream(o, width, Before(bs));
      if !Repeats(o, bs) {
        NextEvent(o, es, LineAt(o, width, BLOCK_SIZE * (|bs| - 1), bs[|bs| - 1]));
      } else if Repeats(o, Before(bs)) {
        assert es + [] == es;
        RepeatsTwo(o, bs);
      } else {
        RepeatsTwo(o, bs);
        NextEvent(o, es, Star(o.noTrailingNl));
      }
    }
  }

  lemma NoEvents(o: Options)
    ensures AllFit(o, []) && Leads(o, []) && Undump(o, []) == []
  {
  }

  lemma RepeatsTwo(o: Options, bs: seq<Block>)
    requires Repeats(o, bs)
    ensures |bs| >= 2 && Before(bs) != []
  {
  }

  lemma DumpText(o: Options, width: nat, d: seq<byte>)
    requires GoodWidth(o, width) && |d| < U64
    ensures AllFit(o, Dump(o, width, d)) && Leads(o, Dump(o, width, d))
  {
    hide Leads, Repeats, Undump, AllFit, Stream;
    var (bs, rest) := Split(d);
    FlattenSplit(d);
    FlattenSize(bs);
    StreamText(o, width, bs);
    var es := Lines(o, width, bs, rest);
    if rest != [] {
      NextEvent(o, Stream(o, width, bs), LineAt(o, width, BLOCK_SIZE * |bs|, rest));
    } else if !Appends(o) && Repeats(o, bs) {
      RepeatsTwo(o, bs);
      StreamText(o, width, Before(bs));
      NextEvent(o, Stream(o, width, Before(bs)), LineAt(o, width, BLOCK_SIZE * (|bs| - 1), bs[|bs| - 1]));
    }
    assert Undump(o, es) != [] <==> d != [];
    if Appends(o) {
      NextEvent(o, es, EndAt(o, width, |d|)[0]);
    } else {
      assert es + [] == es;
    }
  }

  /** Main result: the printed text alone gives back every byte of the data, if the lines
      show offsets or no block is skipped. */
  lemma TextNothingLost(o: Options, width: nat, d: seq<byte>)
    requires GoodWidth(o, width) && |d| < U64
    requires o.offsetMax != 0 || o.skipIdentical == 0
    ensures AllFit(o, Dump(o, width, d)) && UndumpTexts(o, Texts(o, Dump(o, width, d))) == d
  {
    hide AllFit, Leads, Undump, Dump;
    DumpText(o, width, d);
    UndumpTextsIs(o, Dump(o, width, d));
    NothingLost(o, width, d);
  }

  /** In particular for what `Hexdump.DumpChunks` writes, whatever the chunks. */
  lemma ChunksText(o: Options, chunks: seq<seq<byte>>)
    requires |Flatten(chunks)| < U64 && (o.offsetMax != 0 || o.skipIdentical == 0)
    ensures var es := Dump(o, Width(o, FirstSize(chunks)), Flatten(chunks));
      AllFit(o, es) && UndumpTexts(o, Texts(o, es)) == Flatten(chunks)
  {
    hide Width, AllFit;
    WidthIsGood(o, FirstSize(chunks));
    TextNothingLost(o, Width(o, FirstSize(chunks)), Flatten(chunks));
  }
}
