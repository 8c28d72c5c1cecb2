/** The columns of a printed hex dump line (lib/hexdump.cpp). */
module HexdumpLayout {
  import opened Bytes
  import opened Text
  import opened Words
  import opened Hexdump
  import opened HexdumpText

  const DIGITS := "0123456789abcdef"

  function Power16(n: nat): (p: nat)
    ensures p > 0
  {
    if n == 0 then 1 else 16 * Power16(n - 1)
  }

  lemma DigitIs(x: nat)
    requires x < 16
    ensures HexDigit(x) == DIGITS[x]
  {
  }

  // ---------------------------------------------------------------------
  // The offset column

  /** The digit of `x` at column `j` of `w` columns */
  function DigitAt(x: nat, w: nat, j: nat): (d: nat)
    requires j < w
    ensures d < 16
  {
    x / Power16(w - 1 - j) % 16
  }

  lemma {:induction false} LengthBounds(x: nat)
    ensures x < Power16(HexLength(x)) && (HexLength(x) > 1 ==> Power16(HexLength(x) - 1) <= x)
  {
    if x >= 16 {
      LengthBounds(x / 16);
    }
  }

  lemma {:induction false} PowerMonotone(m: nat, n: nat)
    requires m <= n
    ensures Power16(m) <= Power16(n)
  {
    if m < n {
      PowerMonotone(m, n - 1);
    }
  }

  lemma LengthAtMost(x: nat, w: nat)
    requires w > 0 && x < Power16(w)
    ensures HexLength(x) <= w
  {
    hide HexLength, Power16;
    LengthBounds(x);
    if HexLength(x) > w {
      PowerMonotone(w, HexLength(x) - 1);
    }
  }

  lemma {:induction false} NumberDigits(x: nat, j: nat)
    requires j < HexLength(x)
    ensures HexNumber(x)[j] == DIGITS[DigitAt(x, HexLength(x), j)]
  {
    if x < 16 {
      DigitIs(x);
    } else if j == HexLength(x) - 1 {
      DigitIs(x % 16);
    } else {
      NumberDigits(x / 16, j);
      DivTwice(x, Power16(HexLength(x) - 2 - j));
    }
  }

  lemma DivTwice(x: nat, p: nat)
    requires p > 0
    ensures x / 16 / p == x / (16 * p)
  {
    var q := x / 16 / p;
    assert x / 16 == q * p + x / 16 % p;
    QuotientIs(x, 16 * p, q);
  }

  lemma QuotientIs(x: nat, d: nat, q: nat)
    requires d > 0 && q * d <= x < q * d + d
    ensures x / d == q
  {
    var r := x / d;
    assert x == d * r + x % d;
    if r < q {
      Product(r + 1, q, d);
    } else if r > q {
      Product(q + 1, r, d);
    }
  }

  lemma Product(a: int, b: int, d: nat)
    requires a <= b
    ensures a * d <= b * d
  {
  }

  lemma ZeroDigit(x: nat, w: nat, j: nat)
    requires j < w && HexLength(x) <= w && j < w - HexLength(x)
    ensures DigitAt(x, w, j) == 0
  {
    hide HexLength, Power16;
    LengthBounds(x);
    PowerMonotone(HexLength(x), w - 1 - j);
    QuotientIs(x, Power16(w - 1 - j), 0);
  }

  /** An offset that fits in its column fills it: digit by digit in lower case, with zeros
      in front. */
  lemma PaddedColumns(w: nat, x: nat)
    requires w > 0 && x < Power16(w)
    ensures |Padded(w, x)| == w && forall j :: 0 <= j < w ==> Padded(w, x)[j] == DIGITS[DigitAt(x, w, j)]
  {
    hide HexLength, Power16, HexNumber, DigitAt, Repeat;
    LengthAtMost(x, w);
    var n := HexLength(x);
    forall j | 0 <= j < w
      ensures Padded(w, x)[j] == DIGITS[DigitAt(x, w, j)]
    {
      if j < w - n {
        ZeroDigit(x, w, j);
      } else {
        NumberDigits(x, j - (w - n));
        SameDigit(x, n, w, j - (w - n));
      }
    }
  }

  lemma SameDigit(x: nat, n: nat, w: nat, j: nat)
    requires j < n <= w
    ensures DigitAt(x, n, j) == DigitAt(x, w, j + (w - n))
  {
  }

  /** The column is as wide as the largest offset needs, but at least two columns wide if the
      width is automatic. */
  lemma WidthIs(o: Options, size: nat)
    requires o.offsetMax != 0 && o.offsetMin + size < U64
    ensures var largest := if o.offsetMax >= o.offsetMin + size then o.offsetMax else o.offsetMin + size;
      var w := Width(o, size);
      && 0 < w <= 16 && largest < Power16(w)
      && (w > 1 ==> Power16(w - 1) <= largest || (w == 2 && o.offsetMax == 1))
  {
    hide HexLength, Power16;
    var largest := if o.offsetMax >= o.offsetMin + size then o.offsetMax else o.offsetMin + size;
    LengthBounds(largest);
    SixteenDigits();
    LengthAtMost(largest, 16);
    LengthPositive(largest);
    if o.offsetMax == 1 && HexLength(largest) < 2 {
      PowerMonotone(HexLength(largest), 2);
    }
  }

  lemma LengthPositive(x: nat)
    ensures HexLength(x) > 0
  {
  }

  lemma SixteenDigits()
    ensures Power16(16) == U64
  {
    assert Power16(4) == 0x1_0000;
    assert Power16(8) == 0x1_0000_0000;
    assert Power16(12) == 0x1_0000_0000_0000;
  }

  // ---------------------------------------------------------------------
  // The hex column and the ASCII column

  /** Where byte `i` stands in the hex column */
  function HexAt(o: Options, i: nat): nat { 3 * i + if o.hex2Columns && i >= 8 then 1 else 0 }

  /** Where the ASCII column begins behind the hex column, however many bytes there are */
  function AsciiAt(o: Options): nat { 49 + if o.hex2Columns then 1 else 0 }

  lemma {:induction false} HexColumnSize(o: Options, bytes: seq<byte>)
    requires 0 < |bytes| <= BLOCK_SIZE
    ensures |HexText(o, bytes)| == HexAt(o, |bytes| - 1) + 2
  {
    if |bytes| == 1 {
      assert HexText(o, bytes[..0]) == "";
    } else {
      HexColumnSize(o, bytes[..|bytes| - 1]);
    }
  }

  lemma {:induction false} HexColumns(o: Options, bytes: seq<byte>, i: nat)
    requires i < |bytes| <= BLOCK_SIZE
    ensures HexAt(o, i) + 2 <= |HexText(o, bytes)|
    ensures HexText(o, bytes)[HexAt(o, i)] == DIGITS[bytes[i] / 16]
    ensures HexText(o, bytes)[HexAt(o, i) + 1] == DIGITS[bytes[i] % 16]
  {
    HexColumnSize(o, bytes);
    if i == |bytes| - 1 {
      DigitIs(bytes[i] / 16);
      DigitIs(bytes[i] % 16);
      assert HexText(o, bytes)[HexAt(o, i)..] == Hex2(bytes[i]) by {
        if i > 0 {
          HexColumnSize(o, bytes[..i]);
        }
      }
    } else {
      HexColumns(o, bytes[..|bytes| - 1], i);
    }
  }

  /** Between two bytes there are spaces only. */
  lemma {:induction false} HexSpaces(o: Options, bytes: seq<byte>, k: nat)
    requires 0 < |bytes| <= BLOCK_SIZE && k < |HexText(o, bytes)|
    requires forall i :: 0 <= i < |bytes| ==> k != HexAt(o, i) && k != HexAt(o, i) + 1
    ensures HexText(o, bytes)[k] == ' '
  {
    HexColumnSize(o, bytes);
    var n := |bytes| - 1;
    assert k != HexAt(o, n) && k != HexAt(o, n) + 1;
    if n > 0 {
      var before := bytes[..n];
      HexColumnSize(o, before);
      if k < |HexText(o, before)| {
        HexSpaces(o, before, k);
      } else {
        assert HexText(o, bytes)[k] == Separator(o, n)[k - |HexText(o, before)|];
      }
    }
  }

  lemma {:induction false} AsciiColumns(bytes: seq<byte>, i: nat)
    requires i < |bytes|
    ensures Ascii(bytes)[i] == if 0x20 <= bytes[i] < 0x7f then bytes[i] as char else '.'
  {
    if i < |bytes| - 1 {
      AsciiColumns(bytes[..|bytes| - 1], i);
    }
  }

  /** The ASCII column of every line begins at the same place. */
  lemma AsciiAligned(o: Options, bytes: seq<byte>)
    requires 0 < |bytes| <= BLOCK_SIZE
    ensures |HexText(o, bytes)| + GapSize(o, |bytes|) == AsciiAt(o)
  {
    HexColumnSize(o, bytes);
  }

  /** The text behind the start of a line: offset, two spaces, hex column, gap, and the
      ASCII column between bars */
  ghost predicate Columns(o: Options, t: string, w: nat, value: nat, bytes: seq<byte>)
    requires bytes != []
  {
    var hex := if w == 0 then 0 else w + 2;
    && |t| == hex + (if o.addAscii then AsciiAt(o) + |bytes| + 2 else HexAt(o, |bytes| - 1) + 2) + |Eol(o)|
    && (forall j :: 0 <= j < w ==> t[j] == DIGITS[DigitAt(value, w, j)])
    && (w > 0 ==> t[w] == ' ' && t[w + 1] == ' ')
    && HexShown(o, t, hex, bytes)
    && (o.addAscii ==> Bars(o, t, hex + AsciiAt(o), bytes))
  }

  ghost predicate HexShown(o: Options, t: string, at: nat, bytes: seq<byte>) {
    forall i :: 0 <= i < |bytes| ==>
      && at + HexAt(o, i) + 1 < |t|
      && t[at + HexAt(o, i)] == DIGITS[bytes[i] / 16] && t[at + HexAt(o, i) + 1] == DIGITS[bytes[i] % 16]
  }

  ghost predicate Bars(o: Options, t: string, at: nat, bytes: seq<byte>) {
    && at + |bytes| + 2 <= |t| && t[at] == '|' && t[at + 1 + |bytes|] == '|'
    && forall i :: 0 <= i < |bytes| ==>
         t[at + 1 + i] == if 0x20 <= bytes[i] < 0x7f then bytes[i] as char else '.'
  }

  /** A printed line has these columns. */
  lemma LineColumns(o: Options, lead: bool, offset: Offset, bytes: seq<byte>)
    requires Fits(Line(lead, offset, bytes))
    requires offset.Offset? ==> offset.width > 0 && offset.value < Power16(offset.width)
    ensures var text, k := Render(o, Line(lead, offset, bytes)), |Start(o, lead)|;
      && k <= |text| && text[..k] == Start(o, lead)
      && (if offset.Offset? then Columns(o, text[k..], offset.width, offset.value, bytes)
          else Columns(o, text[k..], 0, 0, bytes))
  {
    hide Start, OffsetText, HexText, AsciiText, Eol, DigitAt, Power16, HexAt, AsciiAt, Bars, HexShown, GapSize;
    var number := OffsetText(offset, "  ");
    var hex, ascii := HexText(o, bytes), AsciiText(o, bytes);
    var t := number + hex + ascii + Eol(o);
    assert Render(o, Line(lead, offset, bytes)) == Start(o, lead) + t;
    assert Render(o, Line(lead, offset, bytes))[|Start(o, lead)|..] == t;
    OffsetShown(offset, hex + ascii + Eol(o));
    assert t == number + (hex + ascii + Eol(o));
    HexColumnSize(o, bytes);
    ByteShown(o, number, bytes, ascii + Eol(o));
    assert t == number + hex + (ascii + Eol(o));
    AsciiShown(o, number + hex, bytes, Eol(o));
    if o.addAscii {
      AsciiAligned(o, bytes);
    }
  }

  lemma OffsetShown(offset: Offset, rest: string)
    requires offset.Offset? ==> offset.width > 0 && offset.value < Power16(offset.width)
    ensures var t := OffsetText(offset, "  ") + rest;
      if offset.Offset? then
        var w := offset.width;
        && |OffsetText(offset, "  ")| == w + 2 && t[w] == ' ' && t[w + 1] == ' '
        && forall j :: 0 <= j < w ==> t[j] == DIGITS[DigitAt(offset.value, w, j)]
      else OffsetText(offset, "  ") == ""
  {
    hide Padded, DigitAt, Power16;
    if offset.Offset? {
      PaddedColumns(offset.width, offset.value);
    }
  }

  lemma ByteShown(o: Options, front: string, bytes: seq<byte>, end: string)
    requires 0 < |bytes| <= BLOCK_SIZE
    ensures HexShown(o, front + HexText(o, bytes) + end, |front|, bytes)
  {
    hide HexText, HexAt;
    var hex := HexText(o, bytes);
    var t := front + hex + end;
    forall i | 0 <= i < |bytes|
      ensures |front| + HexAt(o, i) + 1 < |t|
      ensures t[|front| + HexAt(o, i)] == DIGITS[bytes[i] / 16]
      ensures t[|front| + HexAt(o, i) + 1] == DIGITS[bytes[i] % 16]
    {
      HexColumns(o, bytes, i);
    }
  }

  lemma AsciiShown(o: Options, front: string, bytes: seq<byte>, end: string)
    requires 0 < |bytes| <= BLOCK_SIZE
    ensures |AsciiText(o, bytes)| == if o.addAscii then GapSize(o, |bytes|) + |bytes| + 2 else 0
    ensures o.addAscii ==> Bars(o, front + AsciiText(o, bytes) + end, |front| + GapSize(o, |bytes|), bytes)
  {
    hide GapSize, Repeat, Ascii;
    if o.addAscii {
      var gap := Repeat(' ', GapSize(o, |bytes|));
      var t := front + AsciiText(o, bytes) + end;
      assert t == front + gap + "|" + Ascii(bytes) + "|" + end;
      forall i | 0 <= i < |bytes|
        ensures t[|front| + |gap| + 1 + i] == if 0x20 <= bytes[i] < 0x7f then bytes[i] as char else '.'
      {
        AsciiColumns(bytes, i);
      }
    }
  }
}
