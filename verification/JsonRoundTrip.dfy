/** Parsing what the JSON printer prints. */
module JsonRoundTrip {
  import opened Wrappers
  import opened Text
  import opened JsonTree
  import G = JsonGrammar
  import opened JsonText
  import Utf8

  // ---------------------------------------------------------------------
  // What a tree means as a JSON value

  function Units(s: string): (u: seq<G.Unit>)
    ensures |u| == |s|
  {
    if s == "" then [] else [G.Char(s[0])] + Units(s[1..])
  }

  /** What a character becomes: itself, or an informal hex string. */
  predicate Kept(c: char, utf8: bool) { c == '\t' || Printable(c) || (!Ascii(c) && utf8) }

  function ShownChar(c: char, utf8: bool): string {
    if Kept(c, utf8) then [c] else "\\x" + [HexDigit(c as int % 256 / 16)] + [HexDigit(c as int % 16)]
  }

  function Shown(s: string, utf8: bool): string {
    if s == "" then "" else ShownChar(s[0], utf8) + Shown(s[1..], utf8)
  }

  function JsonOf(t: Tree): G.JsonValue
    decreases t, 1, 0
  {
    match t
    case Unset => G.JNull
    case Leaf(v) => JsonOfScalar(v)
    case Obj(fields) => G.JObject(JsonOfFields(t, 0))
    case Arr(items) => G.JArray(JsonOfItems(t, 0))
  }

  function JsonOfScalar(v: Scalar): G.JsonValue {
    match v
    case Bool(b) => G.JBool(b)
    case Int(i) => G.JNumber(i < 0, if i < 0 then -(i as int) else i as int, "", "")
    case UInt(u) => G.JNumber(false, u, "", "")
    case UInt128(hi, lo) => G.JNumber(false, hi * 0x1_0000_0000_0000_0000 + lo, "", "")
    case Str(s) => G.JString(Units(Shown(s, IsUtf8(s))))
  }

  function JsonOfFields(t: Tree, i: nat): seq<G.Member>
    requires t.Obj? && i <= |t.fields|
    decreases t, 0, |t.fields| - i
  {
    if i == |t.fields| then [] else
    [G.Member(Units(t.fields[i].key), JsonOf(t.fields[i].tree))] + JsonOfFields(t, i + 1)
  }

  function JsonOfItems(t: Tree, i: nat): seq<G.JsonValue>
    requires t.Arr? && i <= |t.items|
    decreases t, 0, |t.items| - i
  {
    if i == |t.items| then [] else [JsonOf(t.items[i])] + JsonOfItems(t, i + 1)
  }

  // ---------------------------------------------------------------------
  // Strings

  lemma {:induction false} UnitsOfConcat(a: string, b: string)
    ensures Units(a + b) == Units(a) + Units(b)
  {
    if a == "" {
      assert a + b == b;
    } else {
      assert (a + b)[1..] == a[1..] + b;
      UnitsOfConcat(a[1..], b);
    }
  }

  function PrependAll(u: seq<G.Unit>, r: Option<G.Read<seq<G.Unit>>>): Option<G.Read<seq<G.Unit>>> {
    if r.None? then None else Some(G.Read(u + r.value.value, r.value.rest))
  }

  lemma PrependTwice(u: seq<G.Unit>, w: seq<G.Unit>, r: Option<G.Read<seq<G.Unit>>>)
    ensures PrependAll(u, PrependAll(w, r)) == PrependAll(u + w, r)
    ensures PrependAll([], r) == r
  {
    if r.Some? {
      assert u + (w + r.value.value) == (u + w) + r.value.value;
      assert [] + r.value.value == r.value.value;
    }
  }

  /** Characters that stand for themselves in a JSON string */
  predicate Unescaped(c: char) { c >= ' ' && c != '"' && c != '\\' }

  lemma {:induction false} ParseUnescaped(s: string, rest: string)
    requires forall i :: 0 <= i < |s| ==> Unescaped(s[i])
    ensures G.ParseChars(s + rest) == PrependAll(Units(s), G.ParseChars(rest))
  {
    PrependTwice(if s == "" then [] else [G.Char(s[0])], Units(if s == "" then "" else s[1..]), G.ParseChars(rest));
    if s == "" {
      assert s + rest == rest;
    } else {
      ParseUnescaped(s[1..], rest);
      assert (s + rest)[1..] == s[1..] + rest;
      assert G.ParseChars(s + rest) == PrependAll([G.Char(s[0])], G.ParseChars(s[1..] + rest));
    }
  }

  lemma ParseBackslash(c: char, rest: string)
    requires c == '"' || c == '\\' || c == 't'
    ensures G.ParseChars(['\\', c] + rest) == PrependAll([G.Char(if c == 't' then '\t' else c)], G.ParseChars(rest))
  {
    var s := ['\\', c] + rest;
    assert s[1..] == [c] + rest;
    assert s[1..][1..] == rest;
  }

  lemma HexUnescaped(c: char)
    ensures Unescaped(HexDigit(c as int % 256 / 16)) && Unescaped(HexDigit(c as int % 16))
  {
  }

  lemma ParseEscaped(c: char, utf8: bool, rest: string)
    ensures G.ParseChars(Escaped(c, utf8) + rest) == PrependAll(Units(ShownChar(c, utf8)), G.ParseChars(rest))
  {
    hide G.ParseChars, Units;
    UnitsOfOne(c);
    if c == '"' || c == '\\' {
      ParseBackslash(c, rest);
    } else if c == '\t' {
      ParseBackslash('t', rest);
    } else if Kept(c, utf8) {
      ParseUnescaped([c], rest);
    } else {
      var hex := "x" + [HexDigit(c as int % 256 / 16)] + [HexDigit(c as int % 16)];
      HexUnescaped(c);
      ParseUnescaped(hex, rest);
      ParseBackslash('\\', hex + rest);
      UnitsOfOne('\\');
      UnitsOfConcat("\\", hex);
      assert Escaped(c, utf8) + rest == ['\\', '\\'] + (hex + rest);
      PrependTwice(Units("\\"), Units(hex), G.ParseChars(rest));
      assert ShownChar(c, utf8) == "\\" + hex;
    }
  }

  lemma UnitsOfOne(c: char)
    ensures Units([c]) == [G.Char(c)]
  {
  }

  lemma UnitsOfNothing()
    ensures Units("") == []
  {
  }

  lemma {:induction false} ParseEscapedAll(s: string, utf8: bool, rest: string)
    ensures G.ParseChars(EscapedAll(s, utf8) + rest) == PrependAll(Units(Shown(s, utf8)), G.ParseChars(rest))
  {
    hide G.ParseChars, Units, Escaped, ShownChar;
    if s == "" {
      assert EscapedAll(s, utf8) + rest == rest;
      UnitsOfNothing();
      PrependTwice([], [], G.ParseChars(rest));
    } else {
      PrependTwice(Units(ShownChar(s[0], utf8)), Units(Shown(s[1..], utf8)), G.ParseChars(rest));
      ParseEscapedAll(s[1..], utf8, rest);
      ParseEscaped(s[0], utf8, EscapedAll(s[1..], utf8) + rest);
      assert EscapedAll(s, utf8) + rest == Escaped(s[0], utf8) + (EscapedAll(s[1..], utf8) + rest);
      UnitsOfConcat(ShownChar(s[0], utf8), Shown(s[1..], utf8));
    }
  }

  /** Whatever its bytes are, a printed string is a JSON string. */
  lemma ParseQuoted(s: string, rest: string)
    ensures G.ParseString(Quoted(s) + rest) == Some(G.Read(Units(Shown(s, IsUtf8(s))), rest))
  {
    hide Units, Shown, EscapedAll, IsUtf8;
    var all := EscapedAll(s, IsUtf8(s));
    assert (Quoted(s) + rest)[1..] == all + ("\"" + rest);
    ParseEscapedAll(s, IsUtf8(s), "\"" + rest);
    assert ("\"" + rest)[1..] == rest;
    assert G.ParseChars("\"" + rest) == Some(G.Read([], rest));
    var u := Units(Shown(s, IsUtf8(s)));
    assert u + [] == u;
  }

  // ---------------------------------------------------------------------
  // Which strings come back

  /** No control characters other than TAB, no DEL, and valid UTF-8 */
  predicate Plain(s: string) {
    IsUtf8(s) && forall i :: 0 <= i < |s| ==> s[i] == '\t' || (s[i] >= ' ' && s[i] != 127 as char)
  }

  lemma {:induction false} ShownSize(s: string, utf8: bool)
    ensures |Shown(s, utf8)| >= |s|
    ensures |Shown(s, utf8)| == |s| <==> forall i :: 0 <= i < |s| ==> Kept(s[i], utf8)
    ensures |Shown(s, utf8)| == |s| ==> Shown(s, utf8) == s
  {
    hide Kept, HexDigit;
    if s != "" {
      ShownSize(s[1..], utf8);
      assert s == [s[0]] + s[1..];
    }
  }

  lemma {:induction false} UnitsInjective(s: string, t: string)
    requires Units(s) == Units(t)
    ensures s == t
  {
    if s != "" {
      assert |t| == |Units(t)| == |s|;
      assert Units(s)[0] == Units(t)[0];
      assert Units(s)[1..] == Units(s[1..]) && Units(t)[1..] == Units(t[1..]);
      UnitsInjective(s[1..], t[1..]);
    }
  }

  lemma OctetsAscii(s: string)
    requires forall i :: 0 <= i < |s| ==> Ascii(s[i])
    ensures IsUtf8(s)
  {
    hide ByteOf;
    if s != "" {
      forall i | 0 <= i < |s|
        ensures Bytes(s)[i] < 0x80
      {
        AsciiByte(s[i]);
      }
      AllAscii(Bytes(s));
    } else {
      assert Bytes(s) == [];
    }
  }

  lemma AsciiByte(c: char)
    requires c as int < 256
    ensures ByteOf(c) < 0x80 <==> Ascii(c)
  {
  }

  lemma {:induction false} AllAscii(b: seq<bv8>)
    requires forall i :: 0 <= i < |b| ==> b[i] < 0x80
    ensures Utf8.Octets(b)
  {
    if b != [] {
      assert Utf8.CharSize(b) == 1;
      AllAscii(b[1..]);
    }
  }

  /** A printed string reads as the original exactly if the original is plain. */
  lemma QuotedExact(s: string, rest: string)
    requires CString(s)
    ensures G.ParseString(Quoted(s) + rest) == Some(G.Read(Units(s), rest)) <==> Plain(s)
  {
    hide Units, Shown, G.ParseString, Quoted, IsUtf8;
    var utf8 := IsUtf8(s);
    ParseQuoted(s, rest);
    ShownSize(s, utf8);
    if Units(Shown(s, utf8)) == Units(s) {
      UnitsInjective(Shown(s, utf8), s);
    }
    if forall i :: 0 <= i < |s| ==> Ascii(s[i]) {
      OctetsAscii(s);
    }
  }

  // ---------------------------------------------------------------------
  // Printed strings are valid UTF-8

  lemma BytesOfConcat(a: string, b: string)
    ensures Bytes(a + b) == Bytes(a) + Bytes(b)
  {
    hide ByteOf;
  }

  lemma FrontOfConcat(a: seq<bv8>, b: seq<bv8>)
    requires Utf8.CharSize(a) > 0
    ensures Utf8.CharSize(a + b) == Utf8.CharSize(a)
  {
    hide Utf8.Utf8Two, Utf8.Utf8Three, Utf8.Utf8Four;
    var n := Utf8.CharSize(a);
    if n == 3 {
      LeadThree(a[0], a[1], a[2]);
      Utf8.NotTwo(a[0], a[1]);
    } else if n == 4 {
      LeadFour(a[0], a[1], a[2], a[3]);
      Utf8.NotTwo(a[0], a[1]);
      Utf8.NotThree(a[0], a[1], a[2]);
    }
  }

  lemma LeadThree(a: bv8, b: bv8, c: bv8)
    requires Utf8.Utf8Three(a, b, c)
    ensures a >= 0xe0
  {
  }

  lemma LeadFour(a: bv8, b: bv8, c: bv8, d: bv8)
    requires Utf8.Utf8Four(a, b, c, d)
    ensures a >= 0xf0
  {
  }

  lemma {:induction false} OctetsConcat(a: seq<bv8>, b: seq<bv8>)
    requires Utf8.Octets(a)
    ensures Utf8.Octets(a + b) <==> Utf8.Octets(b)
  {
    hide Utf8.CharSize;
    if a == [] {
      assert a + b == b;
    } else {
      var n := Utf8.CharSize(a);
      FrontOfConcat(a, b);
      assert (a + b)[n..] == a[n..] + b;
      OctetsConcat(a[n..], b);
    }
  }

  lemma Utf8Concat(a: string, b: string)
    requires IsUtf8(a)
    ensures IsUtf8(a + b) <==> IsUtf8(b)
  {
    hide Bytes, Utf8.Octets;
    BytesOfConcat(a, b);
    OctetsConcat(Bytes(a), Bytes(b));
  }

  lemma {:induction false} EscapedAllConcat(a: string, b: string, utf8: bool)
    ensures EscapedAll(a + b, utf8) == EscapedAll(a, utf8) + EscapedAll(b, utf8)
  {
    hide Escaped;
    if a == "" {
      assert a + b == b;
    } else {
      assert (a + b)[1..] == a[1..] + b;
      EscapedAllConcat(a[1..], b, utf8);
    }
  }

  lemma EscapedAscii(c: char, utf8: bool)
    requires c as int < 256 && (Ascii(c) || !utf8)
    ensures forall i :: 0 <= i < |Escaped(c, utf8)| ==> Ascii(Escaped(c, utf8)[i])
  {
  }

  lemma {:induction false} EscapedAllAscii(s: string, utf8: bool)
    requires CString(s) && forall i :: 0 <= i < |s| ==> Ascii(s[i]) || !utf8
    ensures forall i :: 0 <= i < |EscapedAll(s, utf8)| ==> Ascii(EscapedAll(s, utf8)[i])
  {
    hide Escaped;
    if s != "" {
      EscapedAscii(s[0], utf8);
      EscapedAllAscii(s[1..], utf8);
    }
  }

  lemma {:induction false} EscapedAllHigh(s: string)
    requires forall i :: 0 <= i < |s| ==> !Ascii(s[i])
    ensures EscapedAll(s, true) == s
  {
    if s != "" {
      EscapedAllHigh(s[1..]);
    }
  }

  /** The octets of a character above 0x7f are above 0x7f. */
  lemma HighOctets(b: seq<bv8>)
    requires Utf8.CharSize(b) > 1
    ensures forall i :: 0 <= i < Utf8.CharSize(b) ==> b[i] >= 0x80
  {
    hide Utf8.Utf8Two, Utf8.Utf8Three, Utf8.Utf8Four;
    var n := Utf8.CharSize(b);
    if n == 2 {
      HighTwo(b[0], b[1]);
    } else if n == 3 {
      HighThree(b[0], b[1], b[2]);
    } else {
      HighFour(b[0], b[1], b[2], b[3]);
    }
  }

  lemma HighTwo(a: bv8, b: bv8)
    requires Utf8.Utf8Two(a, b)
    ensures a >= 0x80 && b >= 0x80
  {
  }

  lemma HighThree(a: bv8, b: bv8, c: bv8)
    requires Utf8.Utf8Three(a, b, c)
    ensures a >= 0x80 && b >= 0x80 && c >= 0x80
  {
  }

  lemma HighFour(a: bv8, b: bv8, c: bv8, d: bv8)
    requires Utf8.Utf8Four(a, b, c, d)
    ensures a >= 0x80 && b >= 0x80 && c >= 0x80 && d >= 0x80
  {
  }

  lemma {:induction false} EscapedAllUtf8(s: string)
    requires CString(s) && IsUtf8(s)
    ensures IsUtf8(EscapedAll(s, true))
    decreases |s|
  {
    hide EscapedAll, Bytes, ByteOf, Utf8.CharSize;
    if s == "" {
      EscapedAllAscii(s, true);
      OctetsAscii(EscapedAll(s, true));
    } else {
      var b := Bytes(s);
      BytesAt(s);
      var n := Utf8.CharSize(b);
      var a, rest := s[..n], s[n..];
      assert s == a + rest;
      BytesOfConcat(a, rest);
      assert b[n..] == Bytes(rest);
      EscapedAllUtf8(rest);
      EscapedAllConcat(a, rest, true);
      forall i | 0 <= i < n
        ensures b[i] < 0x80 <==> Ascii(a[i])
      {
        AsciiByte(s[i]);
      }
      if n == 1 {
        FrontAscii(b);
        EscapedAllAscii(a, true);
        OctetsAscii(EscapedAll(a, true));
      } else {
        HighOctets(b);
        EscapedAllHigh(a);
        FrontOctets(b);
        assert b[..n] == Bytes(a);
      }
      Utf8Concat(EscapedAll(a, true), EscapedAll(rest, true));
    }
  }

  lemma BytesAt(s: string)
    ensures |Bytes(s)| == |s| && forall i :: 0 <= i < |s| ==> Bytes(s)[i] == ByteOf(s[i])
  {
  }

  lemma FrontAscii(b: seq<bv8>)
    requires Utf8.CharSize(b) == 1
    ensures b[0] < 0x80
  {
    hide Utf8.Utf8Two, Utf8.Utf8Three, Utf8.Utf8Four;
  }

  lemma FrontOctets(b: seq<bv8>)
    requires Utf8.CharSize(b) > 0
    ensures Utf8.Octets(b[..Utf8.CharSize(b)])
  {
    hide Utf8.Utf8Two, Utf8.Utf8Three, Utf8.Utf8Four;
    var c := b[..Utf8.CharSize(b)];
    assert Utf8.CharSize(c) == |c|;
    assert c[|c|..] == [];
  }

  /** A printed string is valid UTF-8, whatever its bytes are. */
  lemma QuotedUtf8(s: string)
    requires CString(s)
    ensures IsUtf8(Quoted(s))
  {
    hide EscapedAll, IsUtf8;
    var all := EscapedAll(s, IsUtf8(s));
    if IsUtf8(s) {
      EscapedAllUtf8(s);
    } else {
      EscapedAllAscii(s, false);
      OctetsAscii(all);
    }
    OctetsAscii("\"");
    Utf8Concat("\"", all);
    Utf8Concat("\"" + all, "\"");
  }
}
