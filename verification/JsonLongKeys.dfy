/**
  Keys that do not fit in the buffer of `format` (lib/json.cpp): their text is cut off,
  and the document does not read as its tree any more.
 */
module JsonLongKeys {
  import opened Wrappers
  import opened Text
  import opened JsonTree
  import G = JsonGrammar
  import opened JsonText
  import opened JsonRoundTrip
  import opened JsonDocument

  /** What follows a field value starts with a comma, a brace, or a new line. */
  predicate Behind(s: string) { s != "" && (s[0] == ',' || s[0] == '}' || s[0] == '\n') }

  /** The parser fails, or it delivers something else. */
  predicate Wrong<T(==)>(r: Option<G.Read<T>>, value: T) { r.None? || r.value.value != value }

  /** The parser does not find this member. */
  predicate MemberWrong(s: string, k: string, v: G.JsonValue) {
    var name := G.ParseString(s);
    Wrong(name, Units(k)) || (var t := G.Token(name.value.rest, ':'); t.None? || Wrong(G.ParseValue(t.value), v))
  }

  // ---------------------------------------------------------------------
  // Text read as part of a key

  /** Characters that no key has */
  predicate Foreign(u: seq<G.Unit>) { exists i :: 0 <= i < |u| && u[i].Char? && u[i].c in "{[,}" }

  lemma PlainNotForeign(k: string)
    requires PlainKey(k)
    ensures !Foreign(Units(k))
  {
    forall i | 0 <= i < |k|
      ensures Units(k)[i] == G.Char(k[i])
    {
      UnitsAt(k, i);
    }
  }

  lemma {:induction false} UnitsAt(s: string, i: nat)
    requires i < |s|
    ensures Units(s)[i] == G.Char(s[i])
  {
    if i > 0 {
      UnitsAt(s[1..], i - 1);
    }
  }

  lemma BehindForeign(tail: string)
    requires Behind(tail)
    ensures var r := G.ParseChars(tail);
      r.None? || (r.value.value != [] && (r.value.value[0] == G.Char(',') || r.value.value[0] == G.Char('}')))
  {
  }

  lemma ScalarUnescaped(v: Scalar)
    requires !v.Str?
    ensures forall i :: 0 <= i < |PrintScalar(v)| ==> Unescaped(PrintScalar(v)[i])
  {
    hide Decimal;
    match v
    case Bool(_) =>
    case Int(i) => DecimalRead(if i < 0 then -(i as int) else i as int);
    case UInt(u) => DecimalRead(u);
    case UInt128(hi, lo) => DecimalRead(hi * 0x1_0000_0000_0000_0000 + lo);
  }

  lemma WordForeign(w: string, tail: string)
    requires (forall i :: 0 <= i < |w| ==> Unescaped(w[i])) && Behind(tail)
    ensures var r := G.ParseChars(w + tail); r.None? || Foreign(r.value.value)
  {
    hide G.ParseChars;
    ParseUnescaped(w, tail);
    BehindForeign(tail);
    var r := G.ParseChars(tail);
    if r.Some? {
      assert (Units(w) + r.value.value)[|w|] == r.value.value[0];
    }
  }

  lemma OpeningForeign(s: string)
    requires s != "" && (s[0] == '{' || s[0] == '[')
    ensures var r := G.ParseChars(s); r.None? || Foreign(r.value.value)
  {
    var more := G.ParseChars(s[1..]);
    if more.Some? {
      assert ([G.Char(s[0])] + more.value.value)[0] == G.Char(s[0]);
    }
  }

  /** A value other than a string cannot complete a key. */
  lemma ValueForeign(t: Tree, pretty: bool, level: nat, tail: string)
    requires !(t.Leaf? && t.value.Str?) && Behind(tail)
    ensures var r := G.ParseChars(Print(t, pretty, level) + tail); r.None? || Foreign(r.value.value)
  {
    hide G.ParseChars, Foreign, PrintFields, PrintItems, PrintScalar, NewLine;
    match t
    case Unset => WordForeign("null", tail);
    case Leaf(v) =>
      ScalarUnescaped(v);
      WordForeign(PrintScalar(v), tail);
    case Obj(_) => OpeningForeign(Print(t, pretty, level) + tail);
    case Arr(_) => OpeningForeign(Print(t, pretty, level) + tail);
  }

  // ---------------------------------------------------------------------
  // A string read as the text behind a key

  lemma EscapedStarts(c: char, utf8: bool)
    ensures Escaped(c, utf8) != "" && Escaped(c, utf8)[0] != '"'
    ensures G.Space(Escaped(c, utf8)[0]) <==> c == ' '
    ensures c == ' ' || Escaped(c, utf8)[0] == ':' ==> Escaped(c, utf8) == [c] && ShownChar(c, utf8) == [c]
    ensures Escaped(c, utf8)[0] == ':' <==> c == ':'
  {
    hide HexDigit;
  }

  /** White space in front of an escaped string: `i` spaces of the string itself */
  lemma {:induction false} SkipEscaped(s: string, utf8: bool, end: string) returns (i: nat)
    requires end != "" && !G.Space(end[0])
    ensures i <= |s| && (forall j :: 0 <= j < i ==> s[j] == ' ') && (i < |s| ==> s[i] != ' ')
    ensures G.SkipSpace(EscapedAll(s, utf8) + end) == EscapedAll(s[i..], utf8) + end
  {
    hide Escaped;
    if s == "" {
      i := 0;
      assert EscapedAll(s, utf8) + end == end;
    } else {
      EscapedStarts(s[0], utf8);
      var text := Escaped(s[0], utf8) + (EscapedAll(s[1..], utf8) + end);
      assert EscapedAll(s, utf8) + end == text;
      if s[0] == ' ' {
        assert text[1..] == EscapedAll(s[1..], utf8) + end;
        i := SkipEscaped(s[1..], utf8, end);
        i := i + 1;
      } else {
        i := 0;
        assert s[0..] == s;
      }
    }
  }

  /** The rest of an escaped string at a character that is not a space */
  lemma EscapedFrom(s: string, utf8: bool, i: nat, end: string)
    requires i < |s| && s[i] != ' '
    ensures var y := EscapedAll(s[i..], utf8) + end;
      && y != "" && y[0] != '"' && (y[0] == ':' <==> s[i] == ':')
      && (s[i] == ':' ==> y[1..] == EscapedAll(s[i + 1..], utf8) + end)
  {
    hide Escaped;
    EscapedStarts(s[i], utf8);
    assert s[i..][0] == s[i] && s[i..][1..] == s[i + 1..];
    assert EscapedAll(s[i..], utf8) + end == Escaped(s[i], utf8) + (EscapedAll(s[i + 1..], utf8) + end);
  }

  lemma NotAString(s: string, units: seq<G.Unit>)
    requires s != "" && s[0] != '"'
    ensures Wrong(G.ParseValue(s), G.JString(units))
  {
    hide G.ParseNumber, G.ParseMembers, G.ParseElements, G.SkipSpace;
    NotAStringNumber(s);
  }

  lemma NotAStringNumber(s: string)
    ensures var r := G.ParseNumber(s); r.None? || r.value.value.JNumber?
  {
    hide G.Digits, G.Number, G.ParseFraction, G.ParseExponent;
  }

  lemma StringBehind(tail: string, s: string, utf8: bool)
    requires Behind(tail) && s != "" && (s[0] == ' ' || s[0] == ':')
    ensures Wrong(G.ParseValue("\"" + tail), G.JString(Units(Shown(s, utf8))))
  {
    hide G.ParseChars, Escaped, Shown;
    ParseAsString("\"" + tail);
    assert ("\"" + tail)[1..] == tail;
    BehindForeign(tail);
    ShownStarts(s, utf8);
  }

  lemma ShownStarts(s: string, utf8: bool)
    requires s != "" && (s[0] == ' ' || s[0] == ':')
    ensures Units(Shown(s, utf8)) != [] && Units(Shown(s, utf8))[0] == G.Char(s[0])
  {
    assert ShownChar(s[0], utf8) == [s[0]];
    assert Shown(s, utf8)[0] == s[0];
  }

  /** An escaped string is not a colon with this string as a value behind it. */
  lemma StringWrong(s: string, utf8: bool, tail: string)
    requires Behind(tail)
    ensures var t := G.Token(EscapedAll(s, utf8) + ("\"" + tail), ':');
      t.None? || Wrong(G.ParseValue(t.value), G.JString(Units(Shown(s, utf8))))
  {
    hide EscapedAll, G.SkipSpace, G.ParseValue, Units, Shown, Wrong;
    var end := "\"" + tail;
    var i := SkipEscaped(s, utf8, end);
    if i == |s| {
      NothingLeft(s, utf8, end);
    } else {
      EscapedFrom(s, utf8, i, end);
      if s[i] == ':' {
        var more := s[i + 1..];
        var j := SkipEscaped(more, utf8, end);
        if j == |more| {
          NothingLeft(more, utf8, end);
          StringBehind(tail, s, utf8);
        } else {
          EscapedFrom(more, utf8, j, end);
          NotAString(EscapedAll(more[j..], utf8) + end, Units(Shown(s, utf8)));
        }
      }
    }
  }

  lemma NothingLeft(s: string, utf8: bool, end: string)
    ensures s[|s|..] == "" && EscapedAll(s[|s|..], utf8) + end == end
  {
  }

  // ---------------------------------------------------------------------
  // A field with a long key

  lemma LongKeyText(k: Name, pretty: bool)
    requires !ShortKey(k)
    ensures KeyText(k, pretty) == if |k| == 509 then "\"" + k + "\"" else "\"" + k[..510]
  {
    var full := "\"" + k + "\":" + if pretty then " " else "";
    assert KeyText(k, pretty) == full[..511];
  }

  lemma PrintNoColon(t: Tree, pretty: bool, level: nat)
    ensures Starts(Print(t, pretty, level)) && Print(t, pretty, level)[0] != ':'
  {
    hide PrintFields, PrintItems, NewLine, PrintScalar;
    PrintStarts(t, pretty, level);
    if t.Leaf? {
      ScalarNoColon(t.value);
    }
  }

  lemma ScalarNoColon(v: Scalar)
    ensures PrintScalar(v) != "" && PrintScalar(v)[0] != ':'
  {
    hide EscapedAll, Decimal;
    match v
    case Bool(_) =>
    case Int(i) => DecimalRead(if i < 0 then -(i as int) else i as int);
    case UInt(u) => DecimalRead(u);
    case UInt128(hi, lo) => DecimalRead(hi * 0x1_0000_0000_0000_0000 + lo);
    case Str(_) =>
  }

  /** The closing quotation mark is still there, but not the colon. */
  lemma NoColon(k: Name, pretty: bool, x: string, v: G.JsonValue)
    requires PlainKey(k) && |k| == 509 && x != "" && !G.Space(x[0]) && x[0] != ':'
    ensures MemberWrong(KeyText(k, pretty) + x, k, v)
  {
    hide G.ParseChars, G.ParseValue, PlainKey, KeyText, Units;
    LongKeyText(k, pretty);
    PlainUnescaped(k);
    var s := KeyText(k, pretty) + x;
    assert s[1..] == k + ("\"" + x);
    ParseUnescaped(k, "\"" + x);
    Closing(x);
    SkipNothing(x);
  }

  /** The closing quotation mark is cut off. */
  lemma NoQuote(k: Name, pretty: bool, x: string)
    requires PlainKey(k) && |k| >= 510
    ensures G.ParseString(KeyText(k, pretty) + x) == PrependAll(Units(k[..510]), G.ParseChars(x))
    ensures Units(k) == Units(k[..510]) + Units(k[510..]) && PlainKey(k[510..])
  {
    hide G.ParseChars, KeyText, Units;
    LongKeyText(k, pretty);
    PlainUnescaped(k[..510]);
    assert (KeyText(k, pretty) + x)[1..] == k[..510] + x;
    ParseUnescaped(k[..510], x);
    UnitsOfConcat(k[..510], k[510..]);
    assert k[..510] + k[510..] == k;
  }

  lemma LongKeyWrong(k: Name, pretty: bool, t: Tree, level: nat, tail: string)
    requires PlainKey(k) && !ShortKey(k) && Behind(tail)
    ensures MemberWrong(KeyText(k, pretty) + (Print(t, pretty, level) + tail), k, JsonOf(t))
  {
    hide G.ParseChars, G.ParseString, G.ParseValue, G.Token, PlainKey, KeyText, Units, Print, Foreign, JsonOf, Shown,
      EscapedAll, MemberWrong, Wrong;
    var x := Print(t, pretty, level) + tail;
    if |k| == 509 {
      PrintNoColon(t, pretty, level);
      NoColon(k, pretty, x, JsonOf(t));
    } else {
      NoQuote(k, pretty, x);
      PlainNotForeign(k[510..]);
      if t.Leaf? && t.value.Str? {
        StringMemberWrong(k, pretty, t, level, tail);
      } else {
        ValueForeign(t, pretty, level, tail);
        NotThisName(KeyText(k, pretty) + x, k, JsonOf(t), Units(k[..510]), Units(k[510..]), G.ParseChars(x));
      }
    }
  }

  lemma NotThisName(s: string, k: string, v: G.JsonValue, a: seq<G.Unit>, b: seq<G.Unit>,
                    r: Option<G.Read<seq<G.Unit>>>)
    requires G.ParseString(s) == PrependAll(a, r) && Units(k) == a + b && (r.None? || r.value.value != b)
    ensures MemberWrong(s, k, v)
  {
    hide Units, G.ParseString;
    if r.Some? {
      assert (a + r.value.value)[|a|..] == r.value.value && (a + b)[|a|..] == b;
    }
  }

  lemma StringMemberWrong(k: Name, pretty: bool, t: Tree, level: nat, tail: string)
    requires PlainKey(k) && |k| >= 510 && Behind(tail) && t.Leaf? && t.value.Str?
    ensures MemberWrong(KeyText(k, pretty) + (Print(t, pretty, level) + tail), k, JsonOf(t))
  {
    hide G.ParseChars, G.ParseString, G.ParseValue, G.Token, PlainKey, KeyText, Units, Shown, EscapedAll, IsUtf8,
      MemberWrong;
    var s, x := t.value.str, Print(t, pretty, level) + tail;
    var r2 := EscapedAll(s, IsUtf8(s)) + ("\"" + tail);
    assert x == "\"" + r2;
    Closing(r2);
    NoQuote(k, pretty, x);
    if Units(k[510..]) != [] {
      NotThisName(KeyText(k, pretty) + x, k, JsonOf(t), Units(k[..510]), Units(k[510..]), G.ParseChars(x));
    } else {
      StringWrong(s, IsUtf8(s), tail);
      assert Units(k[..510]) + [] == Units(k[..510]);
      assert Units(k) == Units(k[..510]);
      WrongBehind(KeyText(k, pretty) + x, k, JsonOf(t), r2);
    }
  }

  lemma WrongBehind(s: string, k: string, v: G.JsonValue, rest: string)
    requires G.ParseString(s) == Some(G.Read(Units(k), rest))
    requires var t := G.Token(rest, ':'); t.None? || Wrong(G.ParseValue(t.value), v)
    ensures MemberWrong(s, k, v)
  {
    hide G.ParseString, G.Token, G.ParseValue, Units, Wrong;
  }

  // ---------------------------------------------------------------------
  // Whole documents

  lemma FieldsTailBehind(t: Tree, i: nat, pretty: bool, level: nat, rest: string)
    requires t.Obj? && 0 < i <= |t.fields|
    ensures Behind(FieldsTail(t, i, pretty, level, rest))
  {
    hide PrintFields, Print, KeyText, NewLine;
    PrintFieldsIs(t, i, pretty, level);
    NewLineStarts(pretty, level);
  }

  lemma NewLineStarts(pretty: bool, level: nat)
    ensures if pretty then NewLine(pretty, level) != "" && NewLine(pretty, level)[0] == '\n'
            else NewLine(pretty, level) == ""
  {
    hide Spaces;
  }

  lemma MembersWrong(t: Tree, i: nat, s: string)
    requires t.Obj? && i < |t.fields| && MemberWrong(s, t.fields[i].key, JsonOf(t.fields[i].tree))
    ensures Wrong(G.ParseMembers(s), JsonOfFields(t, i))
  {
    hide G.ParseString, G.ParseValue, G.Token, G.SkipSpace, JsonOf, Units;
    var name := G.ParseString(s);
    if !Wrong(name, Units(t.fields[i].key)) && G.Token(name.value.rest, ':').Some? {
      var r := G.ParseValue(G.Token(name.value.rest, ':').value);
      assert r.None? || r.value.value != JsonOf(t.fields[i].tree);
    }
    assert JsonOfFields(t, i)[0] == G.Member(Units(t.fields[i].key), JsonOf(t.fields[i].tree));
  }

  ghost predicate LongFrom(t: Tree, i: nat)
    requires t.Obj?
  {
    exists j :: i <= j < |t.fields| && !(ShortKey(t.fields[j].key) && ShortKeys(t.fields[j].tree))
  }

  /** A value with a long key anywhere in it does not read as itself. */
  lemma {:induction false} LongWrong(t: Tree, pretty: bool, level: nat, rest: string)
    requires Proper(t) && !ShortKeys(t)
    ensures Wrong(G.ParseValue(Print(t, pretty, level) + rest), JsonOf(t))
    decreases t, 1, 0
  {
    hide PrintFields, PrintItems, NewLine, FieldsTail, ItemsTail, Proper;
    hide G.ParseValue, G.ParseArray, G.ParseObject, G.SkipSpace, JsonOfFields, JsonOfItems;
    var text := Print(t, pretty, level) + rest;
    ParseOpening(text);
    if t.Obj? {
      ObjectText(t, pretty, level, rest);
      FieldsTailIs(t, 0, pretty, level, rest);
      LongFields(t, 0, pretty, level, rest);
      ObjectWrong(t, FieldsFrom(t, 0, pretty, level, rest), pretty, level, rest);
    } else {
      ArrayText(t, pretty, level, rest);
      ItemsTailIs(t, 0, pretty, level, rest);
      LongItems(t, 0, pretty, level, rest);
      ArrayWrong(t, pretty, level, rest);
    }
  }

  lemma ObjectWrong(t: Tree, s: string, pretty: bool, level: nat, rest: string)
    requires t.Obj? && t.fields != [] && s == FieldsFrom(t, 0, pretty, level, rest)
    requires Wrong(G.ParseMembers(s), JsonOfFields(t, 0))
    ensures Wrong(G.ParseObject(s), JsonOf(t))
  {
    hide Print, FieldsTail, KeyText, G.ParseMembers, JsonOfFields;
    KeyStarts(t.fields[0].key, pretty, "");
  }

  lemma ArrayWrong(t: Tree, pretty: bool, level: nat, rest: string)
    requires t.Arr? && t.items != []
    requires Wrong(G.ParseElements(ItemsFrom(t, 0, pretty, level, rest)), JsonOfItems(t, 0))
    ensures Wrong(G.ParseArray(ItemsFrom(t, 0, pretty, level, rest)), JsonOf(t))
  {
    hide Print, ItemsTail, G.ParseElements, JsonOfItems;
    PrintStarts(t.items[0], pretty, level + 1);
  }

  lemma {:induction false} LongFields(t: Tree, i: nat, pretty: bool, level: nat, rest: string)
    requires t.Obj? && Proper(t) && i < |t.fields| && LongFrom(t, i)
    ensures Wrong(G.ParseMembers(FieldsFrom(t, i, pretty, level, rest)), JsonOfFields(t, i))
    decreases t, 0, |t.fields| - i
  {
    hide FieldsTail, Print, KeyText, Units, JsonOf, PlainKey, ShortKey, ShortKeys, Behind, G.ParseMembers;
    hide G.ParseValue, G.ParseString, G.SkipSpace, G.Token, JsonOfFields;
    var f, s := t.fields[i], FieldsFrom(t, i, pretty, level, rest);
    var tail := FieldsTail(t, i + 1, pretty, level, rest);
    var value := Print(f.tree, pretty, level + 1);
    FieldsTailBehind(t, i + 1, pretty, level, rest);
    if !ShortKey(f.key) {
      LongKeyWrong(f.key, pretty, f.tree, level + 1, tail);
      MembersWrong(t, i, s);
    } else {
      PrintStarts(f.tree, pretty, level + 1);
      ParseKey(f.key, pretty, value + tail);
      if !ShortKeys(f.tree) {
        LongWrong(f.tree, pretty, level + 1, tail);
        MembersWrong(t, i, s);
      } else {
        FieldsTailIs(t, i + 1, pretty, level, rest);
        ParsePrint(f.tree, pretty, level + 1, tail);
        LongFields(t, i + 1, pretty, level, rest);
        MembersNext(t, i, pretty, level, rest);
      }
    }
  }

  lemma MembersNext(t: Tree, i: nat, pretty: bool, level: nat, rest: string)
    requires t.Obj? && i + 1 < |t.fields|
    requires var s := FieldsFrom(t, i, pretty, level, rest);
      var tail := FieldsTail(t, i + 1, pretty, level, rest);
      var name := G.ParseString(s);
      && name.Some? && name.value.value == Units(t.fields[i].key)
      && G.Token(name.value.rest, ':') == Some(Print(t.fields[i].tree, pretty, level + 1) + tail)
      && G.ParseValue(Print(t.fields[i].tree, pretty, level + 1) + tail) == Some(G.Read(JsonOf(t.fields[i].tree), tail))
    requires Wrong(G.ParseMembers(FieldsFrom(t, i + 1, pretty, level, rest)), JsonOfFields(t, i + 1))
    ensures Wrong(G.ParseMembers(FieldsFrom(t, i, pretty, level, rest)), JsonOfFields(t, i))
  {
    hide FieldsTail, FieldsFrom, Print, Units, JsonOf, G.ParseValue, G.ParseString, G.SkipSpace, G.Token;
    var tail := FieldsTail(t, i + 1, pretty, level, rest);
    FieldsTailIs(t, i + 1, pretty, level, rest);
    SkipNothing(tail);
    var head := [G.Member(Units(t.fields[i].key), JsonOf(t.fields[i].tree))];
    var more := G.ParseMembers(FieldsFrom(t, i + 1, pretty, level, rest));
    if more.Some? {
      assert (head + more.value.value)[1..] == more.value.value;
      assert (head + JsonOfFields(t, i + 1))[1..] == JsonOfFields(t, i + 1);
    }
  }

  lemma {:induction false} LongItems(t: Tree, i: nat, pretty: bool, level: nat, rest: string)
    requires t.Arr? && Proper(t) && i < |t.items| && exists j :: i <= j < |t.items| && !ShortKeys(t.items[j])
    ensures Wrong(G.ParseElements(ItemsFrom(t, i, pretty, level, rest)), JsonOfItems(t, i))
    decreases t, 0, |t.items| - i
  {
    hide ItemsTail, Print, JsonOf, ShortKeys, G.ParseValue, G.SkipSpace;
    var tail := ItemsTail(t, i + 1, pretty, level, rest);
    ItemsTailIs(t, i + 1, pretty, level, rest);
    assert JsonOfItems(t, i) == [JsonOf(t.items[i])] + JsonOfItems(t, i + 1);
    if !ShortKeys(t.items[i]) {
      LongWrong(t.items[i], pretty, level + 1, tail);
      assert JsonOfItems(t, i)[0] == JsonOf(t.items[i]);
    } else {
      ParsePrint(t.items[i], pretty, level + 1, tail);
      LongItems(t, i + 1, pretty, level, rest);
      SkipNothing(tail);
      var more := G.ParseElements(ItemsFrom(t, i + 1, pretty, level, rest));
      if more.Some? {
        assert ([JsonOf(t.items[i])] + more.value.value)[1..] == more.value.value;
        assert ([JsonOf(t.items[i])] + JsonOfItems(t, i + 1))[1..] == JsonOfItems(t, i + 1);
      }
    }
  }

  /** A document parses as the value of its tree exactly if all keys have at most 508
      characters. */
  lemma DocumentCondition(t: Tree, pretty: bool)
    requires Proper(t)
    ensures G.Parse(Document(t, pretty)) == Some(JsonOf(t)) <==> ShortKeys(t)
  {
    hide Print, JsonOf, ShortKeys, Proper, G.ParseValue, G.SkipSpace;
    if ShortKeys(t) {
      ParseDocument(t, pretty);
    } else {
      PrintStarts(t, pretty, 0);
      var end := if pretty then "\n" else "";
      SkipNothing(Print(t, pretty, 0) + end);
      LongWrong(t, pretty, 0, end);
    }
  }
}
