/** Parsing a printed document gives the value of the tree. */
module JsonDocument {
  import opened Wrappers
  import opened JsonTree
  import G = JsonGrammar
  import opened JsonText
  import opened JsonRoundTrip

  // ---------------------------------------------------------------------
  // Numbers

  predicate AllDigits(s: string) { forall i :: 0 <= i < |s| ==> G.Digit(s[i]) }

  /** Text that ends a number in front of it */
  predicate Delimits(s: string) {
    s == "" || (!G.Digit(s[0]) && s[0] != '.' && s[0] != 'e' && s[0] != 'E')
  }

  lemma {:induction false} DecimalRead(n: nat)
    ensures AllDigits(Decimal(n)) && Decimal(n) != "" && G.Number(Decimal(n)) == n
    ensures Decimal(n)[0] == '0' ==> n == 0
    ensures |Decimal(n)| > 1 ==> Decimal(n)[0] != '0'
  {
    var d := Decimal(n);
    if n >= 10 {
      DecimalRead(n / 10);
      assert d[..|d| - 1] == Decimal(n / 10);
    } else {
      assert d[..0] == "";
    }
  }

  lemma {:induction false} DigitsOf(s: string, rest: string)
    requires AllDigits(s) && Delimits(rest)
    ensures G.Digits(s + rest) == |s|
  {
    if s == "" {
      assert s + rest == rest;
    } else {
      assert (s + rest)[1..] == s[1..] + rest;
      DigitsOf(s[1..], rest);
    }
  }

  lemma ParseDecimal(n: nat, rest: string)
    requires Delimits(rest)
    ensures G.ParseNumber(Decimal(n) + rest) == Some(G.Read(G.JNumber(false, n, "", ""), rest))
    ensures G.ParseNumber("-" + Decimal(n) + rest) == Some(G.Read(G.JNumber(true, n, "", ""), rest))
  {
    hide Decimal, G.Number, G.Digits;
    var d := Decimal(n);
    DecimalRead(n);
    DigitsOf(d, rest);
    assert (d + rest)[..|d|] == d && (d + rest)[|d|..] == rest;
    assert ("-" + d + rest)[1..] == d + rest;
  }

  // ---------------------------------------------------------------------
  // White space

  lemma {:induction false} SkipSpaces(p: string, s: string)
    requires (forall i :: 0 <= i < |p| ==> G.Space(p[i])) && (s == "" || !G.Space(s[0]))
    ensures G.SkipSpace(p + s) == s
  {
    if p == "" {
      assert p + s == s;
    } else {
      assert (p + s)[1..] == p[1..] + s;
      SkipSpaces(p[1..], s);
    }
  }

  lemma NewLineSpace(pretty: bool, level: nat)
    ensures forall i :: 0 <= i < |NewLine(pretty, level)| ==> G.Space(NewLine(pretty, level)[i])
  {
    hide Spaces;
  }

  lemma SkipNewLine(pretty: bool, level: nat, s: string)
    requires s == "" || !G.Space(s[0])
    ensures G.SkipSpace(NewLine(pretty, level) + s) == s
  {
    hide NewLine;
    NewLineSpace(pretty, level);
    SkipSpaces(NewLine(pretty, level), s);
  }

  lemma SkipNothing(s: string)
    requires s == "" || !G.Space(s[0])
    ensures G.SkipSpace(s) == s
  {
  }

  // ---------------------------------------------------------------------
  // Keys

  predicate PlainKey(k: string) {
    forall i :: 0 <= i < |k| ==> '0' <= k[i] <= '9' || 'a' <= k[i] <= 'z' || k[i] == '_'
  }

  /** The key with its quotes and the colon fits in the buffer of `format`. */
  predicate ShortKey(k: string) { |k| + 3 <= 511 }

  lemma ParseKey(k: Name, pretty: bool, rest: string)
    requires PlainKey(k) && ShortKey(k) && rest != "" && !G.Space(rest[0])
    ensures var r := G.ParseString(KeyText(k, pretty) + rest);
      r.Some? && r.value.value == Units(k) && G.Token(r.value.rest, ':') == Some(rest)
  {
    hide Units, G.ParseChars, PlainKey, KeyText;
    var space := if pretty && |k| < 508 then " " else "";
    var behind := ":" + space + rest;
    var text := KeyText(k, pretty) + rest;
    KeyTextIs(k, pretty);
    PlainUnescaped(k);
    assert text == "\"" + k + "\"" + behind;
    assert text[1..] == k + ("\"" + behind);
    ParseUnescaped(k, "\"" + behind);
    assert ("\"" + behind)[1..] == behind;
    Closing(behind);
    var u := Units(k);
    assert u + [] == u;
    assert behind[1..] == space + rest;
    SkipSpaces(space, rest);
  }

  lemma KeyTextIs(k: Name, pretty: bool)
    requires ShortKey(k)
    ensures KeyText(k, pretty) == "\"" + k + "\":" + if pretty && |k| < 508 then " " else ""
  {
    if pretty && |k| == 508 {
      assert ("\"" + k + "\":" + " ")[..511] == "\"" + k + "\":" + "";
    }
  }

  lemma PlainUnescaped(k: string)
    requires PlainKey(k)
    ensures forall i :: 0 <= i < |k| ==> Unescaped(k[i])
  {
  }

  lemma Closing(rest: string)
    ensures G.ParseChars("\"" + rest) == Some(G.Read([], rest))
  {
    assert ("\"" + rest)[1..] == rest;
  }

  // ---------------------------------------------------------------------
  // Values

  /** The keys that `ref` makes, and strings without NUL */
  ghost predicate Proper(t: Tree) {
    match t
    case Unset => true
    case Leaf(v) => v.Str? ==> CString(v.str)
    case Obj(fields) => forall i :: 0 <= i < |fields| ==> PlainKey(fields[i].key) && Proper(fields[i].tree)
    case Arr(items) => forall i :: 0 <= i < |items| ==> Proper(items[i])
  }

  ghost predicate ShortKeys(t: Tree) {
    match t
    case Unset => true
    case Leaf(_) => true
    case Obj(fields) => forall i :: 0 <= i < |fields| ==> ShortKey(fields[i].key) && ShortKeys(fields[i].tree)
    case Arr(items) => forall i :: 0 <= i < |items| ==> ShortKeys(items[i])
  }

  /** What a value starts with */
  predicate Starts(s: string) {
    s != "" && !G.Space(s[0]) && s[0] != ']' && s[0] != '}' && s[0] != ','
  }

  lemma ScalarStarts(v: Scalar)
    ensures Starts(PrintScalar(v))
  {
    hide EscapedAll, Decimal;
    match v
    case Bool(_) =>
    case Int(i) => DecimalRead(if i < 0 then -(i as int) else i as int);
    case UInt(u) => DecimalRead(u);
    case UInt128(hi, lo) => DecimalRead(hi * 0x1_0000_0000_0000_0000 + lo);
    case Str(_) =>
  }

  lemma PrintStarts(t: Tree, pretty: bool, level: nat)
    ensures Starts(Print(t, pretty, level))
  {
    hide PrintFields, PrintItems, NewLine, PrintScalar;
    if t.Leaf? {
      ScalarStarts(t.value);
    }
  }

  lemma ParseWords(rest: string)
    ensures G.ParseValue("null" + rest) == Some(G.Read(G.JNull, rest))
    ensures G.ParseValue("true" + rest) == Some(G.Read(G.JBool(true), rest))
    ensures G.ParseValue("false" + rest) == Some(G.Read(G.JBool(false), rest))
  {
    hide G.ParseNumber, G.ParseString, G.ParseObject, G.ParseArray;
    var n, t, f := "null" + rest, "true" + rest, "false" + rest;
    assert n[..4] == "null" && n[4..] == rest;
    assert t[..4][0] == 't' && t[..4] == "true" && t[4..] == rest;
    assert f[..4][0] == 'f' && f[..5] == "false" && f[5..] == rest;
  }

  lemma ParseScalar(v: Scalar, rest: string)
    requires Delimits(rest)
    ensures G.ParseValue(PrintScalar(v) + rest) == Some(G.Read(JsonOfScalar(v), rest))
  {
    hide Decimal, G.ParseNumber, G.ParseString, EscapedAll, Units, Shown, G.ParseObject, G.ParseArray;
    match v
    case Bool(b) =>
      ParseWords(rest);
    case Int(i) =>
      var n: nat := if i < 0 then -(i as int) else i as int;
      DecimalRead(n);
      ParseDecimal(n, rest);
      ParseAsNumber(PrintScalar(v) + rest);
    case UInt(u) =>
      DecimalRead(u);
      ParseDecimal(u, rest);
      ParseAsNumber(PrintScalar(v) + rest);
    case UInt128(hi, lo) =>
      DecimalRead(hi * 0x1_0000_0000_0000_0000 + lo);
      ParseDecimal(hi * 0x1_0000_0000_0000_0000 + lo, rest);
      ParseAsNumber(PrintScalar(v) + rest);
    case Str(s) =>
      ParseQuoted(s, rest);
      ParseAsString(Quoted(s) + rest);
  }

  lemma ParseAsNumber(s: string)
    requires s != "" && (G.Digit(s[0]) || s[0] == '-')
    ensures G.ParseValue(s) == G.ParseNumber(s)
  {
    hide G.ParseNumber;
  }

  lemma ParseAsString(s: string)
    requires s != "" && s[0] == '"'
    ensures G.ParseValue(s) == match G.ParseString(s) {
      case None => None
      case Some(Read(units, rest)) => Some(G.Read(G.JString(units), rest)) }
  {
    hide G.ParseString;
  }

  // ---------------------------------------------------------------------
  // Objects and arrays

  /** What follows the `i`-th field, up to the end of the text */
  ghost function FieldsTail(t: Tree, i: nat, pretty: bool, level: nat, rest: string): string
    requires t.Obj? && i <= |t.fields|
  {
    PrintFields(t, i, pretty, level) + NewLine(pretty, level) + ("}" + rest)
  }

  /** The text from the `i`-th key on */
  ghost function FieldsFrom(t: Tree, i: nat, pretty: bool, level: nat, rest: string): string
    requires t.Obj? && i < |t.fields|
  {
    KeyText(t.fields[i].key, pretty)
    + (Print(t.fields[i].tree, pretty, level + 1) + FieldsTail(t, i + 1, pretty, level, rest))
  }

  lemma KeyStarts(k: Name, pretty: bool, s: string)
    ensures KeyText(k, pretty) != "" && KeyText(k, pretty)[0] == '"'
  {
  }

  lemma FieldsTailIs(t: Tree, i: nat, pretty: bool, level: nat, rest: string)
    requires t.Obj? && i <= |t.fields|
    ensures i == |t.fields| ==> G.SkipSpace(FieldsTail(t, i, pretty, level, rest)) == "}" + rest
    ensures i < |t.fields| && i == 0 ==>
              G.SkipSpace(FieldsTail(t, i, pretty, level, rest)) == FieldsFrom(t, i, pretty, level, rest)
    ensures 0 < i < |t.fields| ==>
              var u := FieldsTail(t, i, pretty, level, rest);
              u != "" && u[0] == ',' && G.SkipSpace(u[1..]) == FieldsFrom(t, i, pretty, level, rest)
    ensures i > 0 ==> Delimits(FieldsTail(t, i, pretty, level, rest))
  {
    hide NewLine, Print, KeyText, G.SkipSpace, PrintFields;
    var tail := FieldsTail(t, i, pretty, level, rest);
    PrintFieldsIs(t, i, pretty, level);
    if i == |t.fields| {
      assert tail == NewLine(pretty, level) + ("}" + rest);
      SkipNewLine(pretty, level, "}" + rest);
      NewLineDelimits(pretty, level, "}" + rest);
    } else {
      var key, value := KeyText(t.fields[i].key, pretty), Print(t.fields[i].tree, pretty, level + 1);
      var from := key + (value + FieldsTail(t, i + 1, pretty, level, rest));
      var comma := if i > 0 then "," else "";
      Regroup(comma, NewLine(pretty, level + 1), key, value, PrintFields(t, i + 1, pretty, level),
              NewLine(pretty, level), "}" + rest);
      KeyStarts(t.fields[i].key, pretty, "");
      SkipNewLine(pretty, level + 1, from);
      CommaTail(comma, NewLine(pretty, level + 1) + from);
    }
  }

  lemma Regroup(a: string, b: string, c: string, d: string, e: string, f: string, g: string)
    ensures (a + b + c + d + e) + f + g == a + (b + (c + (d + (e + f + g))))
  {
  }

  lemma CommaTail(comma: string, s: string)
    requires comma == "," || comma == ""
    ensures comma == "," ==> (comma + s)[0] == ',' && (comma + s)[1..] == s
    ensures comma == "" ==> comma + s == s
  {
  }

  lemma PrintFieldsIs(t: Tree, i: nat, pretty: bool, level: nat)
    requires t.Obj? && i <= |t.fields|
    ensures PrintFields(t, i, pretty, level) ==
            if i == |t.fields| then "" else
            (if i > 0 then "," else "") + NewLine(pretty, level + 1) + KeyText(t.fields[i].key, pretty)
            + Print(t.fields[i].tree, pretty, level + 1) + PrintFields(t, i + 1, pretty, level)
  {
    hide NewLine, Print, KeyText;
  }

  lemma NewLineDelimits(pretty: bool, level: nat, s: string)
    requires Delimits(s)
    ensures Delimits(NewLine(pretty, level) + s)
  {
    hide NewLine;
    NewLineSpace(pretty, level);
    if NewLine(pretty, level) == "" {
      assert NewLine(pretty, level) + s == s;
    } else {
      assert G.Space((NewLine(pretty, level) + s)[0]);
    }
  }

  /** What follows the `i`-th array element */
  ghost function ItemsTail(t: Tree, i: nat, pretty: bool, level: nat, rest: string): string
    requires t.Arr? && i <= |t.items|
  {
    PrintItems(t, i, pretty, level) + NewLine(pretty, level) + ("]" + rest)
  }

  ghost function ItemsFrom(t: Tree, i: nat, pretty: bool, level: nat, rest: string): string
    requires t.Arr? && i < |t.items|
  {
    Print(t.items[i], pretty, level + 1) + ItemsTail(t, i + 1, pretty, level, rest)
  }

  lemma ItemsTailIs(t: Tree, i: nat, pretty: bool, level: nat, rest: string)
    requires t.Arr? && i <= |t.items|
    ensures i == |t.items| ==> G.SkipSpace(ItemsTail(t, i, pretty, level, rest)) == "]" + rest
    ensures i < |t.items| && i == 0 ==>
              G.SkipSpace(ItemsTail(t, i, pretty, level, rest)) == ItemsFrom(t, i, pretty, level, rest)
    ensures 0 < i < |t.items| ==>
              var u := ItemsTail(t, i, pretty, level, rest);
              u != "" && u[0] == ',' && G.SkipSpace(u[1..]) == ItemsFrom(t, i, pretty, level, rest)
    ensures i > 0 ==> Delimits(ItemsTail(t, i, pretty, level, rest))
  {
    hide NewLine, Print, G.SkipSpace, PrintItems;
    var tail := ItemsTail(t, i, pretty, level, rest);
    PrintItemsIs(t, i, pretty, level);
    if i == |t.items| {
      assert tail == NewLine(pretty, level) + ("]" + rest);
      SkipNewLine(pretty, level, "]" + rest);
      NewLineDelimits(pretty, level, "]" + rest);
    } else {
      var value := Print(t.items[i], pretty, level + 1);
      var from := value + ItemsTail(t, i + 1, pretty, level, rest);
      var comma := if i > 0 then "," else "";
      RegroupItem(comma, NewLine(pretty, level + 1), value, PrintItems(t, i + 1, pretty, level),
                  NewLine(pretty, level), "]" + rest);
      PrintStarts(t.items[i], pretty, level + 1);
      assert from[0] == value[0];
      SkipNewLine(pretty, level + 1, from);
      CommaTail(comma, NewLine(pretty, level + 1) + from);
    }
  }

  lemma RegroupItem(a: string, b: string, c: string, d: string, e: string, f: string)
    ensures (a + b + c + d) + e + f == a + (b + (c + (d + e + f)))
  {
  }

  lemma PrintItemsIs(t: Tree, i: nat, pretty: bool, level: nat)
    requires t.Arr? && i <= |t.items|
    ensures PrintItems(t, i, pretty, level) ==
            if i == |t.items| then "" else
            (if i > 0 then "," else "") + NewLine(pretty, level + 1)
            + Print(t.items[i], pretty, level + 1) + PrintItems(t, i + 1, pretty, level)
  {
    hide NewLine, Print;
  }

  /** The printed value parses as the value of the tree, and ends where it ends. */
  lemma {:induction false} ParsePrint(t: Tree, pretty: bool, level: nat, rest: string)
    requires Proper(t) && ShortKeys(t) && Delimits(rest)
    ensures G.ParseValue(Print(t, pretty, level) + rest) == Some(G.Read(JsonOf(t), rest))
    decreases t, 1, 0
  {
    hide PrintFields, PrintItems, NewLine, PrintScalar, JsonOfScalar, FieldsTail, ItemsTail;
    hide G.ParseValue, G.ParseArray, G.ParseObject, G.SkipSpace, JsonOfFields, JsonOfItems;
    var text := Print(t, pretty, level) + rest;
    match t
    case Unset => ParseWords(rest);
    case Leaf(v) => ParseScalar(v, rest);
    case Obj(fields) =>
      ParseOpening(text);
      if fields == [] {
        EmptyObject(t, pretty, level, rest);
      } else {
        ObjectText(t, pretty, level, rest);
        FieldsTailIs(t, 0, pretty, level, rest);
        ParseFields(t, 0, pretty, level, rest);
        MembersToObject(t, pretty, level, rest);
      }
    case Arr(items) =>
      ParseOpening(text);
      if items == [] {
        EmptyArray(t, pretty, level, rest);
      } else {
        ArrayText(t, pretty, level, rest);
        ItemsTailIs(t, 0, pretty, level, rest);
        ParseItems(t, 0, pretty, level, rest);
        ElementsToArray(t, pretty, level, rest);
      }
  }

  lemma ParseOpening(s: string)
    requires s != ""
    ensures s[0] == '{' ==> G.ParseValue(s) == G.ParseObject(G.SkipSpace(s[1..]))
    ensures s[0] == '[' ==> G.ParseValue(s) == G.ParseArray(G.SkipSpace(s[1..]))
  {
    hide G.ParseNumber, G.ParseString, G.ParseObject, G.ParseArray, G.SkipSpace;
  }

  lemma EmptyObject(t: Tree, pretty: bool, level: nat, rest: string)
    requires t == Obj([])
    ensures G.ParseObject(G.SkipSpace((Print(t, pretty, level) + rest)[1..])) == Some(G.Read(JsonOf(t), rest))
  {
    assert (Print(t, pretty, level) + rest)[1..] == "}" + rest;
    SkipNothing("}" + rest);
    assert ("}" + rest)[1..] == rest;
  }

  lemma EmptyArray(t: Tree, pretty: bool, level: nat, rest: string)
    requires t == Arr([])
    ensures G.ParseArray(G.SkipSpace((Print(t, pretty, level) + rest)[1..])) == Some(G.Read(JsonOf(t), rest))
  {
    assert (Print(t, pretty, level) + rest)[1..] == "]" + rest;
    SkipNothing("]" + rest);
    assert ("]" + rest)[1..] == rest;
  }

  lemma ObjectText(t: Tree, pretty: bool, level: nat, rest: string)
    requires t.Obj? && t.fields != []
    ensures (Print(t, pretty, level) + rest)[1..] == FieldsTail(t, 0, pretty, level, rest)
    ensures (Print(t, pretty, level) + rest)[0] == '{'
  {
    hide PrintFields, NewLine;
  }

  lemma ArrayText(t: Tree, pretty: bool, level: nat, rest: string)
    requires t.Arr? && t.items != []
    ensures (Print(t, pretty, level) + rest)[1..] == ItemsTail(t, 0, pretty, level, rest)
    ensures (Print(t, pretty, level) + rest)[0] == '['
  {
    hide PrintItems, NewLine;
  }

  lemma MembersToObject(t: Tree, pretty: bool, level: nat, rest: string)
    requires t.Obj? && t.fields != []
    requires G.ParseMembers(FieldsFrom(t, 0, pretty, level, rest)) == Some(G.Read(JsonOfFields(t, 0), rest))
    ensures G.ParseObject(FieldsFrom(t, 0, pretty, level, rest)) == Some(G.Read(JsonOf(t), rest))
  {
    hide Print, FieldsTail, KeyText, G.ParseMembers, JsonOfFields;
    KeyStarts(t.fields[0].key, pretty, "");
  }

  lemma ElementsToArray(t: Tree, pretty: bool, level: nat, rest: string)
    requires t.Arr? && t.items != []
    requires G.ParseElements(ItemsFrom(t, 0, pretty, level, rest)) == Some(G.Read(JsonOfItems(t, 0), rest))
    ensures G.ParseArray(ItemsFrom(t, 0, pretty, level, rest)) == Some(G.Read(JsonOf(t), rest))
  {
    hide Print, ItemsTail, G.ParseElements, JsonOfItems;
    PrintStarts(t.items[0], pretty, level + 1);
  }

  lemma {:induction false} ParseFields(t: Tree, i: nat, pretty: bool, level: nat, rest: string)
    requires t.Obj? && Proper(t) && ShortKeys(t) && i < |t.fields|
    ensures G.ParseMembers(FieldsFrom(t, i, pretty, level, rest)) == Some(G.Read(JsonOfFields(t, i), rest))
    decreases t, 0, |t.fields| - i
  {
    hide FieldsTail, Print, KeyText, Units, JsonOf, PlainKey, ShortKey;
    hide G.ParseValue, G.ParseString, G.SkipSpace, G.Token;
    var tail := FieldsTail(t, i + 1, pretty, level, rest);
    var value := Print(t.fields[i].tree, pretty, level + 1);
    PrintStarts(t.fields[i].tree, pretty, level + 1);
    ParseKey(t.fields[i].key, pretty, value + tail);
    FieldsTailIs(t, i + 1, pretty, level, rest);
    ParsePrint(t.fields[i].tree, pretty, level + 1, tail);
    if i + 1 < |t.fields| {
      ParseFields(t, i + 1, pretty, level, rest);
      SkipNothing(tail);
    } else {
      assert ("}" + rest)[1..] == rest;
      var member := G.Member(Units(t.fields[i].key), JsonOf(t.fields[i].tree));
      assert [member] + JsonOfFields(t, i + 1) == [member];
    }
  }

  lemma {:induction false} ParseItems(t: Tree, i: nat, pretty: bool, level: nat, rest: string)
    requires t.Arr? && Proper(t) && ShortKeys(t) && i < |t.items|
    ensures G.ParseElements(ItemsFrom(t, i, pretty, level, rest)) == Some(G.Read(JsonOfItems(t, i), rest))
    decreases t, 0, |t.items| - i
  {
    hide ItemsTail, Print, JsonOf, G.ParseValue, G.SkipSpace;
    var tail := ItemsTail(t, i + 1, pretty, level, rest);
    ItemsTailIs(t, i + 1, pretty, level, rest);
    ParsePrint(t.items[i], pretty, level + 1, tail);
    if i + 1 < |t.items| {
      ParseItems(t, i + 1, pretty, level, rest);
      SkipNothing(tail);
    } else {
      assert ("]" + rest)[1..] == rest;
      assert [JsonOf(t.items[i])] + JsonOfItems(t, i + 1) == [JsonOf(t.items[i])];
    }
  }

  /** The printed document */
  function Document(t: Tree, pretty: bool): string { Print(t, pretty, 0) + if pretty then "\n" else "" }

  /** Parsing the document gives the value of the tree. */
  lemma ParseDocument(t: Tree, pretty: bool)
    requires Proper(t) && ShortKeys(t)
    ensures G.Parse(Document(t, pretty)) == Some(JsonOf(t))
  {
    hide Print, JsonOf, G.ParseValue, G.SkipSpace;
    PrintStarts(t, pretty, 0);
    var end := if pretty then "\n" else "";
    SkipNothing(Print(t, pretty, 0) + end);
    ParsePrint(t, pretty, 0, end);
    SkipSpaces(end, "");
    assert end + "" == end;
  }

  // ---------------------------------------------------------------------
  // Which trees come back

  /** The value of a tree, with all strings as they are */
  function ValueOf(t: Tree): G.JsonValue
    decreases t, 1, 0
  {
    match t
    case Unset => G.JNull
    case Leaf(v) => if v.Str? then G.JString(Units(v.str)) else JsonOfScalar(v)
    case Obj(fields) => G.JObject(MembersOf(t, 0))
    case Arr(items) => G.JArray(ElementsOf(t, 0))
  }

  function MembersOf(t: Tree, i: nat): (ms: seq<G.Member>)
    requires t.Obj? && i <= |t.fields|
    ensures |ms| == |t.fields| - i
    decreases t, 0, |t.fields| - i
  {
    if i == |t.fields| then []
    else [G.Member(Units(t.fields[i].key), ValueOf(t.fields[i].tree))] + MembersOf(t, i + 1)
  }

  function ElementsOf(t: Tree, i: nat): (vs: seq<G.JsonValue>)
    requires t.Arr? && i <= |t.items|
    ensures |vs| == |t.items| - i
    decreases t, 0, |t.items| - i
  {
    if i == |t.items| then [] else [ValueOf(t.items[i])] + ElementsOf(t, i + 1)
  }

  ghost predicate AllPlain(t: Tree) {
    match t
    case Unset => true
    case Leaf(v) => v.Str? ==> Plain(v.str)
    case Obj(fields) => forall i :: 0 <= i < |fields| ==> AllPlain(fields[i].tree)
    case Arr(items) => forall i :: 0 <= i < |items| ==> AllPlain(items[i])
  }

  lemma PlainString(s: string)
    requires CString(s)
    ensures Units(Shown(s, IsUtf8(s))) == Units(s) <==> Plain(s)
  {
    hide Units, Shown, IsUtf8, G.ParseString, Quoted;
    QuotedExact(s, "");
    ParseQuoted(s, "");
  }

  lemma {:induction false} SameMembers(t: Tree, i: nat)
    requires t.Obj? && i <= |t.fields|
    ensures JsonOfFields(t, i) == MembersOf(t, i) <==>
            forall j :: i <= j < |t.fields| ==> JsonOf(t.fields[j].tree) == ValueOf(t.fields[j].tree)
    decreases |t.fields| - i
  {
    hide JsonOf, ValueOf, Units;
    if i < |t.fields| {
      SameMembers(t, i + 1);
      assert JsonOfFields(t, i)[0].value == JsonOf(t.fields[i].tree);
      assert JsonOfFields(t, i)[1..] == JsonOfFields(t, i + 1);
      assert MembersOf(t, i)[0].value == ValueOf(t.fields[i].tree) && MembersOf(t, i)[1..] == MembersOf(t, i + 1);
    }
  }

  lemma {:induction false} SameElements(t: Tree, i: nat)
    requires t.Arr? && i <= |t.items|
    ensures JsonOfItems(t, i) == ElementsOf(t, i) <==>
            forall j :: i <= j < |t.items| ==> JsonOf(t.items[j]) == ValueOf(t.items[j])
    decreases |t.items| - i
  {
    hide JsonOf, ValueOf;
    if i < |t.items| {
      SameElements(t, i + 1);
      assert JsonOfItems(t, i)[0] == JsonOf(t.items[i]) && JsonOfItems(t, i)[1..] == JsonOfItems(t, i + 1);
      assert ElementsOf(t, i)[0] == ValueOf(t.items[i]) && ElementsOf(t, i)[1..] == ElementsOf(t, i + 1);
    }
  }

  lemma {:induction false} SameValue(t: Tree)
    requires Proper(t)
    ensures JsonOf(t) == ValueOf(t) <==> AllPlain(t)
    decreases t
  {
    hide Units, Shown, IsUtf8, CString, Plain, JsonOfFields, JsonOfItems, MembersOf, ElementsOf, PlainKey;
    match t
    case Unset =>
    case Leaf(v) =>
      if v.Str? {
        PlainString(v.str);
      }
    case Obj(fields) =>
      forall i | 0 <= i < |fields|
        ensures JsonOf(fields[i].tree) == ValueOf(fields[i].tree) <==> AllPlain(fields[i].tree)
      {
        SameValue(fields[i].tree);
      }
      SameMembers(t, 0);
    case Arr(items) =>
      forall i | 0 <= i < |items|
        ensures JsonOf(items[i]) == ValueOf(items[i]) <==> AllPlain(items[i])
      {
        SameValue(items[i]);
      }
      SameElements(t, 0);
  }

  /** A document gives back its tree, with all strings as they are, exactly if all of them
      are plain. */
  lemma DocumentExact(t: Tree, pretty: bool)
    requires Proper(t) && ShortKeys(t)
    ensures G.Parse(Document(t, pretty)) == Some(ValueOf(t)) <==> AllPlain(t)
  {
    hide Document, JsonOf, ValueOf, AllPlain, G.Parse, Proper, ShortKeys;
    ParseDocument(t, pretty);
    SameValue(t);
  }

  // ---------------------------------------------------------------------
  // Documents are valid UTF-8

  lemma AsciiConcat(a: string, b: string)
    requires (forall i :: 0 <= i < |a| ==> Ascii(a[i])) && IsUtf8(b)
    ensures IsUtf8(a + b)
  {
    hide IsUtf8;
    OctetsAscii(a);
    Utf8Concat(a, b);
  }

  lemma AsciiAround(a: string, b: string, c: string, d: string)
    requires forall i :: 0 <= i < |a| ==> Ascii(a[i])
    requires IsUtf8(b)
    requires forall i :: 0 <= i < |c| ==> Ascii(c[i])
    requires forall i :: 0 <= i < |d| ==> Ascii(d[i])
    ensures IsUtf8(a + b + c + d)
  {
    hide IsUtf8;
    OctetsAscii(c);
    OctetsAscii(d);
    AsciiConcat(a, b);
    Utf8Concat(a + b, c);
    Utf8Concat(a + b + c, d);
  }

  lemma {:induction false} DecimalAscii(n: nat)
    ensures forall i :: 0 <= i < |Decimal(n)| ==> Ascii(Decimal(n)[i])
  {
    if n >= 10 {
      DecimalAscii(n / 10);
    }
  }

  lemma ScalarUtf8(v: Scalar)
    requires v.Str? ==> CString(v.str)
    ensures IsUtf8(PrintScalar(v))
  {
    hide IsUtf8, Decimal, Quoted;
    match v
    case Bool(b) => OctetsAscii(PrintScalar(v));
    case Int(i) =>
      DecimalAscii(if i < 0 then -(i as int) else i as int);
      OctetsAscii(PrintScalar(v));
    case UInt(u) =>
      DecimalAscii(u);
      OctetsAscii(PrintScalar(v));
    case UInt128(hi, lo) =>
      DecimalAscii(hi * 0x1_0000_0000_0000_0000 + lo);
      OctetsAscii(PrintScalar(v));
    case Str(s) => QuotedUtf8(s);
  }

  lemma NewLineAscii(pretty: bool, level: nat)
    ensures forall i :: 0 <= i < |NewLine(pretty, level)| ==> Ascii(NewLine(pretty, level)[i])
  {
    hide Spaces;
  }

  lemma KeyAscii(k: Name, pretty: bool)
    requires PlainKey(k)
    ensures forall i :: 0 <= i < |KeyText(k, pretty)| ==> Ascii(KeyText(k, pretty)[i])
  {
  }

  lemma {:induction false} PrintUtf8(t: Tree, pretty: bool, level: nat)
    requires Proper(t)
    ensures IsUtf8(Print(t, pretty, level))
    decreases t, 1, 0
  {
    hide IsUtf8, PrintFields, PrintItems, NewLine, PrintScalar;
    match t
    case Unset => OctetsAscii("null");
    case Leaf(v) => ScalarUtf8(v);
    case Obj(fields) =>
      NewLineAscii(pretty, level);
      FieldsUtf8(t, 0, pretty, level);
      AsciiAround("{", PrintFields(t, 0, pretty, level), if fields != [] then NewLine(pretty, level) else "", "}");
    case Arr(items) =>
      NewLineAscii(pretty, level);
      ItemsUtf8(t, 0, pretty, level);
      AsciiAround("[", PrintItems(t, 0, pretty, level), if items != [] then NewLine(pretty, level) else "", "]");
  }

  lemma {:induction false} FieldsUtf8(t: Tree, i: nat, pretty: bool, level: nat)
    requires t.Obj? && i <= |t.fields| && Proper(t)
    ensures IsUtf8(PrintFields(t, i, pretty, level))
    decreases t, 0, |t.fields| - i
  {
    hide IsUtf8, NewLine, KeyText, Print;
    if i == |t.fields| {
      OctetsAscii("");
    } else {
      var start := (if i > 0 then "," else "") + NewLine(pretty, level + 1) + KeyText(t.fields[i].key, pretty);
      NewLineAscii(pretty, level + 1);
      KeyAscii(t.fields[i].key, pretty);
      PrintUtf8(t.fields[i].tree, pretty, level + 1);
      AsciiConcat(start, Print(t.fields[i].tree, pretty, level + 1));
      FieldsUtf8(t, i + 1, pretty, level);
      Utf8Concat(start + Print(t.fields[i].tree, pretty, level + 1), PrintFields(t, i + 1, pretty, level));
    }
  }

  lemma {:induction false} ItemsUtf8(t: Tree, i: nat, pretty: bool, level: nat)
    requires t.Arr? && i <= |t.items| && Proper(t)
    ensures IsUtf8(PrintItems(t, i, pretty, level))
    decreases t, 0, |t.items| - i
  {
    hide IsUtf8, NewLine, Print;
    if i == |t.items| {
      OctetsAscii("");
    } else {
      var start := (if i > 0 then "," else "") + NewLine(pretty, level + 1);
      NewLineAscii(pretty, level + 1);
      PrintUtf8(t.items[i], pretty, level + 1);
      AsciiConcat(start, Print(t.items[i], pretty, level + 1));
      ItemsUtf8(t, i + 1, pretty, level);
      Utf8Concat(start + Print(t.items[i], pretty, level + 1), PrintItems(t, i + 1, pretty, level));
    }
  }
}
