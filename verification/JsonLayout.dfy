/**
  The layout of pretty printed JSON (lib/json.cpp): a scanner that checks every line break
  and every space, and that keeps the text without them.
 */
module JsonLayout {
  import opened JsonTree
  import opened Text
  import opened JsonText
  import opened JsonRoundTrip
  import opened JsonDocument

  // ---------------------------------------------------------------------
  // The scanner

  /** Where the scanner is in a line: behind an opening bracket, behind a comma, in the
      indentation (`last`: of a line that must begin with a closing bracket), behind a colon,
      behind the space that follows it, or anywhere else. */
  datatype Place = Opened | Comma | Indent(n: nat, last: bool) | Colon | Gap | Middle

  datatype Scan = Scan(depth: nat, inString: bool, escaped: bool, place: Place, ok: bool, kept: string)

  /** Two spaces for each bracket that is open, up to what the buffer of `format` takes */
  function Indentation(depth: nat): nat { if depth <= 255 then 2 * depth else 510 }

  predicate Closing(c: char) { c == '}' || c == ']' }

  /** A character outside of strings that is neither a space nor a line break */
  function Token(st: Scan, c: char): Scan {
    var kept := st.kept + [c];
    if c == '"' then st.(inString := true, place := Middle, kept := kept)
    else if c == '{' || c == '[' then st.(depth := st.depth + 1, place := Opened, kept := kept)
    else if c == ',' then st.(place := Comma, kept := kept)
    else if c == ':' then st.(place := Colon, kept := kept)
    else st.(place := Middle, kept := kept)
  }

  function Close(st: Scan, c: char): Scan {
    if st.depth == 0 then st.(ok := false)
    else st.(depth := st.depth - 1, place := Middle, kept := st.kept + [c])
  }

  function Outside(st: Scan, c: char): Scan {
    match st.place
    case Opened =>
      if c == '\n' then st.(place := Indent(0, false)) else if Closing(c) then Close(st, c) else st.(ok := false)
    case Comma => if c == '\n' then st.(place := Indent(0, false)) else st.(ok := false)
    case Colon => if c == ' ' then st.(place := Gap) else st.(ok := false)
    case Indent(n, last) =>
      if c == ' ' then st.(place := Indent(n + 1, last))
      else if Closing(c) != last || c == '\n' then st.(ok := false)
      else if last then if st.depth > 0 && n == Indentation(st.depth - 1) then Close(st, c) else st.(ok := false)
      else if n == Indentation(st.depth) then Token(st, c) else st.(ok := false)
    case Gap => if c == ' ' || c == '\n' || Closing(c) then st.(ok := false) else Token(st, c)
    case Middle =>
      if c == '\n' then st.(place := Indent(0, true))
      else if c == ' ' || Closing(c) then st.(ok := false) else Token(st, c)
  }

  function Step(st: Scan, c: char): Scan {
    if !st.inString then Outside(st, c)
    else
      var now := st.(kept := st.kept + [c]);
      if c == '\n' then st.(ok := false)
      else if st.escaped then now.(escaped := false)
      else if c == '\\' then now.(escaped := true)
      else if c == '"' then now.(inString := false)
      else now
  }

  function ScanAll(st: Scan, s: string): Scan {
    if s == "" then st else Step(ScanAll(st, s[..|s| - 1]), s[|s| - 1])
  }

  lemma {:induction false} ScanConcat(st: Scan, a: string, b: string)
    ensures ScanAll(st, a + b) == ScanAll(ScanAll(st, a), b)
  {
    hide Step;
    if b == "" {
      assert a + b == a;
    } else {
      assert (a + b)[..|a + b| - 1] == a + b[..|b| - 1];
      ScanConcat(st, a, b[..|b| - 1]);
    }
  }

  lemma ScanOne(st: Scan, c: char)
    ensures ScanAll(st, [c]) == Step(st, c)
  {
    assert [c][..0] == "";
  }

  lemma ScanNone(st: Scan)
    ensures ScanAll(st, "") == st
  {
  }

  // ---------------------------------------------------------------------
  // Scalars

  predicate InString(st: Scan) { st.inString && !st.escaped }

  /** Characters that are neither quoted nor end the string */
  lemma {:induction false} ScanRaw(st: Scan, s: string)
    requires InString(st) && forall i :: 0 <= i < |s| ==> s[i] != '"' && s[i] != '\\' && s[i] != '\n'
    ensures ScanAll(st, s) == st.(kept := st.kept + s)
  {
    if s == "" {
      assert st.kept + s == st.kept;
    } else {
      ScanRaw(st, s[..|s| - 1]);
      assert st.kept + s == st.kept + s[..|s| - 1] + [s[|s| - 1]];
    }
  }

  lemma ScanBackslash(st: Scan, c: char)
    requires InString(st) && c != '\n'
    ensures ScanAll(st, ['\\', c]) == st.(kept := st.kept + ['\\', c])
  {
    ScanConcat(st, ['\\'], [c]);
    ScanOne(st, '\\');
    ScanOne(Step(st, '\\'), c);
    assert ['\\'] + [c] == ['\\', c];
    assert st.kept + ['\\'] + [c] == st.kept + ['\\', c];
  }

  lemma ScanEscaped(st: Scan, c: char, utf8: bool)
    requires InString(st)
    ensures ScanAll(st, Escaped(c, utf8)) == st.(kept := st.kept + Escaped(c, utf8))
  {
    hide Step, ScanAll;
    if c == '"' || c == '\\' {
      ScanBackslash(st, c);
    } else if c == '\t' {
      ScanBackslash(st, 't');
    } else if Printable(c) || (!Ascii(c) && utf8) {
      ScanRaw(st, [c]);
    } else {
      var hex := "x" + [HexDigit(c as int % 256 / 16)] + [HexDigit(c as int % 16)];
      HexPlain(c);
      ScanBackslash(st, '\\');
      ScanRaw(st.(kept := st.kept + "\\\\"), hex);
      ScanConcat(st, "\\\\", hex);
      assert Escaped(c, utf8) == "\\\\" + hex;
      assert st.kept + "\\\\" + hex == st.kept + ("\\\\" + hex);
    }
  }

  lemma HexPlain(c: char)
    ensures var hex := "x" + [HexDigit(c as int % 256 / 16)] + [HexDigit(c as int % 16)];
      forall i :: 0 <= i < |hex| ==> hex[i] != '"' && hex[i] != '\\' && hex[i] != '\n'
  {
  }

  lemma {:induction false} ScanEscapedAll(st: Scan, s: string, utf8: bool)
    requires InString(st)
    ensures ScanAll(st, EscapedAll(s, utf8)) == st.(kept := st.kept + EscapedAll(s, utf8))
    decreases |s|
  {
    hide Step, ScanAll, Escaped;
    if s == "" {
      ScanNone(st);
      assert st.kept + "" == st.kept;
    } else {
      var first, rest := Escaped(s[0], utf8), EscapedAll(s[1..], utf8);
      ScanEscaped(st, s[0], utf8);
      ScanEscapedAll(st.(kept := st.kept + first), s[1..], utf8);
      ScanConcat(st, first, rest);
      assert st.kept + first + rest == st.kept + (first + rest);
    }
  }

  /** A value may begin here. */
  predicate Ready(st: Scan) {
    !st.inString && !st.escaped && st.ok && (st.place == Gap || st.place == Indent(Indentation(st.depth), false))
  }

  /** The scanner behind a value */
  function After(st: Scan, text: string): Scan { st.(place := Middle, kept := st.kept + text) }

  lemma ScanString(st: Scan, inner: string)
    requires Ready(st)
    requires forall u: Scan :: InString(u) ==> ScanAll(u, inner) == u.(kept := u.kept + inner)
    ensures ScanAll(st, "\"" + inner + "\"") == After(st, "\"" + inner + "\"")
  {
    hide ScanAll;
    ScanConcat(st, "\"" + inner, "\"");
    ScanConcat(st, "\"", inner);
    ScanOne(st, '"');
    var u := Step(st, '"');
    var v := u.(kept := u.kept + inner);
    assert ScanAll(u, inner) == v;
    ScanOne(v, '"');
    assert st.kept + ['"'] + inner + ['"'] == st.kept + ("\"" + inner + "\"");
  }

  lemma ScanQuoted(st: Scan, s: string)
    requires Ready(st)
    ensures ScanAll(st, Quoted(s)) == After(st, Quoted(s))
  {
    hide Step, ScanAll, EscapedAll, IsUtf8, Ready;
    forall u: Scan | InString(u)
      ensures ScanAll(u, EscapedAll(s, IsUtf8(s))) == u.(kept := u.kept + EscapedAll(s, IsUtf8(s)))
    {
      ScanEscapedAll(u, s, IsUtf8(s));
    }
    ScanString(st, EscapedAll(s, IsUtf8(s)));
  }

  /** Characters of words and numbers */
  predicate WordChar(c: char) { 'a' <= c <= 'z' || '0' <= c <= '9' || c == '-' }

  lemma {:induction false} ScanWord(st: Scan, s: string)
    requires Ready(st) && s != "" && forall i :: 0 <= i < |s| ==> WordChar(s[i])
    ensures ScanAll(st, s) == After(st, s)
  {
    var before, c := s[..|s| - 1], s[|s| - 1];
    if before == "" {
      assert s == [c];
      ScanOne(st, c);
    } else {
      ScanWord(st, before);
      assert st.kept + s == st.kept + before + [c];
    }
  }

  lemma ScanScalar(st: Scan, v: Scalar)
    requires Ready(st)
    ensures ScanAll(st, PrintScalar(v)) == After(st, PrintScalar(v))
  {
    hide Ready, ScanAll, Decimal, Quoted, After;
    match v
    case Str(s) => ScanQuoted(st, s);
    case Bool(_) => ScanWord(st, PrintScalar(v));
    case Int(i) =>
      DecimalRead(if i < 0 then -(i as int) else i as int);
      ScanWord(st, PrintScalar(v));
    case UInt(u) =>
      DecimalRead(u);
      ScanWord(st, PrintScalar(v));
    case UInt128(hi, lo) =>
      DecimalRead(hi * 0x1_0000_0000_0000_0000 + lo);
      ScanWord(st, PrintScalar(v));
  }

  // ---------------------------------------------------------------------
  // Line breaks and keys

  lemma {:induction false} ScanSpaces(st: Scan, n: nat, k: nat, last: bool)
    requires !st.inString && st.place == Indent(n, last)
    ensures ScanAll(st, Spaces(k)) == st.(place := Indent(n + k, last))
  {
    hide ScanAll;
    if k > 0 {
      ScanSpaces(st, n, k - 1, last);
      ScanConcat(st, Spaces(k - 1), " ");
      ScanOne(st.(place := Indent(n + (k - 1), last)), ' ');
    } else {
      ScanNone(st);
    }
  }

  lemma NewLineIs(level: nat)
    ensures NewLine(true, level) == "\n" + Spaces(Indentation(level))
  {
    hide Spaces;
    if level > 255 {
      var s, t := ("\n" + Spaces(2 * level))[..511], "\n" + Spaces(510);
      assert |s| == |t| && forall i :: 0 <= i < |s| ==> s[i] == t[i];
    }
  }

  lemma ScanNewLine(st: Scan, level: nat)
    requires !st.inString && st.ok && (st.place == Opened || st.place == Comma || st.place == Middle)
    ensures ScanAll(st, NewLine(true, level)) == st.(place := Indent(Indentation(level), st.place == Middle))
  {
    hide ScanAll, NewLine, Spaces;
    NewLineIs(level);
    ScanConcat(st, "\n", Spaces(Indentation(level)));
    ScanOne(st, '\n');
    ScanSpaces(Step(st, '\n'), 0, Indentation(level), st.place == Middle);
  }

  lemma ScanPlain(st: Scan, k: Name)
    requires Ready(st) && PlainKey(k)
    ensures ScanAll(st, "\"" + k + "\"") == After(st, "\"" + k + "\"")
  {
    hide ScanAll, PlainKey, Step;
    PlainUnescaped(k);
    forall u: Scan | InString(u)
      ensures ScanAll(u, k) == u.(kept := u.kept + k)
    {
      ScanRaw(u, k);
    }
    ScanString(st, k);
  }

  /** The colon and the space behind a key */
  lemma ScanColon(st: Scan)
    requires !st.inString && st.place == Middle
    ensures ScanAll(st, ":" + " ") == st.(place := Gap, kept := st.kept + ":")
  {
    hide ScanAll;
    ScanConcat(st, ":", " ");
    ScanOne(st, ':');
    ScanOne(Step(st, ':'), ' ');
  }

  lemma ScanKey(st: Scan, k: Name)
    requires Ready(st) && PlainKey(k) && |k| <= 507
    ensures ScanAll(st, KeyText(k, true)) == st.(place := Gap, kept := st.kept + KeyText(k, false))
  {
    hide ScanAll, PlainKey, KeyText, Step;
    KeyTextIs(k, true);
    KeyTextIs(k, false);
    ScanPlain(st, k);
    var quoted := "\"" + k + "\"";
    ScanConcat(st, quoted, ":" + " ");
    ScanColon(After(st, quoted));
    assert KeyText(k, true) == quoted + (":" + " ");
    assert st.kept + quoted + ":" == st.kept + (quoted + ":");
  }

  // ---------------------------------------------------------------------
  // Trees

  /** All keys fit in the buffer of `format` with the space behind the colon. */
  ghost predicate NarrowKeys(t: Tree) {
    match t
    case Unset => true
    case Leaf(_) => true
    case Obj(fields) => forall i :: 0 <= i < |fields| ==> |fields[i].key| <= 507 && NarrowKeys(fields[i].tree)
    case Arr(items) => forall i :: 0 <= i < |items| ==> NarrowKeys(items[i])
  }

  lemma ScanOpen(st: Scan, c: char)
    requires Ready(st) && (c == '{' || c == '[')
    ensures ScanAll(st, [c]) == st.(depth := st.depth + 1, place := Opened, kept := st.kept + [c])
    ensures !st.inString && !st.escaped && st.ok
  {
    hide ScanAll;
    ScanOne(st, c);
  }

  /** The closing bracket: directly behind the opening one, or on a line of its own */
  lemma ScanClose(st: Scan, c: char)
    requires !st.inString && st.ok && st.depth > 0 && Closing(c)
    requires st.place == Opened || st.place == Indent(Indentation(st.depth - 1), true)
    ensures ScanAll(st, [c]) == st.(depth := st.depth - 1, place := Middle, kept := st.kept + [c])
  {
    hide ScanAll;
    ScanOne(st, c);
  }

  /** Behind the elements printed so far */
  function Between(st: Scan, first: bool, text: string): Scan {
    if first then st else st.(place := Middle, kept := st.kept + text)
  }

  lemma {:induction false} ScanPrint(st: Scan, t: Tree, level: nat)
    requires Ready(st) && st.depth == level && Proper(t) && NarrowKeys(t)
    ensures ScanAll(st, Print(t, true, level)) == After(st, Print(t, false, level))
    decreases t, 1, 0
  {
    hide ScanAll, NewLine, PrintScalar, PrintFields, PrintItems, Ready, Step;
    match t
    case Unset => ScanWord(st, "null");
    case Leaf(v) => ScanScalar(st, v);
    case Obj(fields) =>
      ScanOpen(st, '{');
      var u := st.(depth := level + 1, place := Opened, kept := st.kept + "{");
      ScanFields(u, t, 0, level);
      PrintFieldsIs(t, |fields|, true, level);
      PrintFieldsIs(t, |fields|, false, level);
      CompactNewLine(level);
      ScanBrackets(st, u, "{", '}', PrintFields(t, 0, true, level), PrintFields(t, 0, false, level), fields == [],
                   level);
    case Arr(items) =>
      ScanOpen(st, '[');
      var u := st.(depth := level + 1, place := Opened, kept := st.kept + "[");
      ScanItems(u, t, 0, level);
      PrintItemsIs(t, |items|, true, level);
      PrintItemsIs(t, |items|, false, level);
      CompactNewLine(level);
      ScanBrackets(st, u, "[", ']', PrintItems(t, 0, true, level), PrintItems(t, 0, false, level), items == [], level);
  }

  lemma ScanThree(st: Scan, a: string, u: Scan, b: string, v: Scan, c: string)
    requires ScanAll(st, a) == u && ScanAll(u, b) == v
    ensures ScanAll(st, a + b + c) == ScanAll(v, c)
  {
    hide ScanAll;
    ScanConcat(st, a + b, c);
    ScanConcat(st, a, b);
  }

  lemma EmptyBrackets(kept: string, open: string, c: char)
    ensures open + "" + "" + [c] == open + "" + [c] && kept + open + [c] == kept + (open + "" + "" + [c])
  {
  }

  lemma FullBrackets(kept: string, open: string, text: string, c: char)
    ensures kept + open + text + [c] == kept + (open + text + "" + [c])
  {
  }

  /** The brackets around the elements */
  lemma ScanBrackets(st: Scan, u: Scan, open: string, c: char, pretty: string, compact: string, empty: bool, level: nat)
    requires Ready(st) && st.depth == level && Closing(c)
    requires u == st.(depth := level + 1, place := Opened, kept := st.kept + open) && ScanAll(st, open) == u
    requires ScanAll(u, pretty) == if empty then u else u.(place := Middle, kept := u.kept + compact)
    requires empty ==> compact == ""
    ensures ScanAll(st, open + pretty + (if empty then "" else NewLine(true, level)) + [c])
         == After(st, open + compact + "" + [c])
  {
    hide ScanAll, NewLine, Indentation;
    if empty {
      ScanThree(st, open, u, pretty, u, "" + [c]);
      assert "" + [c] == [c];
      assert open + pretty + ("" + [c]) == open + pretty + "" + [c];
      EmptyBrackets(st.kept, open, c);
      ScanClose(u, c);
    } else {
      var v, line := u.(place := Middle, kept := u.kept + compact), NewLine(true, level);
      ScanNewLine(v, level);
      ScanThree(st, open, u, pretty, v, line);
      ScanConcat(st, open + pretty + line, [c]);
      ScanClose(v.(place := Indent(Indentation(level), true)), c);
      FullBrackets(st.kept, open, compact, c);
    }
  }

  lemma CompactNewLine(level: nat)
    ensures NewLine(false, level) == ""
  {
  }

  lemma {:induction false} ScanFields(st: Scan, t: Tree, i: nat, level: nat)
    requires t.Obj? && Proper(t) && NarrowKeys(t) && i <= |t.fields|
    requires !st.inString && !st.escaped && st.ok && st.depth == level + 1
    requires st.place == if i == 0 then Opened else Middle
    ensures ScanAll(st, PrintFields(t, i, true, level)) ==
            if i == |t.fields| then st else st.(place := Middle, kept := st.kept + PrintFields(t, i, false, level))
    decreases t, 0, |t.fields| - i
  {
    hide ScanAll, NewLine, KeyText, Print, PrintFields, Proper, NarrowKeys, PlainKey;
    PrintFieldsIs(t, i, true, level);
    PrintFieldsIs(t, i, false, level);
    if i == |t.fields| {
      ScanNone(st);
    } else {
      var f := t.fields[i];
      FieldFits(t, i);
      var comma := if i > 0 then "," else "";
      var s1 := ScanSeparator(st, i == 0, level);
      ScanKey(s1, f.key);
      var s2 := s1.(place := Gap, kept := s1.kept + KeyText(f.key, false));
      ScanPrint(s2, f.tree, level + 1);
      var s3 := After(s2, Print(f.tree, false, level + 1));
      ScanFields(s3, t, i + 1, level);
      CompactNewLine(level + 1);
      PrintFieldsIs(t, i + 1, false, level);
      JoinFive(st, s1, comma + NewLine(true, level + 1), s2, KeyText(f.key, true), s3, Print(f.tree, true, level + 1),
               PrintFields(t, i + 1, true, level));
      assert comma + "" + KeyText(f.key, false) == comma + KeyText(f.key, false);
      KeptFive(st.kept, comma, KeyText(f.key, false), Print(f.tree, false, level + 1),
               PrintFields(t, i + 1, false, level));
    }
  }

  /** The comma, unless it is the first element, and the line break */
  lemma ScanSeparator(st: Scan, first: bool, level: nat) returns (s1: Scan)
    requires !st.inString && !st.escaped && st.ok && st.depth == level + 1
    requires st.place == if first then Opened else Middle
    ensures ScanAll(st, (if first then "" else ",") + NewLine(true, level + 1)) == s1 && Ready(s1)
    ensures s1 == st.(place := Indent(Indentation(level + 1), false), kept := st.kept + if first then "" else ",")
  {
    hide ScanAll, NewLine;
    var line := NewLine(true, level + 1);
    if first {
      assert "" + line == line && st.kept + "" == st.kept;
      ScanNewLine(st, level + 1);
    } else {
      ScanConcat(st, ",", line);
      ScanOne(st, ',');
      ScanNewLine(Step(st, ','), level + 1);
    }
    s1 := st.(place := Indent(Indentation(level + 1), false), kept := st.kept + if first then "" else ",");
  }

  lemma JoinFive(st: Scan, s1: Scan, a: string, s2: Scan, b: string, s3: Scan, c: string, d: string)
    requires ScanAll(st, a) == s1 && ScanAll(s1, b) == s2 && ScanAll(s2, c) == s3
    ensures ScanAll(st, a + b + c + d) == ScanAll(s3, d)
  {
    hide ScanAll;
    ScanConcat(st, a + b + c, d);
    ScanConcat(st, a + b, c);
    ScanConcat(st, a, b);
  }

  lemma KeptFive(kept: string, a: string, b: string, c: string, d: string)
    ensures kept + a + b + c + d == kept + (a + "" + b + c + d)
    ensures d == "" ==> kept + a + b + c == kept + (a + "" + b + c + d)
  {
  }

  lemma FieldFits(t: Tree, i: nat)
    requires t.Obj? && Proper(t) && NarrowKeys(t) && i < |t.fields|
    ensures PlainKey(t.fields[i].key) && |t.fields[i].key| <= 507
    ensures Proper(t.fields[i].tree) && NarrowKeys(t.fields[i].tree)
  {
  }

  lemma {:induction false} ScanItems(st: Scan, t: Tree, i: nat, level: nat)
    requires t.Arr? && Proper(t) && NarrowKeys(t) && i <= |t.items|
    requires !st.inString && !st.escaped && st.ok && st.depth == level + 1
    requires st.place == if i == 0 then Opened else Middle
    ensures ScanAll(st, PrintItems(t, i, true, level)) ==
            if i == |t.items| then st else st.(place := Middle, kept := st.kept + PrintItems(t, i, false, level))
    decreases t, 0, |t.items| - i
  {
    hide ScanAll, NewLine, Print, PrintItems, Proper, NarrowKeys;
    PrintItemsIs(t, i, true, level);
    PrintItemsIs(t, i, false, level);
    if i == |t.items| {
      ScanNone(st);
    } else {
      ItemFits(t, i);
      var comma := if i > 0 then "," else "";
      var s1 := ScanSeparator(st, i == 0, level);
      ScanPrint(s1, t.items[i], level + 1);
      var s3 := After(s1, Print(t.items[i], false, level + 1));
      ScanItems(s3, t, i + 1, level);
      CompactNewLine(level + 1);
      PrintItemsIs(t, i + 1, false, level);
      ScanConcat(st, comma + NewLine(true, level + 1) + Print(t.items[i], true, level + 1),
                 PrintItems(t, i + 1, true, level));
      ScanConcat(st, comma + NewLine(true, level + 1), Print(t.items[i], true, level + 1));
      KeptFive(st.kept, comma, "", Print(t.items[i], false, level + 1), PrintItems(t, i + 1, false, level));
      assert comma + "" + "" == comma + "";
      assert st.kept + comma + "" == st.kept + comma;
    }
  }

  lemma ItemFits(t: Tree, i: nat)
    requires t.Arr? && Proper(t) && NarrowKeys(t) && i < |t.items|
    ensures Proper(t.items[i]) && NarrowKeys(t.items[i])
  {
  }

  /** The scanner at the start of a document */
  function Begin(): Scan { Scan(0, false, false, Gap, true, "") }

  /** Main result: in a pretty printed document every element stands on a line of its own,
      indented by two spaces for each bracket around it, with one space behind each colon and
      no other white space outside of strings; without all this it is the compact document. */
  lemma PrettyLayout(t: Tree)
    requires Proper(t) && NarrowKeys(t)
    ensures var st := ScanAll(Begin(), Document(t, true));
      st.ok && st.depth == 0 && !st.inString && st.kept == Document(t, false)
  {
    hide ScanAll, Print, Proper, NarrowKeys;
    ScanPrint(Begin(), t, 0);
    var u := After(Begin(), Print(t, false, 0));
    ScanConcat(Begin(), Print(t, true, 0), "\n");
    ScanOne(u, '\n');
    assert "" + Print(t, false, 0) == Print(t, false, 0) + "";
  }

  // ---------------------------------------------------------------------
  // Keys that leave no room for the space

  lemma {:induction false} ErrorStays(st: Scan, s: string)
    requires !st.ok
    ensures !ScanAll(st, s).ok
  {
    if s != "" {
      ErrorStays(st, s[..|s| - 1]);
    }
  }

  /** What stands behind a misplaced character does not help. */
  lemma BrokenBefore(st: Scan, a: string, u: Scan, b: string, c: string)
    requires ScanAll(st, a) == u && !ScanAll(u, b).ok
    ensures !ScanAll(st, a + b + c).ok
  {
    hide ScanAll;
    ScanConcat(st, a + b, c);
    ScanConcat(st, a, b);
    ErrorStays(ScanAll(u, b), c);
  }

  lemma NoSpace(st: Scan, s: string)
    requires !st.inString && st.place == Colon && s != "" && s[0] != ' '
    ensures !ScanAll(st, s).ok
  {
    hide ScanAll;
    assert s == [s[0]] + s[1..];
    ScanConcat(st, [s[0]], s[1..]);
    ScanOne(st, s[0]);
    ErrorStays(Step(st, s[0]), s[1..]);
  }

  /** A key of 508 characters, and the value directly behind its colon */
  lemma WideKey(st: Scan, k: Name, value: string)
    requires Ready(st) && PlainKey(k) && |k| == 508 && value != "" && value[0] != ' '
    ensures !ScanAll(st, KeyText(k, true) + value).ok
  {
    hide ScanAll, PlainKey, KeyText, Step;
    var quoted := "\"" + k + "\"";
    KeyTextIs(k, true);
    assert KeyText(k, true) + value == quoted + (":" + value);
    ScanPlain(st, k);
    ScanConcat(st, quoted, ":" + value);
    ScanConcat(After(st, quoted), ":", value);
    ScanOne(After(st, quoted), ':');
    AtColon(After(st, quoted));
    NoSpace(Step(After(st, quoted), ':'), value);
  }

  lemma AtColon(st: Scan)
    requires !st.inString && st.place == Middle
    ensures var u := Step(st, ':'); !u.inString && u.place == Colon
  {
  }

  lemma StartsNoSpace(t: Tree, level: nat)
    ensures Print(t, true, level) != "" && Print(t, true, level)[0] != ' '
  {
    hide Print;
    PrintStarts(t, true, level);
  }

  /** A field, or one behind it, has a key that leaves no room. */
  ghost predicate WideFrom(t: Tree, i: nat)
    requires t.Obj?
  {
    exists j :: i <= j < |t.fields| && !(|t.fields[j].key| <= 507 && NarrowKeys(t.fields[j].tree))
  }

  ghost predicate WideItem(t: Tree, i: nat)
    requires t.Arr?
  {
    exists j :: i <= j < |t.items| && !NarrowKeys(t.items[j])
  }

  lemma WideInside(t: Tree)
    requires !NarrowKeys(t)
    ensures t.Obj? || t.Arr?
    ensures t.Obj? ==> WideFrom(t, 0) && t.fields != []
    ensures t.Arr? ==> WideItem(t, 0) && t.items != []
  {
  }

  lemma {:induction false} BrokenPrint(st: Scan, t: Tree, level: nat)
    requires Ready(st) && st.depth == level && Proper(t) && ShortKeys(t) && !NarrowKeys(t)
    ensures !ScanAll(st, Print(t, true, level)).ok
    decreases t, 1, 0
  {
    hide ScanAll, NewLine, PrintFields, PrintItems, Ready, Step, NarrowKeys, Proper, ShortKeys;
    WideInside(t);
    if t.Obj? {
      ScanOpen(st, '{');
      var u := st.(depth := level + 1, place := Opened, kept := st.kept + "{");
      BrokenFields(u, t, 0, level);
      BrokenBefore(st, "{", u, PrintFields(t, 0, true, level), NewLine(true, level) + "}");
      assert Print(t, true, level) == "{" + PrintFields(t, 0, true, level) + (NewLine(true, level) + "}");
    } else {
      ScanOpen(st, '[');
      var u := st.(depth := level + 1, place := Opened, kept := st.kept + "[");
      BrokenItems(u, t, 0, level);
      BrokenBefore(st, "[", u, PrintItems(t, 0, true, level), NewLine(true, level) + "]");
      assert Print(t, true, level) == "[" + PrintItems(t, 0, true, level) + (NewLine(true, level) + "]");
    }
  }

  lemma FieldShort(t: Tree, i: nat)
    requires t.Obj? && Proper(t) && ShortKeys(t) && i < |t.fields|
    ensures PlainKey(t.fields[i].key) && |t.fields[i].key| <= 508
    ensures Proper(t.fields[i].tree) && ShortKeys(t.fields[i].tree)
  {
  }

  lemma Regroup(a: string, b: string, c: string, d: string)
    ensures a + (b + c) + d == a + b + c + d
  {
  }

  lemma {:induction false} BrokenFields(st: Scan, t: Tree, i: nat, level: nat)
    requires t.Obj? && Proper(t) && ShortKeys(t) && i < |t.fields| && WideFrom(t, i)
    requires !st.inString && !st.escaped && st.ok && st.depth == level + 1
    requires st.place == if i == 0 then Opened else Middle
    ensures !ScanAll(st, PrintFields(t, i, true, level)).ok
    decreases t, 0, |t.fields| - i
  {
    hide ScanAll, NewLine, KeyText, Print, PrintFields, Proper, NarrowKeys, PlainKey, ShortKeys, Step;
    PrintFieldsIs(t, i, true, level);
    FieldShort(t, i);
    var f := t.fields[i];
    var line := (if i > 0 then "," else "") + NewLine(true, level + 1);
    var key, value := KeyText(f.key, true), Print(f.tree, true, level + 1);
    var rest := PrintFields(t, i + 1, true, level);
    var s1 := ScanSeparator(st, i == 0, level);
    if |f.key| == 508 {
      StartsNoSpace(f.tree, level + 1);
      WideKey(s1, f.key, value);
      BrokenBefore(st, line, s1, key + value, rest);
      Regroup(line, key, value, rest);
    } else {
      ScanKey(s1, f.key);
      var s2 := s1.(place := Gap, kept := s1.kept + KeyText(f.key, false));
      ScanConcat(st, line, key);
      if NarrowKeys(f.tree) {
        ScanPrint(s2, f.tree, level + 1);
        var s3 := After(s2, Print(f.tree, false, level + 1));
        BrokenFields(s3, t, i + 1, level);
        JoinFive(st, s1, line, s2, key, s3, value, rest);
      } else {
        BrokenPrint(s2, f.tree, level + 1);
        BrokenBefore(st, line + key, s2, value, rest);
      }
    }
  }

  lemma {:induction false} BrokenItems(st: Scan, t: Tree, i: nat, level: nat)
    requires t.Arr? && Proper(t) && ShortKeys(t) && i < |t.items| && WideItem(t, i)
    requires !st.inString && !st.escaped && st.ok && st.depth == level + 1
    requires st.place == if i == 0 then Opened else Middle
    ensures !ScanAll(st, PrintItems(t, i, true, level)).ok
    decreases t, 0, |t.items| - i
  {
    hide ScanAll, NewLine, Print, PrintItems, NarrowKeys, Step;
    PrintItemsIs(t, i, true, level);
    var line := (if i > 0 then "," else "") + NewLine(true, level + 1);
    var value, rest := Print(t.items[i], true, level + 1), PrintItems(t, i + 1, true, level);
    var s1 := ScanSeparator(st, i == 0, level);
    if NarrowKeys(t.items[i]) {
      ScanPrint(s1, t.items[i], level + 1);
      var s2 := After(s1, Print(t.items[i], false, level + 1));
      BrokenItems(s2, t, i + 1, level);
      ScanThree(st, line, s1, value, s2, rest);
    } else {
      BrokenPrint(s1, t.items[i], level + 1);
      BrokenBefore(st, line, s1, value, rest);
    }
  }

  /** A document with keys that are not cut off has this layout exactly if no key has 508
      characters: such a key takes the room of the space behind its colon. */
  lemma LayoutCondition(t: Tree)
    requires Proper(t) && ShortKeys(t)
    ensures ScanAll(Begin(), Document(t, true)).ok <==> NarrowKeys(t)
  {
    hide ScanAll, Print, Proper, NarrowKeys, ShortKeys, Step;
    if NarrowKeys(t) {
      PrettyLayout(t);
    } else {
      BrokenPrint(Begin(), t, 0);
      ScanConcat(Begin(), Print(t, true, 0), "\n");
      ErrorStays(ScanAll(Begin(), Print(t, true, 0)), "\n");
    }
  }

  const DIGITS := "0123456789abcdef"

  /** A control character is shown by its code in two hex digits. */
  lemma ControlShown(c: char, utf8: bool)
    requires c as int < 256 && !Kept(c, utf8)
    ensures ShownChar(c, utf8) == "\\x" + [DIGITS[c as int / 16], DIGITS[c as int % 16]]
  {
    hide HexDigit, Escaped, Shown;
    DigitIs(c as int / 16);
    DigitIs(c as int % 16);
    assert c as int % 256 == c as int;
  }

  lemma DigitIs(x: nat)
    requires x < 16
    ensures HexDigit(x) == DIGITS[x]
  {
  }
}
