/**
  A parser for JSON texts as in sections 2 to 7 of RFC 8259.  Texts are byte strings;
  a byte above 0x7f is part of an unescaped character.
 */
module JsonGrammar {
  import opened Text
  import opened Wrappers

  /** A character of a string: as it stands, or as a UTF-16 code unit `\uXXXX`. */
  datatype Unit = Char(c: char) | Code(unit: nat)

  datatype JsonValue =
    | JNull
    | JBool(b: bool)
    | JNumber(negative: bool, whole: nat, fraction: string, exponent: string)
    | JString(units: seq<Unit>)
    | JArray(items: seq<JsonValue>)
    | JObject(members: seq<Member>)

  datatype Member = Member(name: seq<Unit>, value: JsonValue)

  /** What was read, and the text behind it */
  datatype Read<T> = Read(value: T, rest: string)

  // ---------------------------------------------------------------------
  // Section 2: white space and structural characters

  predicate Space(c: char) { c == ' ' || c == '\t' || c == '\n' || c == '\r' }

  function SkipSpace(s: string): (r: string)
    ensures |r| <= |s|
  {
    if s != "" && Space(s[0]) then SkipSpace(s[1..]) else s
  }

  /** A structural character with the white space around it */
  function Token(s: string, c: char): (r: Option<string>)
    ensures r.Some? ==> |r.value| < |s|
  {
    var t := SkipSpace(s);
    if t != "" && t[0] == c then Some(SkipSpace(t[1..])) else None
  }

  // ---------------------------------------------------------------------
  // Section 6: numbers

  predicate Digit(c: char) { '0' <= c <= '9' }

  /** The digits at the front */
  function Digits(s: string): (n: nat)
    ensures n <= |s| && (forall i :: 0 <= i < n ==> Digit(s[i])) && (n < |s| ==> !Digit(s[n]))
  {
    if s != "" && Digit(s[0]) then 1 + Digits(s[1..]) else 0
  }

  function DigitValue(c: char): nat
    requires Digit(c)
  {
    (c - '0') as nat
  }

  function Number(digits: string): nat
    requires forall i :: 0 <= i < |digits| ==> Digit(digits[i])
  {
    if digits == "" then 0
    else 10 * Number(digits[..|digits| - 1]) + DigitValue(digits[|digits| - 1])
  }

  function ParseFraction(s: string): (r: Option<Read<string>>)
    ensures r.Some? ==> |r.value.rest| <= |s|
  {
    if s == "" || s[0] != '.' then Some(Read("", s)) else
    var n := Digits(s[1..]);
    if n == 0 then None else Some(Read(s[1..n + 1], s[n + 1..]))
  }

  function ParseExponent(s: string): (r: Option<Read<string>>)
    ensures r.Some? ==> |r.value.rest| <= |s|
  {
    if s == "" || (s[0] != 'e' && s[0] != 'E') then Some(Read("", s)) else
    var sign := if |s| > 1 && (s[1] == '+' || s[1] == '-') then 1 else 0;
    var n := Digits(s[1 + sign..]);
    if n == 0 then None else Some(Read(s[1..1 + sign + n], s[1 + sign + n..]))
  }

  function ParseNumber(s: string): (r: Option<Read<JsonValue>>)
    ensures r.Some? ==> |r.value.rest| < |s|
  {
    var minus := s != "" && s[0] == '-';
    var t := if minus then s[1..] else s;
    var n := Digits(t);
    if n == 0 || (n > 1 && t[0] == '0') then None else
    var frac := ParseFraction(t[n..]);
    if frac.None? then None else
    var exp := ParseExponent(frac.value.rest);
    if exp.None? then None else
    Some(Read(JNumber(minus, Number(t[..n]), frac.value.value, exp.value.value), exp.value.rest))
  }

  // ---------------------------------------------------------------------
  // Section 7: strings

  function HexValue(c: char): Option<nat> {
    if Digit(c) then Some((c - '0') as nat)
    else if 'a' <= c <= 'f' then Some(10 + (c - 'a') as nat)
    else if 'A' <= c <= 'F' then Some(10 + (c - 'A') as nat)
    else None
  }

  /** The character behind a backslash */
  function ParseEscape(s: string): (r: Option<Read<Unit>>)
    requires s != ""
    ensures r.Some? ==> |r.value.rest| < |s|
  {
    var c := s[0];
    if c == '"' || c == '\\' || c == '/' then Some(Read(Char(c), s[1..]))
    else if c == 'b' then Some(Read(Char(8 as char), s[1..]))
    else if c == 'f' then Some(Read(Char(12 as char), s[1..]))
    else if c == 'n' then Some(Read(Char('\n'), s[1..]))
    else if c == 'r' then Some(Read(Char('\r'), s[1..]))
    else if c == 't' then Some(Read(Char('\t'), s[1..]))
    else if c == 'u' && |s| >= 5 then
      var h, i, j, k := HexValue(s[1]), HexValue(s[2]), HexValue(s[3]), HexValue(s[4]);
      if h.None? || i.None? || j.None? || k.None? then None
      else Some(Read(Code(4096 * h.value + 256 * i.value + 16 * j.value + k.value), s[5..]))
    else None
  }

  /** The characters up to the closing quotation mark */
  function ParseChars(s: string): (r: Option<Read<seq<Unit>>>)
    ensures r.Some? ==> |r.value.rest| < |s|
    decreases |s|
  {
    if s == "" || s[0] < ' ' then None
    else if s[0] == '"' then Some(Read([], s[1..]))
    else if s[0] == '\\' then
      if |s| == 1 then None else
      match ParseEscape(s[1..])
      case None => None
      case Some(Read(u, rest)) => Prepend(u, ParseChars(rest))
    else Prepend(Char(s[0]), ParseChars(s[1..]))
  }

  function Prepend(u: Unit, r: Option<Read<seq<Unit>>>): Option<Read<seq<Unit>>> {
    if r.None? then None else Some(Read([u] + r.value.value, r.value.rest))
  }

  function ParseString(s: string): (r: Option<Read<seq<Unit>>>)
    ensures r.Some? ==> |r.value.rest| < |s|
  {
    if s == "" || s[0] != '"' then None else ParseChars(s[1..])
  }

  // ---------------------------------------------------------------------
  // Sections 3 to 5: values, objects and arrays

  function ParseValue(s: string): (r: Option<Read<JsonValue>>)
    ensures r.Some? ==> |r.value.rest| < |s|
    decreases |s|, 1
  {
    if s == "" then None
    else if StartsWith(s, "null") then Some(Read(JNull, s[4..]))
    else if StartsWith(s, "true") then Some(Read(JBool(true), s[4..]))
    else if StartsWith(s, "false") then Some(Read(JBool(false), s[5..]))
    else if s[0] == '"' then
      match ParseString(s)
      case None => None
      case Some(Read(units, rest)) => Some(Read(JString(units), rest))
    else if s[0] == '{' then ParseObject(SkipSpace(s[1..]))
    else if s[0] == '[' then ParseArray(SkipSpace(s[1..]))
    else ParseNumber(s)
  }

  /** An object behind its opening brace */
  function ParseObject(s: string): (r: Option<Read<JsonValue>>)
    ensures r.Some? ==> |r.value.rest| <= |s|
    decreases |s|, 3
  {
    if s != "" && s[0] == '}' then Some(Read(JObject([]), s[1..])) else
    match ParseMembers(s)
    case None => None
    case Some(Read(members, rest)) => Some(Read(JObject(members), rest))
  }

  /** One member or more, up to the closing brace */
  function ParseMembers(s: string): (r: Option<Read<seq<Member>>>)
    ensures r.Some? ==> |r.value.rest| <= |s|
    decreases |s|, 2
  {
    match ParseString(s)
    case None => None
    case Some(Read(name, rest)) =>
      var t := Token(rest, ':');
      if t.None? then None else
      match ParseValue(t.value)
      case None => None
      case Some(Read(v, rest1)) =>
        var u := SkipSpace(rest1);
        if u == "" then None
        else if u[0] == '}' then Some(Read([Member(name, v)], u[1..]))
        else if u[0] != ',' then None else
        match ParseMembers(SkipSpace(u[1..]))
        case None => None
        case Some(Read(members, rest2)) => Some(Read([Member(name, v)] + members, rest2))
  }

  function ParseArray(s: string): (r: Option<Read<JsonValue>>)
    ensures r.Some? ==> |r.value.rest| <= |s|
    decreases |s|, 3
  {
    if s != "" && s[0] == ']' then Some(Read(JArray([]), s[1..])) else
    match ParseElements(s)
    case None => None
    case Some(Read(items, rest)) => Some(Read(JArray(items), rest))
  }

  /** One element or more, up to the closing bracket */
  function ParseElements(s: string): (r: Option<Read<seq<JsonValue>>>)
    ensures r.Some? ==> |r.value.rest| <= |s|
    decreases |s|, 2
  {
    match ParseValue(s)
    case None => None
    case Some(Read(v, rest)) =>
      var u := SkipSpace(rest);
      if u == "" then None
      else if u[0] == ']' then Some(Read([v], u[1..]))
      else if u[0] != ',' then None else
      match ParseElements(SkipSpace(u[1..]))
      case None => None
      case Some(Read(items, rest1)) => Some(Read([v] + items, rest1))
  }

  /** A JSON text: one value, with white space around it */
  function Parse(s: string): Option<JsonValue> {
    match ParseValue(SkipSpace(s))
    case None => None
    case Some(Read(v, rest)) => if SkipSpace(rest) == "" then Some(v) else None
  }
}
