/** The JSON printer (`json::output_json` and `print_quoted_string` of lib/json.cpp). */
module JsonText {
  import opened Wrappers
  import opened JsonTree
  import opened Text
  import Utf8

  /** A C string holds no NUL; its characters are bytes. */
  predicate CString(s: string) { forall i :: 0 <= i < |s| ==> 0 < s[i] as int < 256 }

  function ByteOf(c: char): bv8 { (c as int % 256) as bv8 }

  function Bytes(s: string): (b: seq<bv8>)
    ensures |b| == |s| && forall i :: 0 <= i < |s| ==> b[i] == ByteOf(s[i])
  {
    if s == "" then [] else Bytes(s[..|s| - 1]) + [ByteOf(s[|s| - 1])]
  }

  // ---------------------------------------------------------------------
  // Strings

  predicate Ascii(c: char) { c < 128 as char }

  predicate Printable(c: char) { ' ' <= c <= '~' }

  /** `\\x%02x` */
  function Hex(c: char): string {
    "\\\\x" + [HexDigit(c as int % 256 / 16)] + [HexDigit(c as int % 16)]
  }

  /** A character of a quoted string; `utf8`: characters above 0x7f are printed as they are. */
  function Escaped(c: char, utf8: bool): string {
    if c == '"' then "\\\"" else if c == '\\' then "\\\\" else if c == '\t' then "\\t"
    else if Printable(c) || (!Ascii(c) && utf8) then [c]
    else Hex(c)
  }

  function EscapedAll(s: string, utf8: bool): string {
    if s == "" then "" else Escaped(s[0], utf8) + EscapedAll(s[1..], utf8)
  }

  predicate IsUtf8(s: string) { Utf8.Octets(Bytes(s)) }

  function Quoted(s: string): string { "\"" + EscapedAll(s, IsUtf8(s)) + "\"" }

  // ---------------------------------------------------------------------
  // Values

  /** `format`: at most 511 characters get through. */
  function Format(s: string): string { if |s| <= 511 then s else s[..511] }

  function Spaces(n: nat): (r: string)
    ensures |r| == n && forall i :: 0 <= i < n ==> r[i] == ' '
  {
    if n == 0 then "" else Spaces(n - 1) + " "
  }

  function NewLine(pretty: bool, level: nat): string {
    if pretty then Format("\n" + Spaces(2 * level)) else ""
  }

  function Decimal(n: nat): string {
    if n < 10 then ['0' + n as char] else Decimal(n / 10) + ['0' + (n % 10) as char]
  }

  function SignedDecimal(i: int): string { if i < 0 then "-" + Decimal(-i) else Decimal(i) }

  function PrintScalar(v: Scalar): string {
    match v
    case Bool(b) => if b then "true" else "false"
    case Int(i) => SignedDecimal(i)
    case UInt(u) => Decimal(u)
    case UInt128(hi, lo) => Decimal(hi * 0x1_0000_0000_0000_0000 + lo)
    case Str(s) => Quoted(s)
  }

  function KeyText(k: Name, pretty: bool): string {
    Format("\"" + k + "\":" + if pretty then " " else "")
  }

  function Print(t: Tree, pretty: bool, level: nat): string
    decreases t, 1, 0
  {
    match t
    case Unset => "null"
    case Leaf(v) => PrintScalar(v)
    case Obj(fields) =>
      "{" + PrintFields(t, 0, pretty, level) + (if fields != [] then NewLine(pretty, level) else "") + "}"
    case Arr(items) =>
      "[" + PrintItems(t, 0, pretty, level) + (if items != [] then NewLine(pretty, level) else "") + "]"
  }

  /** The fields from the `i`-th on */
  function PrintFields(t: Tree, i: nat, pretty: bool, level: nat): string
    requires t.Obj? && i <= |t.fields|
    decreases t, 0, |t.fields| - i
  {
    if i == |t.fields| then "" else
    (if i > 0 then "," else "") + NewLine(pretty, level + 1) + KeyText(t.fields[i].key, pretty)
    + Print(t.fields[i].tree, pretty, level + 1) + PrintFields(t, i + 1, pretty, level)
  }

  function PrintItems(t: Tree, i: nat, pretty: bool, level: nat): string
    requires t.Arr? && i <= |t.items|
    decreases t, 0, |t.items| - i
  {
    if i == |t.items| then "" else
    (if i > 0 then "," else "") + NewLine(pretty, level + 1)
    + Print(t.items[i], pretty, level + 1) + PrintItems(t, i + 1, pretty, level)
  }
}
