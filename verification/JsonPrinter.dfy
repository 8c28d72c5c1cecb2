/** The printing of the node tree as JSON text (lib/json.cpp). */
module JsonPrinter {
  import opened Wrappers
  import opened Words
  import opened JsonTree
  import opened JsonNodes
  import opened JsonListing
  import opened JsonText
  import opened JsonRoundTrip
  import opened JsonDocument
  import G = JsonGrammar
  import JsonKey
  import Utf8

  /** `json::output_function` */
  class Output {
    var text: string

    constructor ()
      ensures text == ""
    {
      text := "";
    }

    method Put(s: string)
      modifies this
      ensures text == old(text) + s
    {
      text := text + s;
    }
  }

  /** The body of the loop over a string */
  method PutEscaped(out: Output, c0: char, utf8: bool)
    requires c0 as int < 256
    modifies out
    ensures out.text == old(out.text) + Escaped(c0, utf8)
  {
    var c := c0;
    if c == '"' || c == '\\' {
      out.Put("\\");
    } else if c == '\t' {
      out.Put("\\");
      c := 't';
    }
    if Printable(c) || (!Ascii(c) && utf8) {
      out.Put([c]);
    } else {
      out.Put(Hex(c));
    }
  }

  /** Prints a C string with quotation marks. */
  method PrintQuotedString(out: Output, s: string)
    requires CString(s)
    modifies out
    ensures out.text == old(out.text) + Quoted(s)
  {
    hide Escaped, IsUtf8;
    var rc := -2;
    out.Put("\"");
    assert s[0..] == s;
    for i := 0 to |s|
      invariant out.text + EscapedAll(s[i..], IsUtf8(s)) == old(out.text) + "\"" + EscapedAll(s, IsUtf8(s))
      invariant rc == -2 ==> forall j :: 0 <= j < i ==> Ascii(s[j])
      invariant rc == -2 || (rc == -1 <==> IsUtf8(s))
    {
      var c := s[i];
      if !Ascii(c) && rc < -1 {
        rc := CheckRest(s, i);
      }
      EscapedSame(c, rc == -1, IsUtf8(s));
      PutEscaped(out, c, rc == -1);
      assert s[i..][1..] == s[i + 1..];
    }
    assert s[|s|..] == "";
    out.Put("\"");
    assert old(out.text) + "\"" + EscapedAll(s, IsUtf8(s)) + "\"" == old(out.text) + Quoted(s);
  }

  lemma EscapedSame(c: char, a: bool, b: bool)
    requires Ascii(c) || a == b
    ensures Escaped(c, a) == Escaped(c, b)
  {
  }

  /** The check from the first byte above 0x7f on decides for the whole string. */
  method CheckRest(s: string, i: nat) returns (rc: int)
    requires CString(s) && i < |s| && forall j :: 0 <= j < i ==> Ascii(s[j])
    ensures rc >= -1 && (rc == -1 <==> IsUtf8(s))
  {
    hide IsUtf8, Utf8.Octets, Utf8.Check;
    var b := Bytes(s[i..]);
    NoNul(s[i..]);
    rc := Utf8.CheckUtf8(b);
    Utf8.CheckIsUtf8(b);
    OctetsAscii(s[..i]);
    Utf8Concat(s[..i], s[i..]);
    assert s[..i] + s[i..] == s;
    IsUtf8Is(s[i..]);
  }

  lemma IsUtf8Is(s: string)
    ensures IsUtf8(s) == Utf8.Octets(Bytes(s))
  {
  }

  lemma NoNul(s: string)
    requires CString(s)
    ensures forall i :: 0 <= i < |Bytes(s)| ==> Bytes(s)[i] != 0
  {
    forall i | 0 <= i < |s|
      ensures Bytes(s)[i] != 0
    {
      NotNul(s[i]);
    }
  }

  lemma NotNul(c: char)
    requires 0 < c as int < 256
    ensures ByteOf(c) != 0
  {
  }

  // ---------------------------------------------------------------------
  // The tree

  lemma PrintedProper(t: Tree, sorted: bool)
    requires Proper(t)
    ensures Proper(Printed(t, sorted)) && (ShortKeys(t) ==> ShortKeys(Printed(t, sorted)))
  {
    if sorted {
      SortedProper(t);
    }
  }

  lemma {:induction false} SortedProper(t: Tree)
    requires Proper(t)
    ensures Proper(Sorted(t)) && (ShortKeys(t) ==> ShortKeys(Sorted(t)))
    decreases t
  {
    hide At, KeyIndex, PlainKey, ShortKey, CString;
    match t
    case Unset =>
    case Leaf(_) =>
    case Obj(fields) =>
      forall j | 0 <= j < |fields|
        ensures Proper(Sorted(t).fields[j].tree) && (ShortKeys(t) ==> ShortKeys(Sorted(t).fields[j].tree))
      {
        SortedProper(fields[At(fields, j)].tree);
      }
    case Arr(items) =>
      forall j | 0 <= j < |items|
        ensures Proper(Sorted(t).items[j]) && (ShortKeys(t) ==> ShortKeys(Sorted(t).items[j]))
      {
        SortedProper(items[j]);
      }
  }

  /** Prints the value of a node without children. */
  method OutputScalar(out: Output, p: Node, ghost v: Scalar)
    requires p.Holds(v) && (v.Str? ==> CString(v.str))
    modifies out
    ensures out.text == old(out.text) + PrintScalar(v)
  {
    hide Quoted, Decimal, CString;
    if p.typ == NtBool {
      out.Put(if p.intval != 0 then "true" else "false");
    } else if p.typ == NtInt {
      out.Put(SignedDecimal(AsSigned(p.intval)));
    } else if p.typ == NtUint {
      out.Put(Decimal(p.intval));
    } else if p.typ == NtUint128 {
      out.Put(Decimal(p.intvalHi * U64 + p.intval));
    } else {
      PrintQuotedString(out, p.strval);
    }
  }

  /** Prints the subtree `p`. */
  method OutputJson(out: Output, pretty: bool, sorted: bool, p: Node, level: nat, ghost nodes: set<Node>)
    requires p in nodes && OthersStand(nodes, null) && p.tree != Unset && Proper(p.tree)
    modifies out
    ensures out.text == old(out.text) + Print(Printed(p.tree, sorted), pretty, level)
    decreases p.tree, 1
  {
    hide Printed, NewLine, PrintScalar, CString, PrintFields, PrintItems, PlainKey;
    ghost var before := out.text;
    if p.typ == NtObject {
      PrintedObj(p.tree, sorted);
      out.Put("{");
      OutputMembers(out, pretty, sorted, p, level, nodes);
      if p.childs != [] {
        out.Put(NewLine(pretty, level));
      }
      out.Put("}");
      Associate(before, "{", PrintFields(Printed(p.tree, sorted), 0, pretty, level),
                if p.childs != [] then NewLine(pretty, level) else "", "}");
    } else if p.typ == NtArray {
      PrintedArr(p.tree, sorted);
      out.Put("[");
      OutputElements(out, pretty, sorted, p, level, nodes);
      if p.childs != [] {
        out.Put(NewLine(pretty, level));
      }
      out.Put("]");
      Associate(before, "[", PrintItems(Printed(p.tree, sorted), 0, pretty, level),
                if p.childs != [] then NewLine(pretty, level) else "", "]");
    } else {
      PrintedLeaf(p.tree, sorted);
      OutputScalar(out, p, p.tree.value);
    }
  }

  lemma Associate(a: string, b: string, c: string, d: string, e: string)
    ensures a + b + c + d + e == a + (b + c + d + e)
    ensures a + b + c + e == a + (b + c + "" + e)
  {
    assert c + "" == c;
  }

  /** What precedes a child: a comma unless it is the first, and a new line. */
  method PutSeparator(out: Output, first: bool, pretty: bool, level: nat)
    modifies out
    ensures out.text == old(out.text) + (if first then "" else ",") + NewLine(pretty, level)
  {
    hide NewLine;
    if !first {
      out.Put(",");
    }
    out.Put(NewLine(pretty, level));
  }

  method OutputMembers(out: Output, pretty: bool, sorted: bool, p: Node, level: nat, ghost nodes: set<Node>)
    requires p in nodes && OthersStand(nodes, null) && p.tree.Obj? && Proper(p.tree)
    modifies out
    ensures Printed(p.tree, sorted).Obj?
    ensures out.text == old(out.text) + PrintFields(Printed(p.tree, sorted), 0, pretty, level)
    decreases p.tree, 0
  {
    hide Printed, FieldAt, Print, NewLine, KeyText, Proper, PrintFields, OthersStand;
    PrintedObj(p.tree, sorted);
    ObjChilds(p, nodes);
    ghost var t := Printed(p.tree, sorted);
    var first := true;
    for j := 0 to |p.childs|
      invariant first <==> j == 0
      invariant out.text + PrintFields(t, j, pretty, level) == old(out.text) + PrintFields(t, 0, pretty, level)
    {
      ghost var before := out.text;
      PutSeparator(out, first, pretty, level + 1);
      var p2, i := Current(p, sorted, j, nodes);
      ProperField(p.tree, i);
      ghost var f := FieldAt(p.tree, sorted, j);
      out.Put(KeyText(p2.key, pretty));
      OutputJson(out, pretty, sorted, p2, level + 1, nodes);
      first := false;
      PrintFieldsIs(t, j, pretty, level);
      Append(before, if j > 0 then "," else "", NewLine(pretty, level + 1), KeyText(p2.key, pretty),
             Print(f.tree, pretty, level + 1), PrintFields(t, j + 1, pretty, level));
    }
    PrintFieldsIs(t, |p.childs|, pretty, level);
  }

  lemma Append(a: string, b: string, c: string, d: string, e: string, f: string)
    ensures a + (b + c + d + e + f) == a + b + c + d + e + f
    ensures a + (b + c + e + f) == a + b + c + e + f
  {
  }

  lemma ProperField(t: Tree, i: nat)
    requires t.Obj? && Proper(t) && i < |t.fields|
    ensures Proper(t.fields[i].tree)
  {
  }

  method OutputElements(out: Output, pretty: bool, sorted: bool, p: Node, level: nat, ghost nodes: set<Node>)
    requires p in nodes && OthersStand(nodes, null) && p.tree.Arr? && Proper(p.tree)
    modifies out
    ensures Printed(p.tree, sorted).Arr?
    ensures out.text == old(out.text) + PrintItems(Printed(p.tree, sorted), 0, pretty, level)
    decreases p.tree, 0
  {
    hide Printed, Print, NewLine, Proper, PrintItems, OthersStand;
    PrintedArr(p.tree, sorted);
    ArrChilds(p, nodes);
    ghost var t := Printed(p.tree, sorted);
    var first := true;
    for j := 0 to |p.childs|
      invariant first <==> j == 0
      invariant out.text + PrintItems(t, j, pretty, level) == old(out.text) + PrintItems(t, 0, pretty, level)
    {
      ghost var before := out.text;
      PutSeparator(out, first, pretty, level + 1);
      ArrChild(p, j, nodes);
      var p2 := p.childs[j];
      ProperItem(p.tree, j);
      if p2 == null {
        GapText(sorted, pretty, level + 1);
        out.Put("null");
      } else {
        OutputJson(out, pretty, sorted, p2, level + 1, nodes);
      }
      first := false;
      PrintItemsIs(t, j, pretty, level);
      Append(before, if j > 0 then "," else "", NewLine(pretty, level + 1), "",
             Print(t.items[j], pretty, level + 1), PrintItems(t, j + 1, pretty, level));
    }
    PrintItemsIs(t, |p.childs|, pretty, level);
  }

  lemma GapText(sorted: bool, pretty: bool, level: nat)
    ensures Print(Printed(Unset, sorted), pretty, level) == "null"
  {
  }

  lemma ProperItem(t: Tree, j: nat)
    requires t.Arr? && Proper(t) && j < |t.items|
    ensures Proper(t.items[j])
  {
  }

  /** Every key made from a name is plain. */
  lemma KeyIsPlain(name: string)
    ensures PlainKey(JsonKey.Key(name))
  {
    hide JsonKey.Key, JsonKey.Words;
    JsonKey.KeyTidy(name);
  }

  /** `json::output` with its default format: the text parses as the value of the tree
      and is valid UTF-8; nothing is printed for an empty tree. */
  method OutputDocument(js: Json, out: Output, pretty: bool, sorted: bool) returns (ok: bool)
    requires js.Valid() && out.text == "" && Proper(js.root.tree)
    modifies out
    ensures ok <==> js.root.tree == Unset || js.root.tree.Obj?
    ensures out.text == if js.root.tree.Obj? then Document(Printed(js.root.tree, sorted), pretty) else ""
    ensures js.root.tree.Obj? ==> IsUtf8(out.text)
    ensures js.root.tree.Obj? && ShortKeys(js.root.tree) ==>
              G.Parse(out.text) == Some(JsonOf(Printed(js.root.tree, sorted)))
  {
    hide Printed, Print, JsonOf, IsUtf8, Proper, ShortKeys, G.Parse;
    if js.root.typ == NtUnset {
      return true;
    }
    if js.root.typ != NtObject {
      return false;
    }
    ghost var t := Printed(js.root.tree, sorted);
    PrintedProper(js.root.tree, sorted);
    OutputJson(out, pretty, sorted, js.root, 0, js.nodes);
    if pretty {
      out.Put("\n");
    }
    ok := true;
    assert out.text == Document(t, pretty);
    if ShortKeys(t) {
      ParseDocument(t, pretty);
    }
    PrintUtf8(t, pretty, 0);
    OctetsAscii(if pretty then "\n" else "");
    Utf8Concat(Print(t, pretty, 0), if pretty then "\n" else "");
  }
}
