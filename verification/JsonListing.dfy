/** The flat listing of a JSON tree (`json::output_flat` of lib/json.cpp). */
module JsonListing {
  import opened Wrappers
  import opened JsonTree
  import opened JsonNodes

  /** The output, and the path that the recursion extends and cuts back. */
  class Listing {
    var lines: seq<Line>
    var path: Path

    constructor ()
      ensures lines == [] && path == []
    {
      lines, path := [], [];
    }
  }

  ghost function Printed(t: Tree, sorted: bool): Tree { if sorted then Sorted(t) else t }

  function ValueOf(p: Node): Scalar
    reads p
  {
    match p.typ
    case NtBool => Bool(p.intval != 0)
    case NtInt => Int(AsSigned(p.intval))
    case NtUint => UInt(p.intval)
    case NtUint128 => UInt128(p.intvalHi, p.intval)
    case _ => Str(p.strval)
  }

  lemma OwnValue(p: Node, v: Scalar)
    requires p.Holds(v)
    ensures ValueOf(p) == v
  {
  }

  lemma PrintedObj(t: Tree, sorted: bool)
    requires t.Obj?
    ensures Printed(t, sorted).Obj? && |Printed(t, sorted).fields| == |t.fields|
  {
  }

  lemma PrintedArr(t: Tree, sorted: bool)
    requires t.Arr?
    ensures Printed(t, sorted).Arr? && |Printed(t, sorted).items| == |t.items|
    ensures forall j :: 0 <= j < |t.items| ==> Printed(t, sorted).items[j] == Printed(t.items[j], sorted)
  {
  }

  lemma PrintedLeaf(t: Tree, sorted: bool)
    requires t.Leaf?
    ensures Printed(t, sorted) == t
  {
  }

  /** Prints the lines of the subtree `p`, with the path put back at the end. */
  method OutputFlat(out: Listing, sorted: bool, p: Node, ghost nodes: set<Node>)
    requires p in nodes && OthersStand(nodes, null) && p.tree != Unset
    modifies out
    ensures out.lines == old(out.lines) + Flat(Printed(p.tree, sorted), out.path)
    ensures out.path == old(out.path)
    decreases p.tree, 1
  {
    hide Printed;
    if p.typ == NtObject {
      PrintedObj(p.tree, sorted);
      out.lines := out.lines + [OpenObj(out.path)];
      OutputFields(out, sorted, p, nodes);
    } else if p.typ == NtArray {
      PrintedArr(p.tree, sorted);
      out.lines := out.lines + [OpenArr(out.path)];
      OutputItems(out, sorted, p, nodes);
    } else {
      OwnValue(p, p.tree.value);
      PrintedLeaf(p.tree, sorted);
      out.lines := out.lines + [Value(out.path, ValueOf(p))];
    }
  }

  /** The field of the `j`-th child in the order of the iteration */
  ghost function FieldAt(t: Tree, sorted: bool, j: nat): (f: Field)
    requires t.Obj? && j < |t.fields|
    ensures Printed(t, sorted).Obj? && |Printed(t, sorted).fields| == |t.fields| && f == Printed(t, sorted).fields[j]
  {
    var f := t.fields[if sorted then At(t.fields, j) else j];
    Field(f.key, Printed(f.tree, sorted))
  }

  /** The child that the iterator yields at its `j`-th position */
  method Current(p: Node, sorted: bool, j: nat, ghost nodes: set<Node>) returns (p2: Node, ghost i: nat)
    requires p in nodes && OthersStand(nodes, null) && p.tree.Obj? && j < |p.tree.fields|
    ensures p2 in nodes && p2.tree != Unset && p2.tree < p.tree
    ensures i < |p.tree.fields| && p2.tree == p.tree.fields[i].tree
    ensures p2.key != "" && FieldAt(p.tree, sorted, j) == Field(p2.key, Printed(p2.tree, sorted))
  {
    hide Sorted, KeyIndex;
    i := if sorted then At(p.tree.fields, j) else j;
    p2 := if sorted then p.childs[p.key2index[j].index] else p.childs[j];
    assert p2 == p.childs[i];
  }

  lemma ObjChilds(p: Node, nodes: set<Node>)
    requires p in nodes && OthersStand(nodes, null) && p.tree.Obj?
    ensures |p.childs| == |p.tree.fields|
  {
  }

  lemma ArrChilds(p: Node, nodes: set<Node>)
    requires p in nodes && OthersStand(nodes, null) && p.tree.Arr?
    ensures |p.childs| == |p.tree.items|
  {
  }

  /** The array element `j` */
  lemma ArrChild(p: Node, j: nat, nodes: set<Node>)
    requires p in nodes && OthersStand(nodes, null) && p.tree.Arr? && j < |p.tree.items|
    ensures |p.childs| == |p.tree.items|
    ensures if p.childs[j] == null then p.tree.items[j] == Unset
            else p.childs[j] in nodes && p.childs[j].tree == p.tree.items[j] && p.tree.items[j] != Unset
  {
  }

  lemma FlatGap(sorted: bool, path: Path)
    ensures Flat(Printed(Unset, sorted), path) == [Null(path)]
  {
  }

  /** The loop over the children of an object, in key order if `sorted`. */
  method OutputFields(out: Listing, sorted: bool, p: Node, ghost nodes: set<Node>)
    requires p in nodes && OthersStand(nodes, null) && p.tree.Obj?
    modifies out
    ensures Printed(p.tree, sorted).Obj? && |Printed(p.tree, sorted).fields| == |p.tree.fields|
    ensures out.lines == old(out.lines) + FlatFields(Printed(p.tree, sorted), |p.tree.fields|, out.path)
    ensures out.path == old(out.path)
    decreases p.tree, 0
  {
    hide Printed, FieldAt, Flat, OthersStand;
    PrintedObj(p.tree, sorted);
    ObjChilds(p, nodes);
    ghost var t := Printed(p.tree, sorted);
    ghost var path0 := out.path;
    for j := 0 to |p.childs|
      invariant out.path == path0
      invariant out.lines == old(out.lines) + FlatFields(t, j, path0)
    {
      var p2, _ := Current(p, sorted, j, nodes);
      ghost var f := FieldAt(p.tree, sorted, j);
      out.path := out.path + [Key(p2.key)];
      OutputFlat(out, sorted, p2, nodes);
      out.path := out.path[..|out.path| - 1];
    }
  }

  method OutputItems(out: Listing, sorted: bool, p: Node, ghost nodes: set<Node>)
    requires p in nodes && OthersStand(nodes, null) && p.tree.Arr?
    modifies out
    ensures Printed(p.tree, sorted).Arr? && |Printed(p.tree, sorted).items| == |p.tree.items|
    ensures out.lines == old(out.lines) + FlatItems(Printed(p.tree, sorted), |p.tree.items|, out.path)
    ensures out.path == old(out.path)
    decreases p.tree, 0
  {
    hide Printed, Flat, OthersStand;
    PrintedArr(p.tree, sorted);
    ArrChilds(p, nodes);
    ghost var t := Printed(p.tree, sorted);
    ghost var path0 := out.path;
    for j := 0 to |p.childs|
      invariant out.path == path0
      invariant out.lines == old(out.lines) + FlatItems(t, j, path0)
    {
      ArrChild(p, j, nodes);
      var p2 := p.childs[j];
      out.path := out.path + [Index(j)];
      FlatGap(sorted, out.path);
      if p2 == null {
        out.lines := out.lines + [Null(out.path)];
      } else {
        OutputFlat(out, sorted, p2, nodes);
      }
      out.path := out.path[..|out.path| - 1];
    }
  }

  // ---------------------------------------------------------------------
  // Reading a listing back

  /** Sets one value through the setter of its type. */
  method SetValue(js: Json, path: Path, v: Scalar) returns (ok: bool)
    requires js.Valid() && js.enabled
    modifies js`nodes, js.nodes
    ensures js.Valid() && fresh(js.nodes - old(js.nodes))
    ensures ok <==> Set(old(js.root.tree), path, v).Some?
    ensures ok ==> Set(old(js.root.tree), path, v) == Some(js.root.tree)
  {
    hide Set, Built;
    match v
    case Bool(b) => ok := js.SetBool(path, b);
    case Int(i) => ok := js.SetInt64(path, i);
    case UInt(u) => ok := js.SetUint64(path, u);
    case UInt128(hi, lo) => ok := js.SetUint128(path, hi, lo);
    case Str(s) => ok := js.SetString(path, s);
  }

  /** Sets the values of a listing, in its order, in a new tree. */
  method Rebuild(lines: seq<Line>) returns (js: Json, ok: bool)
    ensures fresh(js) && fresh(js.nodes) && js.Valid()
    ensures ok <==> Replay(Unset, lines).Some?
    ensures ok ==> Replay(Unset, lines) == Some(js.root.tree)
  {
    hide Set, Built, Replay;
    js := new Json();
    js.enabled := true;
    ReplayNothing(Unset);
    ok := true;
    for i := 0 to |lines|
      invariant fresh(js) && fresh(js.nodes) && js.Valid() && js.enabled
      invariant Replay(Unset, lines[..i]) == Some(js.root.tree)
    {
      ReplaySnoc(Unset, lines[..i], lines[i]);
      assert lines[..i] + [lines[i]] == lines[..i + 1];
      if lines[i].Value? {
        ok := SetValue(js, lines[i].path, lines[i].v);
        if !ok {
          ReplayStops(lines, i + 1);
          return;
        }
      }
    }
    assert lines[..|lines|] == lines;
  }

  lemma ReplayStops(lines: seq<Line>, i: nat)
    requires i <= |lines| && Replay(Unset, lines[..i]).None?
    ensures Replay(Unset, lines).None?
  {
    hide Replay;
    ReplayConcat(Unset, lines[..i], lines[i..]);
    assert lines[..i] + lines[i..] == lines;
  }

  /** Printing a tree and reading the listing back gives an equal tree, or one that
      differs in the order of keys if the listing was sorted. */
  method Copy(js: Json, sorted: bool) returns (copy: Json, ok: bool)
    requires js.Valid() && js.root.tree != Unset
    ensures js.Valid() && copy.Valid() && ok
    ensures if sorted then Same(js.root.tree, copy.root.tree) else copy.root.tree == js.root.tree
  {
    hide Built, Flat, Replay, Same, Sorted, OthersStand;
    var out := new Listing();
    OutputFlat(out, sorted, js.root, js.nodes);
    assert out.lines == Flat(Printed(js.root.tree, sorted), []);
    if sorted {
      ReplaySorted(js.root.tree);
    } else {
      ReplayFlat(js.root.tree);
    }
    copy, ok := Rebuild(out.lines);
  }
}
