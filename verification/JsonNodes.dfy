/**
  The tree of `json::node` objects (lib/json.cpp), changed in place by
  `find_or_create_node` and the setters.
 */
module JsonNodes {
  import opened Wrappers
  import opened Words
  import opened JsonTree

  datatype NodeType = NtUnset | NtObject | NtArray | NtBool | NtInt | NtUint | NtUint128 | NtString

  function TypeOf(v: Scalar): NodeType {
    match v
    case Bool(_) => NtBool
    case Int(_) => NtInt
    case UInt(_) => NtUint
    case UInt128(_, _) => NtUint128
    case Str(_) => NtString
  }

  predicate IntegerType(t: NodeType) { t == NtInt || t == NtUint || t == NtUint128 }

  function AsUnsigned(x: i64): u64 { if x < 0 then x + U64 else x }
  function AsSigned(x: u64): i64 { if x < U64 / 2 then x else x - U64 }

  class Node {
    const key: string
    var typ: NodeType
    var intval: u64
    var intvalHi: u64
    var strval: string
    var childs: seq<Node?>
    var key2index: KeyMap

    // The tree that this node is to stand for, and its place in the tree
    ghost var tree: Tree
    ghost const parent: Node?
    ghost const slot: nat
    ghost const depth: nat

    constructor (key: string, ghost tree: Tree, ghost parent: Node?, ghost slot: nat, ghost depth: nat)
      ensures this.key == key && this.tree == tree
      ensures this.parent == parent && this.slot == slot && this.depth == depth
      ensures Stands(Unset)
    {
      this.key, this.tree, this.parent, this.slot, this.depth := key, tree, parent, slot, depth;
      typ, intval, intvalHi, strval, childs, key2index := NtUnset, 0, 0, "", [], [];
    }

    /** The value of a node without children */
    ghost predicate Holds(v: Scalar)
      reads `typ, `intval, `intvalHi, `strval
    {
      && typ == TypeOf(v)
      && match v
         case Bool(b) => (intval != 0) == b
         case Int(i) => AsSigned(intval) == i
         case UInt(u) => intval == u
         case UInt128(hi, lo) => intvalHi == hi && intval == lo
         case Str(s) => strval == s
    }

    ghost predicate IsChild(c: Node, k: string, i: nat)
      reads c`tree
    {
      c.key == k && c.parent == this && c.slot == i && c.depth == depth + 1 && c.tree != Unset
    }

    /** The fields of this node and the trees of its children make up `t`. */
    ghost predicate Stands(t: Tree)
      reads `typ, `intval, `intvalHi, `strval, `childs, `key2index, childs`tree
    {
      match t
      case Unset => typ == NtUnset && childs == [] && key2index == []
      case Leaf(v) => Holds(v) && childs == [] && key2index == []
      case Obj(fields) =>
        && typ == NtObject && |childs| == |fields| && DistinctKeys(fields) && key2index == KeyIndex(fields)
        && forall i :: 0 <= i < |fields| ==>
             childs[i] != null && IsChild(childs[i], fields[i].key, i) && childs[i].tree == fields[i].tree
      case Arr(items) =>
        && typ == NtArray && |childs| == |items| && key2index == []
        && forall i :: 0 <= i < |items| ==>
             if items[i] == Unset then childs[i] == null
             else childs[i] != null && IsChild(childs[i], "", i) && childs[i].tree == items[i]
    }
  }

  /** Every node but `p` stands for its tree, and no child is missing. */
  ghost predicate OthersStand(nodes: set<Node>, p: Node?)
    reads nodes, set n, c | n in nodes && c in n.childs :: c
  {
    && (forall n, c :: n in nodes && c in n.childs && c != null ==> c in nodes)
    && (forall n :: n in nodes && n != p ==> n.Stands(n.tree))
  }

  /** The node `p` stands for `t`, and is to stand for what becomes of `t` once `v`
      is set at `path`; a failing call leaves it as it is. */
  ghost predicate Walks(nodes: set<Node>, p: Node, t: Tree, path: Path, v: Scalar)
    reads nodes, set n, c | n in nodes && c in n.childs :: c
  {
    && p in nodes && OthersStand(nodes, p) && p.Stands(t)
    && p.tree == match Set(t, path, v) { case None => t case Some(u) => u }
  }

  /** The step from `p` to its child `p2` has changed no other tree. */
  twostate predicate Stepped(nodes: set<Node>, p: Node, new p2: Node, new nodes': set<Node>)
    reads nodes'
  {
    && p2.parent == p && nodes <= nodes' && fresh(nodes' - nodes)
    && forall n :: n in nodes && n != p2 ==> n.tree == old(n.tree)
  }

  lemma SetKey(t: Tree, k: Name, rest: Path, v: Scalar)
    ensures Set(t, [Key(k)] + rest, v) == SetField(t, k, rest, v)
  {
    assert ([Key(k)] + rest)[1..] == rest;
  }

  lemma SetIndex(t: Tree, n: nat, rest: Path, v: Scalar)
    ensures Set(t, [Index(n)] + rest, v) == SetItem(t, n, rest, v)
  {
    assert ([Index(n)] + rest)[1..] == rest;
  }

  /** Goes on to an existing child. */
  method EnterChild(p: Node, i: nat, ghost t: Tree, ghost k: Name,
      ghost rest: Path, ghost v: Scalar, ghost nodes: set<Node>)
    returns (p2: Node, ghost t2: Tree)
    requires t.Obj? && i < |t.fields| && Find(t.fields, k) == Some(i)
    requires Walks(nodes, p, t, [Key(k)] + rest, v)
    modifies nodes`tree
    ensures p2 == p.childs[i] && p2.parent == p
    ensures Walks(nodes, p2, t2, rest, v)
    ensures Set(t2, rest, v).None? <==> Set(t, [Key(k)] + rest, v).None?
    ensures forall n :: n in nodes && n != p2 ==> n.tree == old(n.tree)
  {
    hide Find, KeyIndex, Set, Node.Holds;
    SetKey(t, k, rest, v);
    p2 := p.childs[i];
    t2 := t.fields[i].tree;
    KeyIndexKeeps(t.fields, i, p.tree);
    p2.tree := match Set(t2, rest, v) { case None => t2 case Some(u) => u };
    KeyIndexKeeps(t.fields, i, p2.tree);
    assert p.Stands(p.tree);
    assert p2.Stands(t2);
    forall n | n in nodes && n != p && n != p2
      ensures n.Stands(n.tree)
    {
    }
  }

  /** Creates a child at the end of an object. */
  method AddChild(p: Node, k: Name, ghost t: Tree, ghost rest: Path, ghost v: Scalar, ghost nodes: set<Node>)
    returns (p2: Node, ghost nodes': set<Node>)
    requires (t.Unset? || t.Obj?) && (t.Obj? ==> Find(t.fields, k).None?)
    requires Walks(nodes, p, t, [Key(k)] + rest, v)
    modifies p`typ, p`childs, p`key2index
    ensures Stepped(nodes, p, p2, nodes')
    ensures Walks(nodes', p2, Unset, rest, v)
  {
    hide Find, KeyIndex, Set, Insert, Node.Stands;
    SetKey(t, k, rest, v);
    ghost var fields := if t.Unset? then [] else t.fields;
    ghost var u := Set(Unset, rest, v).value;
    KeyIndexEmpty();
    ObjParts(p, t, fields);
    p.typ := NtObject;
    p.key2index := Insert(p.key2index, Entry(k, |p.childs|));
    p2 := new Node(k, u, p, |p.childs|, p.depth + 1);
    p.childs := p.childs + [p2];
    nodes' := nodes + {p2};
    KeyIndexNext(fields, Field(k, u));
    MakeObj(p, fields + [Field(k, u)]);
    forall n | n in nodes && n != p
      ensures n.Stands(n.tree)
    {
    }
  }

  /** Child `j` of an object, as `f` says */
  ghost predicate IsField(p: Node, j: nat, f: Field)
    requires j < |p.childs|
    reads p`childs, p.childs`tree
  {
    p.childs[j] != null && p.IsChild(p.childs[j], f.key, j) && p.childs[j].tree == f.tree
  }

  lemma ObjParts(p: Node, t: Tree, fields: seq<Field>)
    requires p.Stands(t) && if t.Unset? then fields == [] else t == Obj(fields)
    ensures |p.childs| == |fields| && DistinctKeys(fields) && p.key2index == KeyIndex(fields)
    ensures forall j :: 0 <= j < |fields| ==> IsField(p, j, fields[j])
  {
    hide KeyIndex;
    KeyIndexEmpty();
  }

  lemma MakeObj(p: Node, fields: seq<Field>)
    requires p.typ == NtObject && |p.childs| == |fields| && DistinctKeys(fields) && p.key2index == KeyIndex(fields)
    requires forall j :: 0 <= j < |fields| ==> IsField(p, j, fields[j])
    ensures p.Stands(Obj(fields))
  {
    hide KeyIndex;
    forall i | 0 <= i < |fields|
      ensures p.childs[i] != null && p.IsChild(p.childs[i], fields[i].key, i) && p.childs[i].tree == fields[i].tree
    {
      assert IsField(p, i, fields[i]);
    }
  }

  method EnterField(p: Node, k: Name, ghost t: Tree, ghost rest: Path, ghost v: Scalar, ghost nodes: set<Node>)
    returns (p2: Node?, ghost t2: Tree, ghost nodes': set<Node>)
    requires Walks(nodes, p, t, [Key(k)] + rest, v)
    modifies p`typ, p`childs, p`key2index, nodes`tree
    ensures p2 == null ==> nodes' == nodes && OthersStand(nodes, null) && Set(t, [Key(k)] + rest, v).None?
                           && forall n :: n in nodes ==> n.tree == old(n.tree)
    ensures p2 != null ==> Stepped(nodes, p, p2, nodes') && Walks(nodes', p2, t2, rest, v)
                           && (Set(t2, rest, v).None? <==> Set(t, [Key(k)] + rest, v).None?)
  {
    hide Find, KeyIndex, Set, Lookup;
    SetKey(t, k, rest, v);
    nodes' := nodes;
    t2 := t;
    if p.typ != NtUnset && p.typ != NtObject {
      return null, t, nodes;
    }
    if t.Obj? {
      LookupIsFind(t.fields, k);
    } else {
      LookupEmpty(k);
    }
    var i := Lookup(p.key2index, k);
    if i.Some? {
      p2, t2 := EnterChild(p, i.value, t, k, rest, v, nodes);
    } else {
      t2 := Unset;
      p2, nodes' := AddChild(p, k, t, rest, v, nodes);
    }
  }

  /** Goes on to an array element that exists already. */
  method EnterElement(p: Node, i: nat, ghost t: Tree, ghost rest: Path, ghost v: Scalar, ghost nodes: set<Node>)
    returns (p2: Node, ghost t2: Tree)
    requires t.Arr? && i < |t.items| && t.items[i] != Unset
    requires Walks(nodes, p, t, [Index(i)] + rest, v)
    modifies nodes`tree
    ensures p2.parent == p && p2 in nodes
    ensures Walks(nodes, p2, t2, rest, v)
    ensures Set(t2, rest, v).None? <==> Set(t, [Index(i)] + rest, v).None?
    ensures forall n :: n in nodes && n != p2 ==> n.tree == old(n.tree)
  {
    hide Set, KeyIndex, DistinctKeys, Node.Holds;
    SetIndex(t, i, rest, v);
    p2 := p.childs[i];
    t2 := t.items[i];
    p2.tree := match Set(t2, rest, v) { case None => t2 case Some(u) => u };
    assert p.Stands(p.tree);
    assert p2.Stands(t2);
    forall n | n in nodes && n != p && n != p2
      ensures n.Stands(n.tree)
    {
    }
  }

  /** Room for the element `i`: new elements of the vector are null. */
  function Resized(childs: seq<Node?>, size: nat): (r: seq<Node?>)
    requires |childs| <= size
    ensures |r| == size && r[..|childs|] == childs && forall j :: |childs| <= j < size ==> r[j] == null
  {
    if |childs| == size then childs else Resized(childs, size - 1) + [null]
  }

  /** Lets the vector grow so far that there is an element `i`. */
  method MakeRoom(p: Node, i: nat)
    modifies p`childs
    ensures i < |p.childs| && |p.childs| == if i < |old(p.childs)| then |old(p.childs)| else i + 1
    ensures forall j :: 0 <= j < |p.childs| ==> p.childs[j] == if j < |old(p.childs)| then old(p.childs)[j] else null
  {
    hide Resized;
    if i >= |p.childs| {
      ghost var was := p.childs;
      p.childs := Resized(p.childs, i + 1);
      assert forall j :: 0 <= j < |was| ==> p.childs[..|was|][j] == p.childs[j];
    }
  }

  lemma ItemsAfter(items: seq<Tree>, i: nat, u: Tree)
    ensures var r := if i < |items| then items[i := u] else items + Gaps(i - |items|) + [u];
      && |r| == (if i < |items| then |items| else i + 1)
      && forall j :: 0 <= j < |r| ==> r[j] == if j == i then u else if j < |items| then items[j] else Unset
  {
    hide Gaps;
  }

  /** Creates an array element, in a gap or behind the end. */
  method AddElement(p: Node, i: nat, ghost t: Tree, ghost rest: Path, ghost v: Scalar, ghost nodes: set<Node>)
    returns (p2: Node, ghost nodes': set<Node>)
    requires (t.Unset? || t.Arr?) && (t.Arr? && i < |t.items| ==> t.items[i] == Unset)
    requires Walks(nodes, p, t, [Index(i)] + rest, v)
    modifies p`typ, p`childs
    ensures Stepped(nodes, p, p2, nodes')
    ensures Walks(nodes', p2, Unset, rest, v)
  {
    hide Set, Gaps, Resized, Node.Stands;
    SetIndex(t, i, rest, v);
    ghost var items := if t.Unset? then [] else t.items;
    ghost var u := Set(Unset, rest, v).value;
    ArrParts(p, t, items);
    p.typ := NtArray;
    MakeRoom(p, i);
    p2 := new Node("", u, p, i, p.depth + 1);
    p.childs := p.childs[i := p2];
    nodes' := nodes + {p2};
    ItemsAfter(items, i, u);
    MakeArr(p, p.tree.items);
    forall n | n in nodes && n != p
      ensures n.Stands(n.tree)
    {
    }
  }

  /** Child `j` of an array, as `item` says */
  ghost predicate IsItem(p: Node, j: nat, item: Tree)
    requires j < |p.childs|
    reads p`childs, p.childs`tree
  {
    if item == Unset then p.childs[j] == null
    else p.childs[j] != null && p.IsChild(p.childs[j], "", j) && p.childs[j].tree == item
  }

  lemma ArrParts(p: Node, t: Tree, items: seq<Tree>)
    requires p.Stands(t) && if t.Unset? then items == [] else t == Arr(items)
    ensures |p.childs| == |items| && p.key2index == [] && forall j :: 0 <= j < |items| ==> IsItem(p, j, items[j])
  {
  }

  lemma MakeArr(p: Node, items: seq<Tree>)
    requires p.typ == NtArray && p.key2index == [] && |p.childs| == |items|
    requires forall j :: 0 <= j < |items| ==> IsItem(p, j, items[j])
    ensures p.Stands(Arr(items))
  {
  }

  method EnterItem(p: Node, i: nat, ghost t: Tree, ghost rest: Path, ghost v: Scalar, ghost nodes: set<Node>)
    returns (p2: Node?, ghost t2: Tree, ghost nodes': set<Node>)
    requires Walks(nodes, p, t, [Index(i)] + rest, v)
    modifies p`typ, p`childs, nodes`tree
    ensures p2 == null ==> nodes' == nodes && OthersStand(nodes, null) && Set(t, [Index(i)] + rest, v).None?
                           && forall n :: n in nodes ==> n.tree == old(n.tree)
    ensures p2 != null ==> Stepped(nodes, p, p2, nodes') && Walks(nodes', p2, t2, rest, v)
                           && (Set(t2, rest, v).None? <==> Set(t, [Index(i)] + rest, v).None?)
  {
    hide Set;
    SetIndex(t, i, rest, v);
    nodes' := nodes;
    t2 := t;
    if p.typ != NtUnset && p.typ != NtArray {
      return null, t, nodes;
    }
    if i < |p.childs| && p.childs[i] != null {
      p2, t2 := EnterElement(p, i, t, rest, v, nodes);
    } else {
      t2 := Unset;
      p2, nodes' := AddElement(p, i, t, rest, v, nodes);
    }
  }

  /** One step of the loop */
  method Enter(p: Node, step: Step, ghost t: Tree, ghost rest: Path, ghost v: Scalar, ghost nodes: set<Node>)
    returns (p2: Node?, ghost t2: Tree, ghost nodes': set<Node>)
    requires Walks(nodes, p, t, [step] + rest, v)
    modifies p`typ, p`childs, p`key2index, nodes`tree
    ensures p2 == null ==> nodes' == nodes && OthersStand(nodes, null) && Set(t, [step] + rest, v).None?
                           && forall n :: n in nodes ==> n.tree == old(n.tree)
    ensures p2 != null ==> Stepped(nodes, p, p2, nodes') && Walks(nodes', p2, t2, rest, v)
                           && (Set(t2, rest, v).None? <==> Set(t, [step] + rest, v).None?)
  {
    match step
    case Key(k) => p2, t2, nodes' := EnterField(p, k, t, rest, v, nodes);
    case Index(i) => p2, t2, nodes' := EnterItem(p, i, t, rest, v, nodes);
  }

  /** The loop: from the root to the node at `path` */
  method Walk(root: Node, path: Path, ghost t0: Tree, ghost v: Scalar, ghost nodes0: set<Node>)
    returns (p: Node?, ghost t: Tree, ghost nodes: set<Node>)
    requires Walks(nodes0, root, t0, path, v) && root.parent == null
    modifies nodes0
    ensures nodes0 <= nodes && fresh(nodes - nodes0) && root.tree == old(root.tree)
    ensures p == null ==> OthersStand(nodes, null) && Set(t0, path, v).None?
    ensures p != null ==> Walks(nodes, p, t, [], v) && (Set(t, [], v).None? <==> Set(t0, path, v).None?)
  {
    hide Set, Walks, OthersStand;
    p, t, nodes := root, t0, nodes0;
    assert path[0..] == path;
    assert root in nodes by { InNodes(nodes, root, t0, path, v); }
    for i := 0 to |path|
      invariant p != null && nodes0 <= nodes && fresh(nodes - nodes0)
      invariant root in nodes && root.tree == old(root.tree)
      invariant Walks(nodes, p, t, path[i..], v)
      invariant Set(t, path[i..], v).None? <==> Set(t0, path, v).None?
    {
      assert [path[i]] + path[i + 1..] == path[i..];
      InNodes(nodes, p, t, path[i..], v);
      p, t, nodes := Enter(p, path[i], t, path[i + 1..], v, nodes);
      if p == null {
        return;
      }
    }
    assert path[|path|..] == [];
  }

  lemma InNodes(nodes: set<Node>, p: Node, t: Tree, path: Path, v: Scalar)
    requires Walks(nodes, p, t, path, v)
    ensures p in nodes
  {
  }

  lemma SetHere(t: Tree, v: Scalar)
    ensures Set(t, [], v) == if t.Unset? || (t.Leaf? && Compatible(t.value, v)) then Some(Leaf(v)) else None
  {
  }

  /** After the loop: the node takes its type, or an assertion fails. */
  method TakeType(p: Node, typ: NodeType, ghost t: Tree, ghost v: Scalar, ghost nodes: set<Node>) returns (ok: bool)
    requires Walks(nodes, p, t, [], v) && TypeOf(v) == typ
    modifies p`typ
    ensures ok <==> Set(t, [], v).Some?
    ensures if ok then OthersStand(nodes, p) && p.typ == typ && p.childs == [] && p.key2index == [] && p.tree == Leaf(v)
            else OthersStand(nodes, null)
  {
    hide Set;
    SetHere(t, v);
    if p.typ == NtUnset || (IntegerType(p.typ) && IntegerType(typ)) {
      p.typ := typ;
      ok := true;
    } else {
      ok := p.typ == typ;
    }
  }

  class Json {
    const root: Node
    var enabled: bool
    ghost var nodes: set<Node>

    ghost predicate Valid()
      reads this, nodes, set n, c | n in nodes && c in n.childs :: c
    {
      root in nodes && root.parent == null && OthersStand(nodes, null) && (root.tree == Unset || Built(root.tree))
    }

    constructor ()
      ensures Valid() && root.tree == Unset && fresh(nodes) && !enabled
    {
      root := new Node("", Unset, null, 0, 0);
      enabled := false;
      new;
      nodes := {root};
    }

    /** Gives the node at `path`, for the caller to store `v` in; null if an assertion
        fails, and then nothing has changed. */
    method FindOrCreateNode(path: Path, typ: NodeType, ghost v: Scalar) returns (p: Node?)
      requires Valid() && TypeOf(v) == typ
      modifies `nodes, nodes
      ensures fresh(nodes - old(nodes)) && root in nodes
      ensures p == null ==> Valid() && root.tree == old(root.tree) && Set(old(root.tree), path, v).None?
      ensures p != null ==> p in nodes && OthersStand(nodes, p) && Set(old(root.tree), path, v) == Some(root.tree)
      ensures p != null ==> p.typ == typ && p.childs == [] && p.key2index == [] && p.tree == Leaf(v)
    {
      hide Set, Built;
      ghost var t := root.tree;
      root.tree := match Set(t, path, v) { case None => t case Some(u) => u };
      forall n | n in nodes && n != root
        ensures n.Stands(n.tree)
      {
      }
      ghost var here;
      p, here, nodes := Walk(root, path, t, v, nodes);
      if p == null {
        return;
      }
      InNodes(nodes, p, here, [], v);
      var ok := TakeType(p, typ, here, v, nodes);
      if !ok {
        p := null;
      }
    }

    /** What every setter does to the tree */
    ghost function After(t: Tree, path: Path, v: Scalar): Tree
      reads `enabled
    {
      match Set(t, path, v)
      case None => t
      case Some(u) => if enabled then u else t
    }

    /** The tree is complete again once the value is stored. */
    lemma Complete(p: Node, t: Tree, path: Path, v: Scalar)
      requires p in nodes && root in nodes && root.parent == null && OthersStand(nodes, p) && p.Stands(p.tree)
      requires t == Unset || Built(t)
      requires Set(t, path, v) == Some(root.tree)
      ensures Valid()
    {
      hide Set, Built;
      SetBuilt(t, path, v);
    }

    method SetBool(path: Path, value: bool) returns (ok: bool)
      requires Valid()
      modifies `nodes, nodes
      ensures Valid() && fresh(nodes - old(nodes))
      ensures root.tree == After(old(root.tree), path, Bool(value))
      ensures ok <==> !enabled || Set(old(root.tree), path, Bool(value)).Some?
    {
      hide Set, Built;
      if !enabled {
        return true;
      }
      ghost var t := root.tree;
      var p := FindOrCreateNode(path, NtBool, Bool(value));
      ok := p != null;
      if ok {
        p.intval := if value then 1 else 0;
        Complete(p, t, path, Bool(value));
      }
    }

    method SetInt64(path: Path, value: i64) returns (ok: bool)
      requires Valid()
      modifies `nodes, nodes
      ensures Valid() && fresh(nodes - old(nodes))
      ensures root.tree == After(old(root.tree), path, Int(value))
      ensures ok <==> !enabled || Set(old(root.tree), path, Int(value)).Some?
    {
      hide Set, Built;
      if !enabled {
        return true;
      }
      ghost var t := root.tree;
      var p := FindOrCreateNode(path, NtInt, Int(value));
      ok := p != null;
      if ok {
        p.intval := AsUnsigned(value);
        Complete(p, t, path, Int(value));
      }
    }

    method SetUint64(path: Path, value: u64) returns (ok: bool)
      requires Valid()
      modifies `nodes, nodes
      ensures Valid() && fresh(nodes - old(nodes))
      ensures root.tree == After(old(root.tree), path, UInt(value))
      ensures ok <==> !enabled || Set(old(root.tree), path, UInt(value)).Some?
    {
      hide Set, Built;
      if !enabled {
        return true;
      }
      ghost var t := root.tree;
      var p := FindOrCreateNode(path, NtUint, UInt(value));
      ok := p != null;
      if ok {
        p.intval := value;
        Complete(p, t, path, UInt(value));
      }
    }

    method SetUint128(path: Path, valueHi: u64, valueLo: u64) returns (ok: bool)
      requires Valid()
      modifies `nodes, nodes
      ensures Valid() && fresh(nodes - old(nodes))
      ensures root.tree == After(old(root.tree), path, UInt128(valueHi, valueLo))
      ensures ok <==> !enabled || Set(old(root.tree), path, UInt128(valueHi, valueLo)).Some?
    {
      hide Set, Built;
      if !enabled {
        return true;
      }
      ghost var t := root.tree;
      var p := FindOrCreateNode(path, NtUint128, UInt128(valueHi, valueLo));
      ok := p != null;
      if ok {
        p.intvalHi := valueHi;
        p.intval := valueLo;
        Complete(p, t, path, UInt128(valueHi, valueLo));
      }
    }

    method SetString(path: Path, value: string) returns (ok: bool)
      requires Valid()
      modifies `nodes, nodes
      ensures Valid() && fresh(nodes - old(nodes))
      ensures root.tree == After(old(root.tree), path, Str(value))
      ensures ok <==> !enabled || Set(old(root.tree), path, Str(value)).Some?
    {
      hide Set, Built;
      if !enabled {
        return true;
      }
      ghost var t := root.tree;
      var p := FindOrCreateNode(path, NtString, Str(value));
      ok := p != null;
      if ok {
        p.strval := value;
        Complete(p, t, path, Str(value));
      }
    }
  }
}
