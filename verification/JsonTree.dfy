/**
  The JSON tree (lib/json.cpp) as a value: setting an element by its path, and the
  flat listing that rebuilds the tree.
 */
module JsonTree {
  import opened Words
  import opened Wrappers

  type Name = s: string | s != "" witness "_"
  type i64 = x: int | -0x8000_0000_0000_0000 <= x < 0x8000_0000_0000_0000

  datatype Scalar = Bool(b: bool) | Int(i: i64) | UInt(u: u64) | UInt128(hi: u64, lo: u64) | Str(str: string)

  /** `Unset`: the root before the first call, or an array element not created yet. */
  datatype Tree = Unset | Leaf(value: Scalar) | Obj(fields: seq<Field>) | Arr(items: seq<Tree>)
  datatype Field = Field(key: Name, tree: Tree)

  datatype Step = Key(key: Name) | Index(index: nat)
  type Path = seq<Step>

  // ---------------------------------------------------------------------
  // Setting an element

  predicate IsInteger(v: Scalar) { v.Int? || v.UInt? || v.UInt128? }

  /** An element keeps its type, except that integers may change among themselves. */
  predicate Compatible(was: Scalar, v: Scalar) {
    (IsInteger(was) && IsInteger(v)) || (was.Bool? && v.Bool?) || (was.Str? && v.Str?)
  }

  function Find(fields: seq<Field>, key: Name): (r: Option<nat>)
    ensures r.Some? ==> r.value < |fields| && fields[r.value].key == key
    ensures r.None? ==> forall i :: 0 <= i < |fields| ==> fields[i].key != key
  {
    if fields == [] then None
    else if fields[|fields| - 1].key == key then Some(|fields| - 1)
    else Find(fields[..|fields| - 1], key)
  }

  function Gaps(n: nat): (g: seq<Tree>)
    ensures |g| == n && forall i :: 0 <= i < n ==> g[i] == Unset
  {
    if n == 0 then [] else Gaps(n - 1) + [Unset]
  }

  /** The tree after setting the element at `path`; nothing if that would change the
      type of an element. */
  function Set(t: Tree, path: Path, v: Scalar): (r: Option<Tree>)
    ensures t.Unset? ==> r.Some?
    ensures r.Some? ==> !r.value.Unset?
    decreases path, 0
  {
    if path == [] then
      if t.Unset? || (t.Leaf? && Compatible(t.value, v)) then Some(Leaf(v)) else None
    else match path[0]
      case Key(k) => SetField(t, k, path[1..], v)
      case Index(n) => SetItem(t, n, path[1..], v)
  }

  function SetField(t: Tree, k: Name, rest: Path, v: Scalar): (r: Option<Tree>)
    ensures t.Unset? ==> r.Some?
    ensures r.Some? ==> !r.value.Unset?
    decreases rest, 1
  {
    if !t.Unset? && !t.Obj? then None else
    var fields := if t.Unset? then [] else t.fields;
    var i := Find(fields, k);
    match Set(if i.Some? then fields[i.value].tree else Unset, rest, v)
    case None => None
    case Some(u) =>
      Some(Obj(if i.Some? then fields[i.value := Field(k, u)] else fields + [Field(k, u)]))
  }

  function SetItem(t: Tree, n: nat, rest: Path, v: Scalar): (r: Option<Tree>)
    ensures t.Unset? ==> r.Some?
    ensures r.Some? ==> !r.value.Unset?
    decreases rest, 1
  {
    if !t.Unset? && !t.Arr? then None else
    var items := if t.Unset? then [] else t.items;
    match Set(if n < |items| then items[n] else Unset, rest, v)
    case None => None
    case Some(u) =>
      Some(Arr(if n < |items| then items[n := u] else items + Gaps(n - |items|) + [u]))
  }

  // ---------------------------------------------------------------------
  // The trees that successful calls build

  predicate DistinctKeys(fields: seq<Field>) {
    forall i, j :: 0 <= i < j < |fields| ==> fields[i].key != fields[j].key
  }

  /** No empty objects or arrays, no key twice, no gap at the end of an array. */
  predicate Built(t: Tree) {
    match t
    case Unset => false
    case Leaf(_) => true
    case Obj(fields) =>
      && fields != [] && DistinctKeys(fields)
      && forall i :: 0 <= i < |fields| ==> Built(fields[i].tree)
    case Arr(items) =>
      && items != [] && items[|items| - 1] != Unset
      && forall i :: 0 <= i < |items| ==> items[i] == Unset || Built(items[i])
  }

  lemma {:induction false} SetBuilt(t: Tree, path: Path, v: Scalar)
    requires t == Unset || Built(t)
    ensures Set(t, path, v).Some? ==> Built(Set(t, path, v).value)
    decreases path, 0
  {
    if path != [] {
      match path[0]
      case Key(k) => SetFieldBuilt(t, k, path[1..], v);
      case Index(n) => SetItemBuilt(t, n, path[1..], v);
    }
  }

  lemma {:induction false} SetFieldBuilt(t: Tree, k: Name, rest: Path, v: Scalar)
    requires t == Unset || Built(t)
    ensures SetField(t, k, rest, v).Some? ==> Built(SetField(t, k, rest, v).value)
    decreases rest, 1
  {
    if t.Unset? || t.Obj? {
      var fields := if t.Unset? then [] else t.fields;
      var i := Find(fields, k);
      SetBuilt(if i.Some? then fields[i.value].tree else Unset, rest, v);
    }
  }

  lemma {:induction false} SetItemBuilt(t: Tree, n: nat, rest: Path, v: Scalar)
    requires t == Unset || Built(t)
    ensures SetItem(t, n, rest, v).Some? ==> Built(SetItem(t, n, rest, v).value)
    decreases rest, 1
  {
    if t.Unset? || t.Arr? {
      var items := if t.Unset? then [] else t.items;
      SetBuilt(if n < |items| then items[n] else Unset, rest, v);
    }
  }

  // ---------------------------------------------------------------------
  // The flat listing

  /** A line of the listing: an object, an array, a value, or a gap. */
  datatype Line = OpenObj(path: Path) | OpenArr(path: Path) | Value(path: Path, v: Scalar) | Null(path: Path)

  function Flat(t: Tree, path: Path): seq<Line>
    decreases t, 1, 0
  {
    match t
    case Unset => [Null(path)]
    case Leaf(v) => [Value(path, v)]
    case Obj(fields) => [OpenObj(path)] + FlatFields(t, |fields|, path)
    case Arr(items) => [OpenArr(path)] + FlatItems(t, |items|, path)
  }

  function FlatFields(t: Tree, n: nat, path: Path): seq<Line>
    requires t.Obj? && n <= |t.fields|
    decreases t, 0, n
  {
    if n == 0 then []
    else FlatFields(t, n - 1, path) + Flat(t.fields[n - 1].tree, path + [Key(t.fields[n - 1].key)])
  }

  function FlatItems(t: Tree, n: nat, path: Path): seq<Line>
    requires t.Arr? && n <= |t.items|
    decreases t, 0, n
  {
    if n == 0 then []
    else FlatItems(t, n - 1, path) + Flat(t.items[n - 1], path + [Index(n - 1)])
  }

  /** Reading the listing back: every value is set again, the other lines are skipped. */
  function Replay(t: Tree, lines: seq<Line>): Option<Tree>
  {
    if lines == [] then Some(t) else
    match Replay(t, lines[..|lines| - 1])
    case None => None
    case Some(u) => Feed(u, lines[|lines| - 1])
  }

  function Feed(t: Tree, line: Line): Option<Tree> {
    if line.Value? then Set(t, line.path, line.v) else Some(t)
  }

  // ---------------------------------------------------------------------
  // Replaying a listing rebuilds the tree

  function UnderLine(s: Step, line: Line): Line {
    match line
    case OpenObj(path) => OpenObj([s] + path)
    case OpenArr(path) => OpenArr([s] + path)
    case Value(path, v) => Value([s] + path, v)
    case Null(path) => Null([s] + path)
  }

  /** The same lines one level further down */
  function Under(s: Step, lines: seq<Line>): (r: seq<Line>)
    ensures |r| == |lines|
  {
    if lines == [] then [] else Under(s, lines[..|lines| - 1]) + [UnderLine(s, lines[|lines| - 1])]
  }

  lemma {:induction false} UnderConcat(s: Step, a: seq<Line>, b: seq<Line>)
    ensures Under(s, a + b) == Under(s, a) + Under(s, b)
  {
    if b == [] {
      assert a + b == a;
    } else {
      assert (a + b)[..|a + b| - 1] == a + b[..|b| - 1];
      UnderConcat(s, a, b[..|b| - 1]);
    }
  }

  lemma UnderOne(s: Step, line: Line)
    ensures Under(s, [line]) == [UnderLine(s, line)]
  {
  }

  lemma {:induction false} FlatUnder(s: Step, t: Tree, path: Path)
    ensures Flat(t, [s] + path) == Under(s, Flat(t, path))
    decreases t, 1, 0
  {
    hide Under;
    match t
    case Unset => UnderOne(s, Null(path));
    case Leaf(v) => UnderOne(s, Value(path, v));
    case Obj(fields) =>
      FieldsUnder(s, t, |fields|, path);
      UnderConcat(s, [OpenObj(path)], FlatFields(t, |fields|, path));
      UnderOne(s, OpenObj(path));
    case Arr(items) =>
      ItemsUnder(s, t, |items|, path);
      UnderConcat(s, [OpenArr(path)], FlatItems(t, |items|, path));
      UnderOne(s, OpenArr(path));
  }

  lemma {:induction false} FieldsUnder(s: Step, t: Tree, n: nat, path: Path)
    requires t.Obj? && n <= |t.fields|
    ensures FlatFields(t, n, [s] + path) == Under(s, FlatFields(t, n, path))
    decreases t, 0, n
  {
    if n > 0 {
      FieldsUnder(s, t, n - 1, path);
      var p := path + [Key(t.fields[n - 1].key)];
      assert [s] + path + [Key(t.fields[n - 1].key)] == [s] + p;
      FlatUnder(s, t.fields[n - 1].tree, p);
      UnderConcat(s, FlatFields(t, n - 1, path), Flat(t.fields[n - 1].tree, p));
    }
  }

  lemma {:induction false} ItemsUnder(s: Step, t: Tree, n: nat, path: Path)
    requires t.Arr? && n <= |t.items|
    ensures FlatItems(t, n, [s] + path) == Under(s, FlatItems(t, n, path))
    decreases t, 0, n
  {
    if n > 0 {
      ItemsUnder(s, t, n - 1, path);
      var p := path + [Index(n - 1)];
      assert [s] + path + [Index(n - 1)] == [s] + p;
      FlatUnder(s, t.items[n - 1], p);
      UnderConcat(s, FlatItems(t, n - 1, path), Flat(t.items[n - 1], p));
    }
  }

  lemma {:induction false} ReplayConcat(t: Tree, a: seq<Line>, b: seq<Line>)
    ensures Replay(t, a + b) == match Replay(t, a) { case None => None case Some(u) => Replay(u, b) }
  {
    hide Feed;
    if b == [] {
      assert a + b == a;
    } else {
      assert (a + b)[..|a + b| - 1] == a + b[..|b| - 1];
      ReplayConcat(t, a, b[..|b| - 1]);
    }
  }

  /** An object with these fields, if there are any */
  function ObjOf(fields: seq<Field>): Tree { if fields == [] then Unset else Obj(fields) }

  function ArrOf(items: seq<Tree>): Tree { if items == [] then Unset else Arr(items) }

  function WithField(fields: seq<Field>, k: Name, u: Option<Tree>): Option<Tree> {
    if u.None? then None else if u.value.Unset? then Some(ObjOf(fields)) else Some(Obj(fields + [Field(k, u.value)]))
  }

  function WithItem(items: seq<Tree>, n: nat, u: Option<Tree>): Option<Tree>
    requires |items| <= n
  {
    if u.None? then None
    else if u.value.Unset? then Some(ArrOf(items))
    else Some(Arr(items + Gaps(n - |items|) + [u.value]))
  }

  lemma FindNew(fields: seq<Field>, k: Name, u: Tree)
    requires Find(fields, k).None?
    ensures Find(fields + [Field(k, u)], k) == Some(|fields|)
  {
  }

  /** One value below the field `k`, which is the last one or new. */
  lemma FeedField(fields: seq<Field>, k: Name, u: Tree, rest: Path, v: Scalar)
    requires Find(fields, k).None?
    ensures Set(WithField(fields, k, Some(u)).value, [Key(k)] + rest, v) == WithField(fields, k, Set(u, rest, v))
  {
    hide Find;
    assert ([Key(k)] + rest)[1..] == rest;
    var w := Set(u, rest, v);
    if u.Unset? {
      var t := ObjOf(fields);
      assert (if t.Unset? then [] else t.fields) == fields;
    } else {
      FindNew(fields, k, u);
      var fields1 := fields + [Field(k, u)];
      assert w.Some? ==> fields1[|fields| := Field(k, w.value)] == fields + [Field(k, w.value)];
    }
  }

  lemma FeedItem(items: seq<Tree>, n: nat, u: Tree, rest: Path, v: Scalar)
    requires |items| <= n
    ensures Set(WithItem(items, n, Some(u)).value, [Index(n)] + rest, v) == WithItem(items, n, Set(u, rest, v))
  {
    hide Gaps;
    assert ([Index(n)] + rest)[1..] == rest;
    var w := Set(u, rest, v);
    if u.Unset? {
      var t := ArrOf(items);
      assert (if t.Unset? then [] else t.items) == items;
    } else {
      var items1 := items + Gaps(n - |items|) + [u];
      assert w.Some? ==> items1[n := w.value] == items + Gaps(n - |items|) + [w.value];
    }
  }

  lemma ReplaySnoc(t: Tree, lines: seq<Line>, line: Line)
    ensures Replay(t, lines + [line]) == match Replay(t, lines) { case None => None case Some(u) => Feed(u, line) }
  {
    hide Feed;
    assert (lines + [line])[..|lines|] == lines;
  }

  lemma {:induction false} ReplayField(fields: seq<Field>, k: Name, lines: seq<Line>)
    requires Find(fields, k).None?
    ensures Replay(ObjOf(fields), Under(Key(k), lines)) == WithField(fields, k, Replay(Unset, lines))
  {
    hide Find, Set, Replay, ObjOf;
    if lines == [] {
      ReplayNothing(ObjOf(fields));
      ReplayNothing(Unset);
    } else {
      var before, line := lines[..|lines| - 1], lines[|lines| - 1];
      ReplayField(fields, k, before);
      ReplaySnoc(ObjOf(fields), Under(Key(k), before), UnderLine(Key(k), line));
      ReplaySnoc(Unset, before, line);
      assert lines == before + [line];
      var u := Replay(Unset, before);
      if line.Value? && u.Some? {
        FeedField(fields, k, u.value, line.path, line.v);
      }
    }
  }

  lemma {:induction false} ReplayItem(items: seq<Tree>, n: nat, lines: seq<Line>)
    requires |items| <= n
    ensures Replay(ArrOf(items), Under(Index(n), lines)) == WithItem(items, n, Replay(Unset, lines))
  {
    hide Gaps, Set, Replay, ArrOf;
    if lines == [] {
      ReplayNothing(ArrOf(items));
      ReplayNothing(Unset);
    } else {
      var before, line := lines[..|lines| - 1], lines[|lines| - 1];
      ReplayItem(items, n, before);
      ReplaySnoc(ArrOf(items), Under(Index(n), before), UnderLine(Index(n), line));
      ReplaySnoc(Unset, before, line);
      assert lines == before + [line];
      var u := Replay(Unset, before);
      if line.Value? && u.Some? {
        FeedItem(items, n, u.value, line.path, line.v);
      }
    }
  }

  /** Without the gaps at the end */
  function Trim(items: seq<Tree>): (r: seq<Tree>)
    ensures |r| <= |items| && r == items[..|r|]
    ensures forall i :: |r| <= i < |items| ==> items[i] == Unset
    ensures items != [] && items[|items| - 1] != Unset ==> r == items
  {
    if items == [] || items[|items| - 1] != Unset then items else Trim(items[..|items| - 1])
  }

  /** The values of the listing, set again in its order, rebuild the tree with the
      same array lengths, gaps and key order. */
  lemma {:induction false} ReplayFlat(t: Tree)
    requires t == Unset || Built(t)
    ensures Replay(Unset, Flat(t, [])) == Some(t)
    decreases t, 1, 0
  {
    match t
    case Unset =>
      assert Replay(Unset, [Null([])][..0]) == Some(Unset);
    case Leaf(v) =>
      assert Replay(Unset, [Value([], v)][..0]) == Some(Unset);
    case Obj(fields) =>
      ReplayFields(t, |fields|);
      SkipFirst(OpenObj([]), FlatFields(t, |fields|, []));
      assert fields[..|fields|] == fields;
    case Arr(items) =>
      ReplayItems(t, |items|);
      SkipFirst(OpenArr([]), FlatItems(t, |items|, []));
      assert items[..|items|] == items;
  }

  lemma SkipFirst(line: Line, lines: seq<Line>)
    requires !line.Value?
    ensures Replay(Unset, [line] + lines) == Replay(Unset, lines)
  {
    ReplayConcat(Unset, [line], lines);
    assert [line][..0] == [];
    assert Replay(Unset, [line]) == Some(Unset);
  }

  lemma NewKey(fields: seq<Field>, n: nat)
    requires n < |fields| && DistinctKeys(fields)
    ensures Find(fields[..n], fields[n].key).None?
  {
  }

  lemma {:induction false} ReplayFields(t: Tree, n: nat)
    requires t.Obj? && Built(t) && n <= |t.fields|
    ensures Replay(Unset, FlatFields(t, n, [])) == Some(ObjOf(t.fields[..n]))
    decreases t, 0, n
  {
    hide Replay, Under;
    if n == 0 {
      ReplayNothing(Unset);
    } else {
      var f := t.fields[n - 1];
      ReplayFields(t, n - 1);
      ReplayFlat(f.tree);
      FlatUnder(Key(f.key), f.tree, []);
      var p: Path := [Key(f.key)];
      assert [] + p == p == p + [];
      ReplayConcat(Unset, FlatFields(t, n - 1, []), Flat(f.tree, p));
      NewKey(t.fields, n - 1);
      ReplayField(t.fields[..n - 1], f.key, Flat(f.tree, []));
      assert t.fields[..n - 1] + [Field(f.key, f.tree)] == t.fields[..n];
    }
  }

  lemma ReplayNothing(t: Tree)
    ensures Replay(t, []) == Some(t)
  {
  }

  lemma {:induction false} ReplayItems(t: Tree, n: nat)
    requires t.Arr? && Built(t) && n <= |t.items|
    ensures Replay(Unset, FlatItems(t, n, [])) == Some(ArrOf(Trim(t.items[..n])))
    decreases t, 0, n
  {
    hide Replay, Under;
    if n == 0 {
      ReplayNothing(Unset);
    } else {
      var x := t.items[n - 1];
      ReplayItems(t, n - 1);
      ReplayFlat(x);
      FlatUnder(Index(n - 1), x, []);
      var p: Path := [Index(n - 1)];
      assert [] + p == p == p + [];
      ReplayConcat(Unset, FlatItems(t, n - 1, []), Flat(x, p));
      var trimmed := Trim(t.items[..n - 1]);
      ReplayItem(trimmed, n - 1, Flat(x, []));
      assert t.items[..n][..n - 1] == t.items[..n - 1];
      if x != Unset {
        assert trimmed + Gaps(n - 1 - |trimmed|) + [x] == t.items[..n];
      }
    }
  }

  // ---------------------------------------------------------------------
  // The key index of an object

  /** The order of `std::string` */
  predicate Less(a: string, b: string) {
    if b == "" then false
    else a == "" || a[0] < b[0] || (a[0] == b[0] && Less(a[1..], b[1..]))
  }

  lemma {:induction false} LessTotal(a: string, b: string)
    ensures Less(a, b) || Less(b, a) || a == b
    ensures !(Less(a, b) && Less(b, a)) && !Less(a, a)
  {
    if a != "" && b != "" {
      LessTotal(a[1..], b[1..]);
      assert a == [a[0]] + a[1..] && b == [b[0]] + b[1..];
    }
    LessIrreflexive(a);
  }

  lemma {:induction false} LessIrreflexive(a: string)
    ensures !Less(a, a)
  {
    if a != "" {
      LessIrreflexive(a[1..]);
    }
  }

  lemma {:induction false} LessTransitive(a: string, b: string, c: string)
    requires Less(a, b) && Less(b, c)
    ensures Less(a, c)
  {
    if a != "" && a[0] == b[0] == c[0] {
      LessTransitive(a[1..], b[1..], c[1..]);
    }
  }

  datatype Entry = Entry(key: Name, index: nat)

  /** `std::map<std::string, unsigned>`: its entries in the order of iteration */
  type KeyMap = seq<Entry>

  predicate Ordered(m: KeyMap) { forall i, j :: 0 <= i < j < |m| ==> Less(m[i].key, m[j].key) }

  function Lookup(m: KeyMap, k: Name): (r: Option<nat>)
    ensures r.Some? ==> exists i :: 0 <= i < |m| && m[i] == Entry(k, r.value)
    ensures r.None? ==> forall i :: 0 <= i < |m| ==> m[i].key != k
  {
    if m == [] then None
    else if m[|m| - 1].key == k then Some(m[|m| - 1].index)
    else Lookup(m[..|m| - 1], k)
  }

  /** Adds an entry for a new key. */
  function Insert(m: KeyMap, e: Entry): (r: KeyMap)
    ensures |r| == |m| + 1
    ensures forall x :: x in r <==> x in m || x == e
  {
    if m == [] then [e]
    else if Less(m[|m| - 1].key, e.key) then m + [e]
    else Insert(m[..|m| - 1], e) + [m[|m| - 1]]
  }

  lemma {:induction false} InsertOrdered(m: KeyMap, e: Entry)
    requires Ordered(m) && forall i :: 0 <= i < |m| ==> m[i].key != e.key
    ensures Ordered(Insert(m, e))
  {
    hide Less;
    if m != [] {
      var before, last := m[..|m| - 1], m[|m| - 1];
      LessTotal(last.key, e.key);
      if Less(last.key, e.key) {
        forall i | 0 <= i < |before|
          ensures Less(m[i].key, e.key)
        {
          LessTransitive(m[i].key, last.key, e.key);
        }
      } else {
        InsertOrdered(before, e);
        var r := Insert(before, e);
        forall i | 0 <= i < |r|
          ensures Less(r[i].key, last.key)
        {
          assert r[i] in r;
          if r[i] != e {
            assert r[i] in before;
          }
        }
      }
    }
  }

  /** The index after the fields have been created in this order */
  function KeyIndex(fields: seq<Field>): (m: KeyMap)
    ensures |m| == |fields|
  {
    if fields == [] then [] else
    Insert(KeyIndex(fields[..|fields| - 1]), Entry(fields[|fields| - 1].key, |fields| - 1))
  }

  lemma KeyIndexNext(fields: seq<Field>, f: Field)
    ensures KeyIndex(fields + [f]) == Insert(KeyIndex(fields), Entry(f.key, |fields|))
  {
    hide Insert;
    assert (fields + [f])[..|fields|] == fields;
  }

  /** The index holds every key with the position of its field, and nothing else. */
  lemma {:induction false} KeyIndexExact(fields: seq<Field>)
    ensures forall e :: e in KeyIndex(fields) <==> e.index < |fields| && e.key == fields[e.index].key
    ensures DistinctKeys(fields) ==> Ordered(KeyIndex(fields))
  {
    hide Insert, Less, Ordered;
    if fields == [] {
      assert Ordered(KeyIndex(fields)) by { OrderedEmpty(); }
    } else {
      var before, f := fields[..|fields| - 1], fields[|fields| - 1];
      KeyIndexExact(before);
      var e := Entry(f.key, |before|);
      var m := KeyIndex(before);
      if DistinctKeys(fields) {
        forall i | 0 <= i < |m|
          ensures m[i].key != f.key
        {
          assert m[i] in m;
        }
        InsertOrdered(m, e);
      }
    }
  }

  lemma KeyIndexEmpty()
    ensures KeyIndex([]) == []
  {
  }

  lemma LookupEmpty(k: Name)
    ensures Lookup([], k) == None
  {
  }

  /** Only the keys matter. */
  lemma {:induction false} KeyIndexKeeps(fields: seq<Field>, i: nat, u: Tree)
    requires i < |fields|
    ensures KeyIndex(fields[i := Field(fields[i].key, u)]) == KeyIndex(fields)
  {
    hide Insert;
    var updated := fields[i := Field(fields[i].key, u)];
    if i < |fields| - 1 {
      KeyIndexKeeps(fields[..|fields| - 1], i, u);
      assert updated[..|fields| - 1] == fields[..|fields| - 1][i := Field(fields[i].key, u)];
    } else {
      assert updated[..|fields| - 1] == fields[..|fields| - 1];
    }
  }

  lemma OrderedEmpty()
    ensures Ordered([])
  {
  }

  /** `key2index` is the inverse of the keys of the children. */
  lemma LookupIsFind(fields: seq<Field>, k: Name)
    requires DistinctKeys(fields)
    ensures Lookup(KeyIndex(fields), k) == Find(fields, k)
  {
    hide KeyIndex, Lookup, Find, Ordered;
    KeyIndexExact(fields);
    var m := KeyIndex(fields);
    var i, r := Find(fields, k), Lookup(m, k);
    if i.Some? {
      assert Entry(k, i.value) in m;
    }
    if r.Some? {
      assert Entry(k, r.value) in m;
    }
  }

  // ---------------------------------------------------------------------
  // Sorted listings

  /** The position of the `j`-th key in the order of iteration */
  function At(fields: seq<Field>, j: nat): (i: nat)
    requires j < |fields|
    ensures i < |fields| && KeyIndex(fields)[j] == Entry(fields[i].key, i)
  {
    hide KeyIndex;
    KeyIndexExact(fields);
    assert KeyIndex(fields)[j] in KeyIndex(fields);
    KeyIndex(fields)[j].index
  }

  /** The tree with all objects in the order of their keys */
  function Sorted(t: Tree): Tree
    decreases t, 1, 0
  {
    match t
    case Unset => t
    case Leaf(_) => t
    case Obj(fields) => Obj(SortedFields(t, |fields|))
    case Arr(items) => Arr(SortedItems(t, |items|))
  }

  function SortedFields(t: Tree, n: nat): (r: seq<Field>)
    requires t.Obj? && n <= |t.fields|
    ensures |r| == n
    ensures forall j :: 0 <= j < n ==>
        r[j] == Field(t.fields[At(t.fields, j)].key, Sorted(t.fields[At(t.fields, j)].tree))
    decreases t, 0, n
  {
    if n == 0 then [] else
    var f := t.fields[At(t.fields, n - 1)];
    SortedFields(t, n - 1) + [Field(f.key, Sorted(f.tree))]
  }

  function SortedItems(t: Tree, n: nat): (r: seq<Tree>)
    requires t.Arr? && n <= |t.items|
    ensures |r| == n && forall j :: 0 <= j < n ==> r[j] == Sorted(t.items[j])
    decreases t, 0, n
  {
    if n == 0 then [] else SortedItems(t, n - 1) + [Sorted(t.items[n - 1])]
  }

  /** Equal up to the order of the keys */
  predicate Same(t: Tree, u: Tree)
    decreases t
  {
    match t
    case Unset => u == t
    case Leaf(_) => u == t
    case Obj(fields) =>
      && u.Obj? && |u.fields| == |fields|
      && forall i :: 0 <= i < |fields| ==>
           var j := Find(u.fields, fields[i].key);
           j.Some? && Same(fields[i].tree, u.fields[j.value].tree)
    case Arr(items) =>
      && u.Arr? && |u.items| == |items|
      && forall i :: 0 <= i < |items| ==> Same(items[i], u.items[i])
  }

  lemma {:induction false} SortedUnset(t: Tree)
    ensures Sorted(t) == Unset <==> t == Unset
  {
    hide At;
  }

  lemma SortedDistinct(t: Tree)
    requires t.Obj? && DistinctKeys(t.fields)
    ensures DistinctKeys(Sorted(t).fields)
  {
    hide KeyIndex, Less, At;
    var fields := t.fields;
    KeyIndexExact(fields);
    forall i, j | 0 <= i < j < |fields|
      ensures Sorted(t).fields[i].key != Sorted(t).fields[j].key
    {
      assert Less(KeyIndex(fields)[i].key, KeyIndex(fields)[j].key);
      LessIrreflexive(KeyIndex(fields)[i].key);
    }
  }

  lemma {:induction false} SortedBuilt(t: Tree)
    requires Built(t)
    ensures Built(Sorted(t))
    decreases t
  {
    hide At, KeyIndex, Less;
    match t
    case Leaf(_) =>
    case Obj(fields) =>
      SortedDistinct(t);
      forall j | 0 <= j < |fields|
        ensures Built(Sorted(t).fields[j].tree)
      {
        SortedBuilt(fields[At(fields, j)].tree);
      }
    case Arr(items) =>
      forall j | 0 <= j < |items|
        ensures Sorted(t).items[j] == Unset || Built(Sorted(t).items[j])
      {
        SortedUnset(items[j]);
        if items[j] != Unset {
          SortedBuilt(items[j]);
        }
      }
      SortedUnset(items[|items| - 1]);
  }

  lemma FindAt(fields: seq<Field>, i: nat)
    requires i < |fields| && DistinctKeys(fields)
    ensures Find(fields, fields[i].key) == Some(i)
  {
    hide Find;
    var r := Find(fields, fields[i].key);
    assert r.Some?;
  }

  lemma {:induction false} SortedSame(t: Tree)
    requires t == Unset || Built(t)
    ensures Same(t, Sorted(t))
    decreases t
  {
    hide At, KeyIndex, Less, Find;
    match t
    case Unset =>
    case Leaf(_) =>
    case Obj(fields) =>
      var m := KeyIndex(fields);
      KeyIndexExact(fields);
      SortedDistinct(t);
      forall i | 0 <= i < |fields|
        ensures var j := Find(Sorted(t).fields, fields[i].key);
          j.Some? && Same(fields[i].tree, Sorted(t).fields[j.value].tree)
      {
        assert Entry(fields[i].key, i) in m;
        var j :| 0 <= j < |m| && m[j] == Entry(fields[i].key, i);
        assert At(fields, j) == i;
        FindAt(Sorted(t).fields, j);
        SortedSame(fields[i].tree);
      }
    case Arr(items) =>
      forall i | 0 <= i < |items|
        ensures Same(items[i], Sorted(t).items[i])
      {
        SortedSame(items[i]);
      }
  }

  /** Replaying a sorted listing gives the tree up to the order of its keys. */
  lemma ReplaySorted(t: Tree)
    requires Built(t)
    ensures var r := Replay(Unset, Flat(Sorted(t), [])); r.Some? && Same(t, r.value)
  {
    SortedBuilt(t);
    ReplayFlat(Sorted(t));
    SortedSame(t);
  }
}
