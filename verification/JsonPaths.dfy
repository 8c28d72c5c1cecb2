/**
  What setting an element does to the tree (lib/json.cpp), path by path: the element is
  there, everything else stays, and a change of type fails.  And the order of sorted keys.
 */
module JsonPaths {
  import opened Wrappers
  import opened JsonTree

  /** The subtree at a path; `Unset` if there is none */
  function Get(t: Tree, path: Path): Tree
    decreases |path|
  {
    if path == [] then t
    else if path[0].Key? then
      if t.Obj? && Find(t.fields, path[0].key).Some? then
        Get(t.fields[Find(t.fields, path[0].key).value].tree, path[1..])
      else Unset
    else if t.Arr? && path[0].index < |t.items| then Get(t.items[path[0].index], path[1..])
    else Unset
  }

  /** The value at a path, if there is one */
  function ValueAt(t: Tree, path: Path): Option<Scalar> {
    var u := Get(t, path);
    if u.Leaf? then Some(u.value) else None
  }

  /** The child of a tree that a step leads to */
  function Child(t: Tree, s: Step): Tree { Get(t, [s]) }

  lemma GetStep(t: Tree, path: Path)
    requires path != []
    ensures Get(t, path) == Get(Child(t, path[0]), path[1..])
  {
    ChildIs(t, path[0]);
    NothingBelow(path[1..]);
  }

  lemma {:induction false} NothingBelow(path: Path)
    ensures Get(Unset, path) == Unset
  {
  }

  lemma {:induction false} FindUpdated(fields: seq<Field>, k: Name, u: Tree, other: Name)
    requires Find(fields, k).Some?
    ensures var now := fields[Find(fields, k).value := Field(k, u)];
      && Find(now, other) == Find(fields, other)
  {
    var i := Find(fields, k).value;
    if fields[|fields| - 1].key != k {
      FindUpdated(fields[..|fields| - 1], k, u, other);
      assert fields[i := Field(k, u)][..|fields| - 1] == fields[..|fields| - 1][i := Field(k, u)];
    } else {
      assert fields[i := Field(k, u)][..|fields| - 1] == fields[..|fields| - 1];
    }
  }

  lemma FindAppended(fields: seq<Field>, k: Name, u: Tree, other: Name)
    requires Find(fields, k).None?
    ensures Find(fields + [Field(k, u)], other) == if other == k then Some(|fields|) else Find(fields, other)
  {
    assert (fields + [Field(k, u)])[..|fields|] == fields;
  }

  /** A step fits the type of a node. */
  predicate StepFits(t: Tree, s: Step) { t.Unset? || (if s.Key? then t.Obj? else t.Arr?) }

  /** One step of setting: the child changes, its siblings do not. */
  lemma SetStep(t: Tree, path: Path, v: Scalar)
    requires path != []
    ensures Set(t, path, v).Some? <==> StepFits(t, path[0]) && Set(Child(t, path[0]), path[1..], v).Some?
    ensures Set(t, path, v).Some? ==>
              var u := Set(t, path, v).value;
              && Child(u, path[0]) == Set(Child(t, path[0]), path[1..], v).value
              && (if path[0].Key? then u.Obj? else u.Arr?)
              && forall s: Step :: s != path[0] ==> Child(u, s) == Child(t, s)
  {
    hide Set;
    SetIs(t, path, v);
    if path[0].Key? {
      SetFieldStep(t, path[0].key, path[1..], v);
    } else {
      SetItemStep(t, path[0].index, path[1..], v);
    }
  }

  lemma SetIs(t: Tree, path: Path, v: Scalar)
    requires path != []
    ensures Set(t, path, v) == if path[0].Key? then SetField(t, path[0].key, path[1..], v)
                               else SetItem(t, path[0].index, path[1..], v)
  {
  }

  lemma ChildIs(t: Tree, s: Step)
    ensures Child(t, s) ==
            if s.Key? then
              if t.Obj? && Find(t.fields, s.key).Some? then t.fields[Find(t.fields, s.key).value].tree else Unset
            else if t.Arr? && s.index < |t.items| then t.items[s.index] else Unset
  {
    var path := [s];
    assert path[1..] == [];
    if s.Key? && t.Obj? && Find(t.fields, s.key).Some? {
      var u := t.fields[Find(t.fields, s.key).value].tree;
      assert Get(t, path) == Get(u, path[1..]) == u;
    } else if s.Index? && t.Arr? && s.index < |t.items| {
      assert Get(t, path) == Get(t.items[s.index], path[1..]) == t.items[s.index];
    } else {
      assert Get(t, path) == Unset;
    }
  }

  lemma SetFieldStep(t: Tree, k: Name, rest: Path, v: Scalar)
    ensures var r := SetField(t, k, rest, v);
      && (r.Some? <==> StepFits(t, Key(k)) && Set(Child(t, Key(k)), rest, v).Some?)
      && (r.Some? ==>
            && r.value.Obj? && Child(r.value, Key(k)) == Set(Child(t, Key(k)), rest, v).value
            && forall s: Step :: s != Key(k) ==> Child(r.value, s) == Child(t, s))
  {
    hide Set, Child, Find;
    ChildIs(t, Key(k));
    var r := SetField(t, k, rest, v);
    if t.Unset? {
      FindNothing(k);
    }
    if r.Some? {
      var fields := if t.Unset? then [] else t.fields;
      var u := Set(Child(t, Key(k)), rest, v).value;
      forall s: Step
        ensures Child(r.value, s) == if s == Key(k) then u else Child(t, s)
      {
        ChildIs(r.value, s);
        ChildIs(t, s);
        if s.Key? {
          FindNothing(s.key);
          if Find(fields, k).Some? {
            FindUpdated(fields, k, u, s.key);
          } else {
            FindAppended(fields, k, u, s.key);
          }
        }
      }
    }
  }

  lemma FindNothing(k: Name)
    ensures Find([], k) == None
  {
  }

  lemma SetItemStep(t: Tree, n: nat, rest: Path, v: Scalar)
    ensures var r := SetItem(t, n, rest, v);
      && (r.Some? <==> StepFits(t, Index(n)) && Set(Child(t, Index(n)), rest, v).Some?)
      && (r.Some? ==>
            && r.value.Arr? && Child(r.value, Index(n)) == Set(Child(t, Index(n)), rest, v).value
            && forall s: Step :: s != Index(n) ==> Child(r.value, s) == Child(t, s))
  {
    hide Set, Child, Find;
    ChildIs(t, Index(n));
    var r := SetItem(t, n, rest, v);
    if r.Some? {
      forall s: Step
        ensures Child(r.value, s) ==
                if s == Index(n) then Set(Child(t, Index(n)), rest, v).value else Child(t, s)
      {
        ChildIs(r.value, s);
        ChildIs(t, s);
      }
    }
  }

  // ---------------------------------------------------------------------
  // Main results

  /** A set value is there, and every other value of the tree stays what it was. */
  lemma {:induction false} SetValueAt(t: Tree, path: Path, v: Scalar, q: Path)
    requires Set(t, path, v).Some?
    ensures Get(Set(t, path, v).value, path) == Leaf(v)
    ensures ValueAt(Set(t, path, v).value, q) == if q == path then Some(v) else ValueAt(t, q)
    decreases |path|
  {
    hide Child, Set;
    var u := Set(t, path, v).value;
    if path == [] {
      RootSet(t, v, q);
    } else {
      SetStep(t, path, v);
      GetStep(u, path);
      if q != [] {
        GetStep(u, q);
        GetStep(t, q);
        SetValueAt(Child(t, path[0]), path[1..], v, q[1..]);
        assert q == [q[0]] + q[1..] && path == [path[0]] + path[1..];
      } else {
        SetValueAt(Child(t, path[0]), path[1..], v, []);
      }
    }
  }

  lemma RootSet(t: Tree, v: Scalar, q: Path)
    requires Set(t, [], v).Some?
    ensures Set(t, [], v).value == Leaf(v) && Get(Leaf(v), []) == Leaf(v)
    ensures q != [] ==> Get(Leaf(v), q) == Unset && Get(t, q) == Unset
  {
    if q != [] {
      NothingBelow(q);
    }
  }

  /** Subtrees beside the path stay as they are. */
  lemma {:induction false} SetBeside(t: Tree, path: Path, v: Scalar, q: Path)
    requires Set(t, path, v).Some? && !(q <= path) && !(path <= q)
    ensures Get(Set(t, path, v).value, q) == Get(t, q)
    decreases |path|
  {
    hide Child, Set;
    var u := Set(t, path, v).value;
    SetStep(t, path, v);
    GetStep(u, q);
    GetStep(t, q);
    if q[0] == path[0] {
      assert q == [q[0]] + q[1..] && path == [path[0]] + path[1..];
      SetBeside(Child(t, path[0]), path[1..], v, q[1..]);
    }
  }

  /** Setting succeeds exactly if no node on the path has another type: every node above is
      missing or has the type that the next step needs, and what is there is missing or a
      value of the same type, where all integers count as one. */
  lemma {:induction false} SetCondition(t: Tree, path: Path, v: Scalar)
    ensures Set(t, path, v).Some? <==>
            && (forall i :: 0 <= i < |path| ==> StepFits(Get(t, path[..i]), path[i]))
            && (Get(t, path).Unset? || (Get(t, path).Leaf? && SameType(Get(t, path).value, v)))
    decreases |path|
  {
    hide Child, Set;
    if path == [] {
      RootCondition(t, v);
    } else {
      var child, rest := Child(t, path[0]), path[1..];
      SetStep(t, path, v);
      SetCondition(child, rest, v);
      GetStep(t, path);
      assert path[..0] == [];
      forall i | 0 < i < |path|
        ensures Get(t, path[..i]) == Get(child, rest[..i - 1]) && path[i] == rest[i - 1]
      {
        GetStep(t, path[..i]);
        assert path[..i][1..] == rest[..i - 1];
      }
      if forall i :: 0 <= i < |path| ==> StepFits(Get(t, path[..i]), path[i]) {
        forall j | 0 <= j < |rest|
          ensures StepFits(Get(child, rest[..j]), rest[j])
        {
          assert StepFits(Get(t, path[..j + 1]), path[j + 1]);
        }
      }
    }
  }

  lemma RootCondition(t: Tree, v: Scalar)
    ensures Set(t, [], v).Some? <==> t.Unset? || (t.Leaf? && SameType(t.value, v))
  {
  }

  predicate SameType(v: Scalar, w: Scalar) {
    (v.Bool? <==> w.Bool?) && (v.Str? <==> w.Str?)
  }

  // ---------------------------------------------------------------------
  // Order and length

  function Keys(t: Tree): (ks: seq<Name>)
    requires t.Obj?
    ensures |ks| == |t.fields| && forall i :: 0 <= i < |ks| ==> ks[i] == t.fields[i].key
  {
    seq(|t.fields|, i requires 0 <= i < |t.fields| => t.fields[i].key)
  }

  /** A new key goes behind the others, and an old one keeps its place; an array grows to
      the index set. */
  lemma SetShape(t: Tree, path: Path, v: Scalar)
    requires path != [] && Set(t, path, v).Some?
    ensures var u := Set(t, path, v).value;
      if path[0].Key? then
        var was := if t.Obj? then Keys(t) else [];
        u.Obj? && Keys(u) == if path[0].key in was then was else was + [path[0].key]
      else
        var was := if t.Arr? then |t.items| else 0;
        u.Arr? && |u.items| == if path[0].index < was then was else path[0].index + 1
  {
    hide Set, Find;
    SetIs(t, path, v);
    if path[0].Key? {
      var fields := if t.Unset? then [] else t.fields;
      var u := Set(t, path, v).value;
      var k := path[0].key;
      if Find(fields, k).Some? {
        assert Keys(t)[Find(fields, k).value] == k;
        assert Keys(u) == Keys(t);
      } else if t.Obj? {
        assert Keys(u) == Keys(t) + [k];
      } else {
        assert Keys(u) == [] + [k];
      }
    }
  }

  /** Setting below a node on the path */
  lemma {:induction false} SetAlong(t: Tree, path: Path, v: Scalar, i: nat)
    requires i <= |path| && Set(t, path, v).Some?
    ensures Set(Get(t, path[..i]), path[i..], v).Some?
    ensures Get(Set(t, path, v).value, path[..i]) == Set(Get(t, path[..i]), path[i..], v).value
    decreases i
  {
    hide Child, Set;
    if i == 0 {
      assert path[..0] == [] && path[0..] == path;
    } else {
      var u := Set(t, path, v).value;
      SetStep(t, path, v);
      SetAlong(Child(t, path[0]), path[1..], v, i - 1);
      GetStep(t, path[..i]);
      GetStep(u, path[..i]);
      assert path[..i][1..] == path[1..][..i - 1] && path[1..][i - 1..] == path[i..];
    }
  }

  /** The same at every node on the path */
  lemma ShapeAlong(t: Tree, path: Path, v: Scalar, i: nat)
    requires i < |path| && Set(t, path, v).Some?
    ensures var was, now := Get(t, path[..i]), Get(Set(t, path, v).value, path[..i]);
      if path[i].Key? then
        var ks := if was.Obj? then Keys(was) else [];
        now.Obj? && Keys(now) == if path[i].key in ks then ks else ks + [path[i].key]
      else
        var n := if was.Arr? then |was.items| else 0;
        now.Arr? && |now.items| == if path[i].index < n then n else path[i].index + 1
  {
    hide Get, Set;
    SetAlong(t, path, v, i);
    SetShape(Get(t, path[..i]), path[i..], v);
  }

  // ---------------------------------------------------------------------
  // The order of keys

  /** `a` is a part of the front of `b`, or it has the smaller character where they differ
      first. */
  ghost predicate ComesFirst(a: string, b: string) {
    || (a <= b && a != b)
    || exists i: nat :: DiffersAt(a, b, i) && a[i] < b[i]
  }

  predicate DiffersAt(a: string, b: string, i: nat) { i < |a| && i < |b| && a[..i] == b[..i] && a[i] != b[i] }

  lemma {:induction false} LessIs(a: string, b: string)
    ensures Less(a, b) <==> ComesFirst(a, b)
  {
    if a != "" && b != "" {
      if a[0] != b[0] {
        assert DiffersAt(a, b, 0);
        assert forall i: nat :: DiffersAt(a, b, i) ==> i == 0;
      } else {
        LessIs(a[1..], b[1..]);
        assert a == [a[0]] + a[1..] && b == [b[0]] + b[1..];
        forall i: nat
          ensures DiffersAt(a[1..], b[1..], i) <==> DiffersAt(a, b, i + 1)
        {
          DiffersNext(a, b, i);
        }
        assert forall i: nat :: DiffersAt(a, b, i) ==> i > 0 && DiffersAt(a[1..], b[1..], i - 1);
      }
    }
  }

  lemma DiffersNext(a: string, b: string, i: nat)
    requires a != "" && b != "" && a[0] == b[0]
    ensures DiffersAt(a[1..], b[1..], i) <==> DiffersAt(a, b, i + 1)
  {
    if i < |a| - 1 && i < |b| - 1 {
      assert a[..i + 1] == [a[0]] + a[1..][..i] && b[..i + 1] == [b[0]] + b[1..][..i];
    }
  }

  /** A sorted object lists the keys that it had, each in front of those it comes before. */
  lemma SortedKeys(t: Tree)
    requires t.Obj? && DistinctKeys(t.fields)
    ensures Sorted(t).Obj? && |Keys(Sorted(t))| == |Keys(t)|
    ensures forall k :: k in Keys(Sorted(t)) <==> k in Keys(t)
    ensures forall i, j :: 0 <= i < j < |t.fields| ==> ComesFirst(Keys(Sorted(t))[i], Keys(Sorted(t))[j])
  {
    hide KeyIndex, Less, At, ComesFirst;
    var m := KeyIndex(t.fields);
    KeyIndexExact(t.fields);
    assert forall j :: 0 <= j < |m| ==> Keys(Sorted(t))[j] == m[j].key;
    forall i, j | 0 <= i < j < |m|
      ensures ComesFirst(m[i].key, m[j].key)
    {
      LessIs(m[i].key, m[j].key);
    }
    forall i | 0 <= i < |t.fields|
      ensures t.fields[i].key in Keys(Sorted(t))
    {
      assert Entry(t.fields[i].key, i) in m;
    }
  }
}
