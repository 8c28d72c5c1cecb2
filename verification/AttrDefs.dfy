/**
  Priorities of the attribute options (`parse_attribute_def` of lib/atacmds.cpp,
  called for the presets of lib/knowndrives.cpp and the options of the user).
 */
module AttrDefs {
  import opened Wrappers

  const MAX_ATTRIBUTE_NUM := 256

  datatype Priority = Default | Database | User

  function Rank(p: Priority): nat { match p case Default => 0 case Database => 1 case User => 2 }

  /** What an option says of the attributes it addresses, once it is parsed */
  datatype Spec = Spec(format: nat, flags: nat, byteOrder: string)

  /** An option `id,format[,name]`, or `N,format[,name]` for all attributes */
  datatype Target = Every | One(id: nat)
  datatype AttrOption = AttrOption(target: Target, name: string, spec: Spec)

  predicate OptionOk(o: AttrOption) { o.target.One? ==> 1 <= o.target.id <= 255 }

  type Parsed = o: AttrOption | OptionOk(o) witness AttrOption(Every, "", Spec(0, 0, ""))

  /** `ata_vendor_attr_defs::entry` */
  datatype Def = Def(name: string, priority: Priority, spec: Spec)

  type Table = t: seq<Def> | |t| == MAX_ATTRIBUTE_NUM witness Defaults(MAX_ATTRIBUTE_NUM, Spec(0, 0, ""))

  function Defaults(n: nat, spec: Spec): (t: seq<Def>)
    ensures |t| == n && forall i :: 0 <= i < n ==> t[i] == Def("", Default, spec)
  {
    if n == 0 then [] else Defaults(n - 1, spec) + [Def("", Default, spec)]
  }

  // ---------------------------------------------------------------------
  // One option

  function Renamed(d: Def, o: AttrOption): string { if o.name != "" then o.name else d.name }

  /** `N` takes effect over lower priorities only, an id also over its own. */
  predicate Accepts(d: Def, o: AttrOption, p: Priority) {
    if o.target.Every? then Rank(d.priority) < Rank(p) else Rank(d.priority) <= Rank(p)
  }

  function Changed(d: Def, o: AttrOption, p: Priority): Def {
    if Accepts(d, o, p) then Def(Renamed(d, o), p, o.spec) else d
  }

  function Apply(t: Table, o: Parsed, p: Priority): (r: Table)
    ensures forall i :: 0 <= i < MAX_ATTRIBUTE_NUM ==>
              r[i] == if Addresses(o, i) then Changed(t[i], o, p) else t[i]
  {
    if o.target.One? then t[o.target.id := Changed(t[o.target.id], o, p)]
    else seq(MAX_ATTRIBUTE_NUM, i requires 0 <= i < MAX_ATTRIBUTE_NUM => Changed(t[i], o, p))
  }

  predicate Addresses(o: AttrOption, id: nat) { o.target.Every? || o.target.id == id }

  method ParseAttributeDef(defs: array<Def>, o: Parsed, priority: Priority)
    requires defs.Length == MAX_ATTRIBUTE_NUM
    modifies defs
    ensures defs[..] == Apply(old(defs[..]), o, priority)
  {
    if o.target.Every? {
      for i := 0 to MAX_ATTRIBUTE_NUM
        invariant forall k :: 0 <= k < i ==> defs[k] == Changed(old(defs[k]), o, priority)
        invariant forall k :: i <= k < MAX_ATTRIBUTE_NUM ==> defs[k] == old(defs[k])
      {
        if Rank(defs[i].priority) >= Rank(priority) {
          continue;
        }
        var name := if o.name != "" then o.name else defs[i].name;
        defs[i] := Def(name, priority, o.spec);
      }
    } else if Rank(defs[o.target.id].priority) <= Rank(priority) {
      var name := if o.name != "" then o.name else defs[o.target.id].name;
      defs[o.target.id] := Def(name, priority, o.spec);
    }
    assert defs[..] == Apply(old(defs[..]), o, priority);
  }

  // ---------------------------------------------------------------------
  // Lists of options

  datatype Setting = Setting(option: Parsed, priority: Priority)

  function ApplyAll(t: Table, s: seq<Setting>): Table {
    if s == [] then t else
    Apply(ApplyAll(t, s[..|s| - 1]), s[|s| - 1].option, s[|s| - 1].priority)
  }

  lemma {:induction false} ApplyAllConcat(t: Table, a: seq<Setting>, b: seq<Setting>)
    ensures ApplyAll(t, a + b) == ApplyAll(ApplyAll(t, a), b)
  {
    hide Apply;
    if b == [] {
      assert a + b == a;
    } else {
      assert (a + b)[..|a + b| - 1] == a + b[..|b| - 1];
      ApplyAllConcat(t, a, b[..|b| - 1]);
    }
  }

  lemma ApplyNext(t: Table, a: seq<Setting>, s: Setting)
    ensures ApplyAll(t, a + [s]) == Apply(ApplyAll(t, a), s.option, s.priority)
  {
    hide Apply;
    assert (a + [s])[..|a|] == a;
  }

  lemma NoSettings(t: Table)
    ensures ApplyAll(t, []) == t
  {
  }

  lemma ApplyOne(t: Table, s: Setting)
    ensures ApplyAll(t, [s]) == Apply(t, s.option, s.priority)
  {
    assert [s][..0] == [];
  }

  // ---------------------------------------------------------------------
  // Who wins

  /** The options of one priority, in their order */
  function Within(s: seq<Setting>, p: Priority): seq<Parsed> {
    if s == [] then []
    else Within(s[..|s| - 1], p) + if s[|s| - 1].priority == p then [s[|s| - 1].option] else []
  }

  /** The last option that names `id` */
  function LastNamed(os: seq<Parsed>, id: nat): Option<Parsed> {
    if os == [] then None
    else if os[|os| - 1].target == One(id) then Some(os[|os| - 1])
    else LastNamed(os[..|os| - 1], id)
  }

  /** The first option `N` */
  function FirstEvery(os: seq<Parsed>): Option<Parsed> {
    if os == [] then None
    else if os[0].target.Every? then Some(os[0])
    else FirstEvery(os[1..])
  }

  /** Within a priority: the last option naming the attribute, else the first `N` (which
      has no effect at the lowest priority). */
  function Winner(os: seq<Parsed>, id: nat, p: Priority): Option<Parsed> {
    if LastNamed(os, id).Some? then LastNamed(os, id)
    else if p != Default then FirstEvery(os)
    else None
  }

  /** The highest priority that addresses the attribute, and its option */
  function Effective(s: seq<Setting>, id: nat): Option<Setting> {
    var user, database, fallback :=
      Winner(Within(s, User), id, User),
          Winner(Within(s, Database), id, Database), Winner(Within(s, Default), id, Default);
    if user.Some? then Some(Setting(user.value, User))
    else if database.Some? then Some(Setting(database.value, Database))
    else if fallback.Some? then Some(Setting(fallback.value, Default))
    else None
  }

  lemma LastNamedNext(os: seq<Parsed>, o: Parsed, id: nat)
    ensures LastNamed(os + [o], id) == if o.target == One(id) then Some(o) else LastNamed(os, id)
  {
    assert (os + [o])[..|os|] == os;
  }

  lemma {:induction false} FirstEveryNext(os: seq<Parsed>, o: Parsed)
    ensures FirstEvery(os + [o]) ==
            if FirstEvery(os).Some? then FirstEvery(os) else if o.target.Every? then Some(o) else None
  {
    if os == [] {
      assert (os + [o])[1..] == [];
    } else {
      assert (os + [o])[1..] == os[1..] + [o];
      FirstEveryNext(os[1..], o);
    }
  }

  lemma WinnerNext(os: seq<Parsed>, o: Parsed, id: nat, p: Priority)
    ensures Winner(os + [o], id, p) ==
            if o.target == One(id) then Some(o)
            else if o.target.Every? && Winner(os, id, p).None? && p != Default then Some(o)
            else Winner(os, id, p)
  {
    hide LastNamed, FirstEvery;
    LastNamedNext(os, o, id);
    FirstEveryNext(os, o);
  }

  lemma WithinNext(s: seq<Setting>, x: Setting, p: Priority)
    ensures Within(s + [x], p) == if x.priority == p then Within(s, p) + [x.option] else Within(s, p)
  {
    assert (s + [x])[..|s|] == s;
  }

  /** Format, flags and byte order of an attribute after any list of options */
  lemma {:induction false} HighestPriorityWins(t: Table, s: seq<Setting>, id: nat)
    requires id < MAX_ATTRIBUTE_NUM && t[id].priority == Default
    ensures var d := ApplyAll(t, s)[id];
      match Effective(s, id)
      case None => d.spec == t[id].spec && d.priority == Default
      case Some(w) => d.spec == w.option.spec && d.priority == w.priority
  {
    hide Winner, Within, Apply, ApplyAll;
    if s == [] {
      NoWinner(id);
      NoSettings(t);
    } else {
      var before, x := s[..|s| - 1], s[|s| - 1];
      assert s == before + [x];
      HighestPriorityWins(t, before, id);
      ApplyNext(t, before, x);
      WithinNext(before, x, User);
      WithinNext(before, x, Database);
      WithinNext(before, x, Default);
      WinnerNext(Within(before, x.priority), x.option, id, x.priority);
    }
  }

  lemma NoWinner(id: nat)
    ensures Effective([], id) == None
  {
  }

  /** The interleaving of the priorities does not matter. */
  lemma InterleavingIrrelevant(t: Table, a: seq<Setting>, b: seq<Setting>, id: nat)
    requires id < MAX_ATTRIBUTE_NUM && t[id].priority == Default
    requires Within(a, User) == Within(b, User) && Within(a, Database) == Within(b, Database)
    requires Within(a, Default) == Within(b, Default)
    ensures ApplyAll(t, a)[id].spec == ApplyAll(t, b)[id].spec
  {
    hide Apply, Winner, Within;
    HighestPriorityWins(t, a, id);
    HighestPriorityWins(t, b, id);
  }

  // ---------------------------------------------------------------------
  // Names

  function Name(t: Table, s: seq<Setting>, id: nat): string
    requires id < MAX_ATTRIBUTE_NUM
  {
    ApplyAll(t, s)[id].name
  }

  /** Among the options of its priority, an option takes effect behind `os` unless a
      higher priority has been there before. */
  predicate Takes(os: seq<Parsed>, o: Parsed, id: nat, p: Priority) {
    o.target == One(id) || (o.target.Every? && p != Default && Winner(os, id, p).None?)
  }

  /** The name that the options of a priority give the attribute, if any */
  function Given(os: seq<Parsed>, id: nat, p: Priority): string {
    if os == [] then "" else
    var before, o := os[..|os| - 1], os[|os| - 1];
    if Takes(before, o, id, p) && o.name != "" then o.name else Given(before, id, p)
  }

  /** No option of a priority that can take effect gives the attribute a new name. */
  ghost predicate Plain(os: seq<Parsed>, id: nat, p: Priority, old': string) {
    forall i :: 0 <= i < |os| && Takes(os[..i], os[i], id, p) ==> os[i].name == "" || os[i].name == old'
  }

  ghost predicate LowerPlain(s: seq<Setting>, h: Priority, id: nat, old': string) {
    forall p :: Rank(p) < Rank(h) ==> Plain(Within(s, p), id, p, old')
  }

  /** The highest priority gives the attribute a name, or no lower one can. */
  ghost predicate NameFixed(s: seq<Setting>, id: nat, old': string) {
    match Effective(s, id)
    case None => true
    case Some(w) => Given(Within(s, w.priority), id, w.priority) != "" || LowerPlain(s, w.priority, id, old')
  }

  lemma GivenNext(os: seq<Parsed>, o: Parsed, id: nat, p: Priority)
    ensures Given(os + [o], id, p) == if Takes(os, o, id, p) && o.name != "" then o.name else Given(os, id, p)
  {
    hide Takes;
    assert (os + [o])[..|os|] == os;
  }

  lemma PlainNext(os: seq<Parsed>, o: Parsed, id: nat, p: Priority, old': string)
    requires Plain(os + [o], id, p, old')
    ensures Plain(os, id, p, old')
    ensures Takes(os, o, id, p) ==> o.name == "" || o.name == old'
  {
    hide Takes;
    var os' := os + [o];
    assert os'[..|os|] == os;
    forall i | 0 <= i < |os| && Takes(os[..i], os[i], id, p)
      ensures os[i].name == "" || os[i].name == old'
    {
      assert os'[..i] == os[..i] && os'[i] == os[i];
    }
  }

  lemma {:induction false} GivenPlain(os: seq<Parsed>, id: nat, p: Priority, old': string)
    requires Plain(os, id, p, old')
    ensures Given(os, id, p) == "" || Given(os, id, p) == old'
  {
    hide Takes;
    if os != [] {
      var before, o := os[..|os| - 1], os[|os| - 1];
      assert os == before + [o];
      PlainNext(before, o, id, p, old');
      GivenPlain(before, id, p, old');
    }
  }

  lemma {:induction false} NoneGiven(os: seq<Parsed>, id: nat, p: Priority)
    requires Winner(os, id, p).None?
    ensures Given(os, id, p) == ""
  {
    hide Winner;
    if os != [] {
      var before, o := os[..|os| - 1], os[|os| - 1];
      assert os == before + [o];
      WinnerNext(before, o, id, p);
      NoneGiven(before, id, p);
    }
  }

  lemma LowerPlainNext(s: seq<Setting>, x: Setting, h: Priority, id: nat, old': string)
    requires LowerPlain(s + [x], h, id, old')
    ensures LowerPlain(s, h, id, old')
  {
    hide Plain, Within;
    forall p | Rank(p) < Rank(h)
      ensures Plain(Within(s, p), id, p, old')
    {
      WithinNext(s, x, p);
      if x.priority == p {
        PlainNext(Within(s, p), x.option, id, p, old');
      }
    }
  }

  /** The name after any list of options, as far as the order within the priorities
      determines it */
  lemma {:induction false} NameAfter(t: Table, s: seq<Setting>, id: nat)
    requires id < MAX_ATTRIBUTE_NUM && t[id].priority == Default
    ensures match Effective(s, id)
      case None => Name(t, s, id) == t[id].name
      case Some(w) =>
        var given := Given(Within(s, w.priority), id, w.priority);
        if given != "" then Name(t, s, id) == given
        else LowerPlain(s, w.priority, id, t[id].name) ==> Name(t, s, id) == t[id].name
  {
    hide Winner, Within, Given, LowerPlain, Plain, Apply, ApplyAll;
    if s == [] {
      NoWinner(id);
      NoSettings(t);
    } else {
      var before, x := s[..|s| - 1], s[|s| - 1];
      assert s == before + [x];
      NameAfter(t, before, id);
      HighestPriorityWins(t, before, id);
      ApplyNext(t, before, x);
      WithinNext(before, x, User);
      WithinNext(before, x, Database);
      WithinNext(before, x, Default);
      var os := Within(before, x.priority);
      WinnerNext(os, x.option, id, x.priority);
      GivenNext(os, x.option, id, x.priority);
      if Winner(os, id, x.priority).None? {
        NoneGiven(os, id, x.priority);
      }
      if Effective(before, id).Some? && LowerPlain(s, Effective(s, id).value.priority, id, t[id].name) {
        NameKept(before, x, id, t[id].name);
      }
    }
  }

  /** What the last option leaves of the condition on lower priorities */
  lemma NameKept(before: seq<Setting>, x: Setting, id: nat, old': string)
    requires Effective(before, id).Some? && Effective(before + [x], id).Some?
    requires LowerPlain(before + [x], Effective(before + [x], id).value.priority, id, old')
    ensures var h, h' := Effective(before, id).value.priority, Effective(before + [x], id).value.priority;
      && (Rank(h) < Rank(h') ==> LowerPlain(before, h, id, old') && Given(Within(before, h), id, h) in ["", old'])
      && (h == h' ==> LowerPlain(before, h, id, old'))
  {
    hide Effective, Within, Given, Plain;
    var h, h' := Effective(before, id).value.priority, Effective(before + [x], id).value.priority;
    LowerPlainNext(before, x, h', id, old');
    if Rank(h) < Rank(h') {
      GivenPlain(Within(before, h), id, h, old');
    }
  }

  // Rearranging options

  /** The same options in the same order, priority by priority */
  ghost predicate SameOptions(a: seq<Setting>, b: seq<Setting>) { forall p :: Within(a, p) == Within(b, p) }

  /** The settings of some priorities */
  function Only(s: seq<Setting>, ps: set<Priority>): seq<Setting> {
    if s == [] then []
    else Only(s[..|s| - 1], ps) + if s[|s| - 1].priority in ps then [s[|s| - 1]] else []
  }

  function Tagged(os: seq<Parsed>, p: Priority): seq<Setting> {
    if os == [] then [] else Tagged(os[..|os| - 1], p) + [Setting(os[|os| - 1], p)]
  }

  lemma {:induction false} WithinConcat(a: seq<Setting>, b: seq<Setting>, p: Priority)
    ensures Within(a + b, p) == Within(a, p) + Within(b, p)
  {
    if b == [] {
      assert a + b == a;
    } else {
      assert (a + b)[..|a + b| - 1] == a + b[..|b| - 1];
      WithinConcat(a, b[..|b| - 1], p);
    }
  }

  lemma {:induction false} WithinOnly(s: seq<Setting>, ps: set<Priority>, p: Priority)
    ensures Within(Only(s, ps), p) == if p in ps then Within(s, p) else []
  {
    if s != [] {
      var before, x := s[..|s| - 1], s[|s| - 1];
      WithinOnly(before, ps, p);
      if x.priority in ps {
        WithinNext(Only(before, ps), x, p);
      } else {
        assert Only(s, ps) == Only(before, ps);
      }
    }
  }

  lemma {:induction false} WithinTagged(os: seq<Parsed>, q: Priority, p: Priority)
    ensures Within(Tagged(os, q), p) == if p == q then os else []
  {
    hide Within;
    if os == [] {
      NoneWithin();
    } else {
      var before, o := os[..|os| - 1], os[|os| - 1];
      WithinTagged(before, q, p);
      WithinNext(Tagged(before, q), Setting(o, q), p);
      assert os == before + [o];
    }
  }

  lemma {:induction false} PrioritiesOnly(s: seq<Setting>, ps: set<Priority>)
    ensures forall x :: x in Only(s, ps) ==> x.priority in ps
  {
    if s != [] {
      PrioritiesOnly(s[..|s| - 1], ps);
    }
  }

  lemma {:induction false} PrioritiesTagged(os: seq<Parsed>, p: Priority)
    ensures forall x :: x in Tagged(os, p) ==> x.priority == p
  {
    if os != [] {
      PrioritiesTagged(os[..|os| - 1], p);
    }
  }

  /** Options of lower priorities than the attribute has change nothing. */
  lemma {:induction false} LowerIgnored(t: Table, s: seq<Setting>, id: nat)
    requires id < MAX_ATTRIBUTE_NUM
    requires forall x :: x in s ==> Rank(x.priority) < Rank(t[id].priority)
    ensures ApplyAll(t, s)[id] == t[id]
  {
    if s != [] {
      assert s[|s| - 1] in s;
      LowerIgnored(t, s[..|s| - 1], id);
    }
  }

  /** Options of higher priorities do not see which lower one the attribute has. */
  lemma {:induction false} HigherBlind(t: Table, t': Table, s: seq<Setting>, id: nat, h: Priority)
    requires id < MAX_ATTRIBUTE_NUM && t[id].name == t'[id].name
    requires Rank(t[id].priority) < Rank(h) && Rank(t'[id].priority) < Rank(h)
    requires forall x :: x in s ==> Rank(x.priority) >= Rank(h)
    ensures var d, d' := ApplyAll(t, s)[id], ApplyAll(t', s)[id];
      && d.name == d'.name
      && (d.priority == d'.priority || (Rank(d.priority) < Rank(h) && Rank(d'.priority) < Rank(h)))
  {
    if s != [] {
      assert s[|s| - 1] in s;
      HigherBlind(t, t', s[..|s| - 1], id, h);
    }
  }

  function AtLeast(h: Priority): (ps: set<Priority>)
    ensures forall p :: p in ps <==> Rank(p) >= Rank(h)
  {
    match h case Default => {Default, Database, User} case Database => {Database, User} case User => {User}
  }

  function Below(h: Priority): (ps: set<Priority>)
    ensures forall p :: p in ps <==> Rank(p) < Rank(h)
  {
    {Default, Database, User} - AtLeast(h)
  }

  /** The highest priority first: lower ones have no effect. */
  lemma HighestFirst(t: Table, s: seq<Setting>, id: nat, h: Priority)
    requires id < MAX_ATTRIBUTE_NUM && t[id].priority == Default
    requires Effective(s, id).Some? && Effective(s, id).value.priority == h && Given(Within(s, h), id, h) == ""
    ensures var r := Only(s, AtLeast(h)) + Only(s, Below(h));
      SameOptions(r, s) && Name(t, r, id) == t[id].name
  {
    hide Winner, Given, Plain, Apply, ApplyAll, Only, AtLeast, Below, Within;
    var a, b := Only(s, AtLeast(h)), Only(s, Below(h));
    forall p
      ensures Within(a, p) == if Rank(p) >= Rank(h) then Within(s, p) else []
      ensures Within(a + b, p) == Within(s, p)
    {
      WithinOnly(s, AtLeast(h), p);
      WithinOnly(s, Below(h), p);
      WithinConcat(a, b, p);
    }
    UpperEffective(s, a, id, h);
    NameAfter(t, a, id);
    HighestPriorityWins(t, a, id);
    ApplyAllConcat(t, a, b);
    PrioritiesOnly(s, Below(h));
    LowerIgnored(ApplyAll(t, a), b, id);
  }

  lemma UpperEffective(s: seq<Setting>, a: seq<Setting>, id: nat, h: Priority)
    requires Effective(s, id).Some? && Effective(s, id).value.priority == h
    requires forall p :: Within(a, p) == if Rank(p) >= Rank(h) then Within(s, p) else []
    ensures Effective(a, id) == Effective(s, id)
    ensures forall old' :: LowerPlain(a, h, id, old')
  {
    hide Within;
  }

  /** A lower priority first, up to an option that names the attribute; the highest
      priority keeps that name. */
  function LowerFirst(s: seq<Setting>, h: Priority, p: Priority, i: nat): seq<Setting>
    requires i < |Within(s, p)|
  {
    Tagged(Within(s, p)[..i + 1], p) + Only(s, AtLeast(h))
    + (Tagged(Within(s, p)[i + 1..], p) + Only(s, Below(h) - {p}))
  }

  lemma LowerFirstSame(s: seq<Setting>, h: Priority, p: Priority, i: nat)
    requires i < |Within(s, p)| && Rank(p) < Rank(h)
    ensures SameOptions(LowerFirst(s, h, p, i), s)
  {
    hide Within, Only, Tagged, Rank, LowerFirst;
    var os := Within(s, p);
    assert os[..i + 1] + os[i + 1..] == os;
    forall q
      ensures Within(LowerFirst(s, h, p, i), q) == Within(s, q)
    {
      LowerFirstWithin(s, h, p, i, q);
      NoneElse(os[..i + 1], os[i + 1..]);
      NoneElse([], Within(s, q));
    }
  }

  lemma NoneElse(a: seq<Parsed>, b: seq<Parsed>)
    ensures a + [] + (b + []) == a + b
    ensures a == [] ==> a + [] + (a + b) == b && a + b + (a + a) == b
  {
  }

  lemma LowerFirstWithin(s: seq<Setting>, h: Priority, p: Priority, i: nat, q: Priority)
    requires i < |Within(s, p)|
    ensures var os := Within(s, p);
      Within(LowerFirst(s, h, p, i), q) == (if p == q then os[..i + 1] else [])
        + (if q in AtLeast(h) then Within(s, q) else [])
        + ((if p == q then os[i + 1..] else []) + (if q in Below(h) - {p} then Within(s, q) else []))
  {
    hide Within, Only, Tagged, Rank, AtLeast, Below;
    var os := Within(s, p);
    var front, upper := Tagged(os[..i + 1], p), Only(s, AtLeast(h));
    var back, others := Tagged(os[i + 1..], p), Only(s, Below(h) - {p});
    WithinTagged(os[..i + 1], p, q);
    WithinTagged(os[i + 1..], p, q);
    WithinOnly(s, AtLeast(h), q);
    WithinOnly(s, Below(h) - {p}, q);
    WithinConcat(front, upper, q);
    WithinConcat(back, others, q);
    WithinConcat(front + upper, back + others, q);
  }

  /** The name that the front of the list gives */
  lemma FrontName(t: Table, os: seq<Parsed>, o: Parsed, id: nat, p: Priority)
    requires id < MAX_ATTRIBUTE_NUM && t[id].priority == Default && Takes(os, o, id, p) && o.name != ""
    ensures var d := ApplyAll(t, Tagged(os + [o], p))[id]; d.name == o.name && d.priority == p
  {
    hide Winner, Within, Given, LowerPlain, ApplyAll, Tagged;
    var front := Tagged(os + [o], p);
    forall q
      ensures Within(front, q) == if q == p then os + [o] else []
    {
      WithinTagged(os + [o], p, q);
    }
    WinnerNext(os, o, id, p);
    GivenNext(os, o, id, p);
    NoneWins(id);
    NameAfter(t, front, id);
    HighestPriorityWins(t, front, id);
  }

  lemma NoneWins(id: nat)
    ensures forall p :: Winner([], id, p) == None
  {
  }

  lemma LowerFirstName(t: Table, s: seq<Setting>, id: nat, h: Priority, p: Priority, i: nat)
    requires id < MAX_ATTRIBUTE_NUM && t[id].priority == Default
    requires Effective(s, id).Some? && Effective(s, id).value.priority == h && Given(Within(s, h), id, h) == ""
    requires Rank(p) < Rank(h) && i < |Within(s, p)|
    requires var os := Within(s, p); Takes(os[..i], os[i], id, p) && os[i].name != ""
    ensures Name(t, LowerFirst(s, h, p, i), id) == Within(s, p)[i].name
  {
    hide Winner, Within, Given, LowerPlain, ApplyAll, Tagged, Only, Takes, Effective;
    var os := Within(s, p);
    var name := os[i].name;
    var front, upper := Tagged(os[..i + 1], p), Only(s, AtLeast(h));
    var lower := Tagged(os[i + 1..], p) + Only(s, Below(h) - {p});
    assert os[..i] + [os[i]] == os[..i + 1];
    FrontName(t, os[..i], os[i], id, p);
    ApplyAllConcat(t, front, upper);
    ApplyAllConcat(t, front + upper, lower);
    var t1 := ApplyAll(t, front);
    var t2: Table := t1[id := Def(name, Default, t1[id].spec)];
    forall q
      ensures Within(upper, q) == if Rank(q) >= Rank(h) then Within(s, q) else []
    {
      WithinOnly(s, AtLeast(h), q);
    }
    UpperEffective(s, upper, id, h);
    NameAfter(t2, upper, id);
    HighestPriorityWins(t2, upper, id);
    PrioritiesOnly(s, AtLeast(h));
    HigherBlind(t1, t2, upper, id, h);
    PrioritiesTagged(os[i + 1..], p);
    PrioritiesOnly(s, Below(h) - {p});
    LowerIgnored(ApplyAll(t1, upper), lower, id);
  }

  /** The name of an attribute does not depend on how the priorities interleave exactly if
      the highest priority gives one, or no option of a lower one can. */
  lemma NameCondition(t: Table, s: seq<Setting>, id: nat)
    requires id < MAX_ATTRIBUTE_NUM && t[id].priority == Default
    ensures (forall r :: SameOptions(r, s) ==> Name(t, r, id) == Name(t, s, id)) <==> NameFixed(s, id, t[id].name)
  {
    hide Winner, Within, Given, Name, Only, LowerFirst;
    if NameFixed(s, id, t[id].name) {
      forall r | SameOptions(r, s)
        ensures Name(t, r, id) == Name(t, s, id)
      {
        FixedName(t, r, s, id);
      }
    } else {
      var h := Effective(s, id).value.priority;
      var p :| Rank(p) < Rank(h) && !Plain(Within(s, p), id, p, t[id].name);
      var os := Within(s, p);
      var i :| 0 <= i < |os| && Takes(os[..i], os[i], id, p) && os[i].name != "" && os[i].name != t[id].name;
      HighestFirst(t, s, id, h);
      LowerFirstSame(s, h, p, i);
      LowerFirstName(t, s, id, h, p, i);
      assert SameOptions(LowerFirst(s, h, p, i), s);
    }
  }

  lemma FixedName(t: Table, r: seq<Setting>, s: seq<Setting>, id: nat)
    requires id < MAX_ATTRIBUTE_NUM && t[id].priority == Default
    requires SameOptions(r, s) && NameFixed(s, id, t[id].name)
    ensures Name(t, r, id) == Name(t, s, id)
  {
    hide Winner, Within, Given, Plain, ApplyAll;
    NameAfter(t, r, id);
    NameAfter(t, s, id);
    assert Effective(r, id) == Effective(s, id);
  }

  /** An instance: a name given by the database stays if the user's option comes later and
      has none. */
  lemma NamesDependOnOrder(t: Table, spec: Spec)
    requires t[1] == Def("", Default, spec)
    ensures var d, u := Setting(AttrOption(One(1), "d", spec), Database), Setting(AttrOption(One(1), "", spec), User);
      && Within([d, u], User) == Within([u, d], User) && Within([d, u], Database) == Within([u, d], Database)
      && ApplyAll(t, [d, u])[1].name == "d" && ApplyAll(t, [u, d])[1].name == ""
  {
    hide Apply;
    var d, u := Setting(AttrOption(One(1), "d", spec), Database), Setting(AttrOption(One(1), "", spec), User);
    ApplyOne(t, d);
    ApplyOne(t, u);
    assert [d] + [u] == [d, u] && [u] + [d] == [u, d];
    ApplyAllConcat(t, [d], [u]);
    ApplyAllConcat(t, [u], [d]);
    ApplyOne(ApplyAll(t, [d]), u);
    ApplyOne(ApplyAll(t, [u]), d);
    NoneWithin();
    assert [] + [d] == [d] && [] + [u] == [u];
    WithinNext([], d, User);
    WithinNext([], d, Database);
    WithinNext([], u, User);
    WithinNext([], u, Database);
    WithinNext([d], u, User);
    WithinNext([d], u, Database);
    WithinNext([u], d, User);
    WithinNext([u], d, Database);
  }

  lemma NoneWithin()
    ensures forall p :: Within([], p) == []
  {
  }
}
