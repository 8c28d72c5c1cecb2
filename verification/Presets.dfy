/** Preset strings of the drive database (`parse_db_presets` of lib/knowndrives.cpp). */
module Presets {
  import opened Wrappers
  import opened AttrDefs

  /** `firmwarebug_t` */
  datatype Bug = BugNone | NoLogDir | Samsung | Samsung2 | Samsung3 | XErrorLba

  /** `firmwarebug_defs` */
  class FirmwareBugs {
    var bugs: set<Bug>

    constructor ()
      ensures bugs == {}
    {
      bugs := {};
    }
  }

  class UsbType {
    var name: string

    constructor ()
      ensures name == ""
    {
      name := "";
    }
  }

  /** One option `-v`, `-F`, `-d`, or anything else; `None`: its argument is in error. */
  datatype Preset = Attribute(option: Option<Parsed>) | Firmware(bug: Option<Bug>) | DeviceType(name: string) | Other

  /** What the caller wants to know */
  datatype Wanted = Wanted(defs: bool, bugs: bool, usbType: bool)

  predicate Accepted(x: Preset, w: Wanted) {
    match x
    case Attribute(option) => w.defs && option.Some?
    case Firmware(bug) => w.bugs && bug.Some?
    case DeviceType(_) => w.usbType
    case Other => false
  }

  /** The options in front of the first one that is not accepted */
  function Front(xs: seq<Preset>, w: Wanted): (n: nat)
    ensures n <= |xs| && (forall i :: 0 <= i < n ==> Accepted(xs[i], w)) && (n < |xs| ==> !Accepted(xs[n], w))
  {
    if xs == [] then 0 else
    var n := Front(xs[..|xs| - 1], w);
    if n == |xs| - 1 && Accepted(xs[n], w) then n + 1 else n
  }

  function Settings(xs: seq<Preset>, p: Priority): seq<Setting> {
    if xs == [] then [] else
    var x := xs[|xs| - 1];
    Settings(xs[..|xs| - 1], p) + if x.Attribute? && x.option.Some? then [Setting(x.option.value, p)] else []
  }

  /** A bug is not set behind the option `none`. */
  function BugsAfter(bugs: set<Bug>, xs: seq<Preset>): set<Bug> {
    if xs == [] then bugs else
    var x, b := xs[|xs| - 1], BugsAfter(bugs, xs[..|xs| - 1]);
    if x.Firmware? && x.bug.Some? && BugNone !in b then b + {x.bug.value} else b
  }

  function TypeAfter(name: string, xs: seq<Preset>): string {
    if xs == [] then name
    else if xs[|xs| - 1].DeviceType? then xs[|xs| - 1].name
    else TypeAfter(name, xs[..|xs| - 1])
  }

  method ParseDbPresets(xs: seq<Preset>, defs: array?<Def>, firmwareBugs: FirmwareBugs?, usbType: UsbType?)
    returns (ok: bool)
    requires defs != null ==> defs.Length == MAX_ATTRIBUTE_NUM
    modifies defs, firmwareBugs, usbType
    ensures var n := Front(xs, Wanted(defs != null, firmwareBugs != null, usbType != null));
      && ok == (n == |xs|)
      && (defs != null ==>
            defs[..] == ApplyAll(old(defs[..]), Settings(xs[..n], if firmwareBugs != null then Database else Default)))
      && (firmwareBugs != null ==> firmwareBugs.bugs == BugsAfter(old(firmwareBugs.bugs), xs[..n]))
      && (usbType != null ==> usbType.name == TypeAfter(old(usbType.name), xs[..n]))
  {
    hide AttrDefs.Apply, ApplyAll;
    var p := if firmwareBugs != null then Database else Default;
    ghost var w := Wanted(defs != null, firmwareBugs != null, usbType != null);
    ghost var n := Front(xs, w);
    ghost var table: seq<Def> := if defs != null then defs[..] else [];
    if defs != null {
      NoSettings(defs[..]);
    }
    for i := 0 to |xs|
      invariant i <= n
      invariant defs != null ==> defs[..] == ApplyAll(table, Settings(xs[..i], p))
      invariant firmwareBugs != null ==> firmwareBugs.bugs == BugsAfter(old(firmwareBugs.bugs), xs[..i])
      invariant usbType != null ==> usbType.name == TypeAfter(old(usbType.name), xs[..i])
    {
      var x := xs[i];
      assert xs[..i + 1][..i] == xs[..i];
      if x.Attribute? && defs != null {
        if x.option.None? {
          return false;
        }
        ParseAttributeDef(defs, x.option.value, p);
        ApplyNext(table, Settings(xs[..i], p), Setting(x.option.value, p));
      } else if x.Firmware? && firmwareBugs != null {
        if x.bug.None? {
          return false;
        }
        if BugNone !in firmwareBugs.bugs {
          firmwareBugs.bugs := firmwareBugs.bugs + {x.bug.value};
        }
      } else if x.DeviceType? && usbType != null {
        usbType.name := x.name;
      } else {
        return false;
      }
      if defs != null && !x.Attribute? {
        assert Settings(xs[..i], p) + [] == Settings(xs[..i], p);
      }
    }
    assert xs[..|xs|] == xs;
    ok := true;
  }

  /** The bugs of the options up to the first `none` */
  function UntilNone(xs: seq<Preset>): set<Bug> {
    if xs == [] then {}
    else if !xs[0].Firmware? || xs[0].bug.None? then UntilNone(xs[1..])
    else if xs[0].bug.value == BugNone then {BugNone}
    else {xs[0].bug.value} + UntilNone(xs[1..])
  }

  lemma {:induction false} BugsAfterFirst(bugs: set<Bug>, x: Preset, xs: seq<Preset>)
    ensures BugsAfter(bugs, [x] + xs) == BugsAfter(BugsAfter(bugs, [x]), xs)
  {
    if xs == [] {
      assert [x] + xs == [x];
    } else {
      assert ([x] + xs)[..|xs|] == [x] + xs[..|xs| - 1];
      BugsAfterFirst(bugs, x, xs[..|xs| - 1]);
    }
  }

  /** With `none` set nothing changes; otherwise the bugs up to the first `none` are added,
      and none behind it. */
  lemma {:induction false} NoneEndsBugs(bugs: set<Bug>, xs: seq<Preset>)
    ensures BugsAfter(bugs, xs) == if BugNone in bugs then bugs else bugs + UntilNone(xs)
    decreases |xs|
  {
    if xs != [] {
      var x := xs[0];
      assert [x] + xs[1..] == xs;
      BugsAfterFirst(bugs, x, xs[1..]);
      assert [x][..0] == [];
      NoneEndsBugs(BugsAfter(bugs, [x]), xs[1..]);
    }
  }

  // ---------------------------------------------------------------------
  // Nothing is left out

  /** The number of accepted attribute options */
  function Attributes(xs: seq<Preset>): nat {
    if xs == [] then 0 else (if xs[0].Attribute? && xs[0].option.Some? then 1 else 0) + Attributes(xs[1..])
  }

  lemma {:induction false} AttributesSnoc(xs: seq<Preset>, x: Preset)
    ensures Attributes(xs + [x]) == Attributes(xs) + if x.Attribute? && x.option.Some? then 1 else 0
  {
    if xs == [] {
      assert xs + [x] == [x];
      assert [x][1..] == [];
    } else {
      assert (xs + [x])[1..] == xs[1..] + [x];
      AttributesSnoc(xs[1..], x);
    }
  }

  /** Every accepted attribute option is applied, in the order of the string, and nothing
      else. */
  lemma {:induction false} SettingsAre(xs: seq<Preset>, p: Priority)
    ensures |Settings(xs, p)| == Attributes(xs)
    ensures forall i :: 0 <= i < |xs| && xs[i].Attribute? && xs[i].option.Some? ==>
              && Attributes(xs[..i]) < |Settings(xs, p)|
              && Settings(xs, p)[Attributes(xs[..i])] == Setting(xs[i].option.value, p)
  {
    if xs != [] {
      var before, x := xs[..|xs| - 1], xs[|xs| - 1];
      SettingsAre(before, p);
      AttributesSnoc(before, x);
      assert xs == before + [x];
      forall i | 0 <= i < |xs| && xs[i].Attribute? && xs[i].option.Some?
        ensures Attributes(xs[..i]) < |Settings(xs, p)|
        ensures Settings(xs, p)[Attributes(xs[..i])] == Setting(xs[i].option.value, p)
      {
        if i < |xs| - 1 {
          assert xs[..i] == before[..i] && xs[i] == before[i];
        } else {
          assert xs[..i] == before;
        }
      }
    }
  }

  /** The last option `-d` gives the type. */
  lemma {:induction false} LastTypeWins(name: string, xs: seq<Preset>, i: nat)
    requires i < |xs| && xs[i].DeviceType? && forall j :: i < j < |xs| ==> !xs[j].DeviceType?
    ensures TypeAfter(name, xs) == xs[i].name
  {
    if i < |xs| - 1 {
      LastTypeWins(name, xs[..|xs| - 1], i);
    }
  }

  lemma {:induction false} NoTypeKept(name: string, xs: seq<Preset>)
    requires forall j :: 0 <= j < |xs| ==> !xs[j].DeviceType?
    ensures TypeAfter(name, xs) == name
  {
    if xs != [] {
      NoTypeKept(name, xs[..|xs| - 1]);
    }
  }

  predicate GoodAttribute(x: Preset) { x.Attribute? && x.option.Some? }

  predicate GoodBug(x: Preset) { x.Firmware? && x.bug.Some? }

  /** What the three callers accept: presets are good options `-v` and `-F`, default presets
      are good options `-v`, and the entries of USB bridges are options `-d`. */
  lemma CallersAccept(xs: seq<Preset>)
    ensures Front(xs, Wanted(true, true, false)) == |xs|
            <==> forall i :: 0 <= i < |xs| ==> GoodAttribute(xs[i]) || GoodBug(xs[i])
    ensures Front(xs, Wanted(true, false, false)) == |xs| <==> forall i :: 0 <= i < |xs| ==> GoodAttribute(xs[i])
    ensures Front(xs, Wanted(false, false, true)) == |xs| <==> forall i :: 0 <= i < |xs| ==> xs[i].DeviceType?
  {
    FrontAll(xs, Wanted(true, true, false));
    FrontAll(xs, Wanted(true, false, false));
    FrontAll(xs, Wanted(false, false, true));
  }

  lemma FrontAll(xs: seq<Preset>, w: Wanted)
    ensures Front(xs, w) == |xs| <==> forall i :: 0 <= i < |xs| ==> Accepted(xs[i], w)
  {
    var n := Front(xs, w);
    assert n < |xs| ==> !Accepted(xs[n], w);
  }
}
