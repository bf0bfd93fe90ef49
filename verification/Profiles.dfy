/** Activating, deactivating and cycling context profiles. */
module Profiles {
  import opened Prelude
  import opened Cascade

  function FindProfile(profiles: seq<Profile>, name: string): Option<Profile> {
    if profiles == [] then None
    else if profiles[0].name == name then Some(profiles[0])
    else FindProfile(profiles[1..], name)
  }

  // ---------------------------------------------------------------- sorted names

  ghost predicate NamesInOrder(names: seq<string>) {
    forall i, j | 0 <= i < j < |names| :: !TextLess(names[j], names[i])
  }

  function InsertName(x: string, names: seq<string>): (r: seq<string>)
    ensures multiset(r) == multiset(names) + multiset{x}
    ensures NamesInOrder(names) ==> NamesInOrder(r)
  {
    if names == [] then [x]
    else
      var n := |names| - 1;
      assert names == names[..n] + [names[n]];
      if TextLess(x, names[n]) then
        var r := InsertName(x, names[..n]);
        InsertNameOrder(x, names, r);
        r + [names[n]]
      else
        AppendNameOrder(x, names);
        names + [x]
  }

  lemma InsertNameOrder(x: string, names: seq<string>, r: seq<string>)
    requires names != [] && TextLess(x, names[|names| - 1])
    requires multiset(r) == multiset(names[..|names| - 1]) + multiset{x}
    requires NamesInOrder(names[..|names| - 1]) ==> NamesInOrder(r)
    ensures NamesInOrder(names) ==> NamesInOrder(r + [names[|names| - 1]])
  {
    if NamesInOrder(names) {
      var last := names[|names| - 1];
      forall i | 0 <= i < |r| ensures !TextLess(last, r[i]) {
        assert r[i] in multiset(r);
        if r[i] == x { TextLessAsymmetric(x, last); } else { assert r[i] in names[..|names| - 1]; }
      }
    }
  }

  lemma AppendNameOrder(x: string, names: seq<string>)
    requires names != [] && !TextLess(x, names[|names| - 1])
    ensures NamesInOrder(names) ==> NamesInOrder(names + [x])
  {
    if NamesInOrder(names) {
      var last := names[|names| - 1];
      forall i | 0 <= i < |names| ensures !TextLess(x, names[i]) {
        if TextLess(x, names[i]) {
          TextLessTotal(last, x);
          if i < |names| - 1 && TextLess(last, x) { TextLessTransitive(last, x, names[i]); }
        }
      }
    }
  }

  function SortNames(names: seq<string>): (r: seq<string>)
    ensures multiset(r) == multiset(names) && NamesInOrder(r)
  {
    if names == [] then []
    else
      assert names == names[..|names| - 1] + [names[|names| - 1]];
      InsertName(names[|names| - 1], SortNames(names[..|names| - 1]))
  }

  function Names(profiles: seq<Profile>): seq<string> {
    seq(|profiles|, i requires 0 <= i < |profiles| => profiles[i].name)
  }

  // ---------------------------------------------------------------- actions

  function Position(names: seq<string>, x: string): (r: Option<nat>)
    ensures r.None? <==> x !in names
    ensures r.Some? ==> r.value < |names| && names[r.value] == x && x !in names[..r.value]
  {
    if names == [] then None
    else if names[0] == x then Some(0)
    else
      var rest := Position(names[1..], x);
      if rest.None? then None
      else
        assert names[..rest.value + 1] == [names[0]] + names[1..][..rest.value];
        Some(rest.value + 1)
  }

  lemma {:induction false} PositionIs(names: seq<string>, x: string, i: nat)
    requires i < |names| && names[i] == x && x !in names[..i]
    ensures Position(names, x) == Some(i)
  {
    if i > 0 {
      assert names[..i][0] == names[0] && names[1..][..i - 1] == names[..i][1..];
      PositionIs(names[1..], x, i - 1);
    }
  }

  /** `(i + 1) % n` for an index below `n`. */
  function Next(i: nat, n: nat): (r: nat)
    requires i < n
    ensures r == (i + 1) % n < n
  {
    if i + 1 < n then i + 1 else 0
  }

  /** The profile after `active` in name order, wrapping round; an unknown one counts as the last. */
  function Cycled(profiles: seq<Profile>, active: Option<string>): Option<string> {
    if profiles == [] then active
    else
      var names := SortNames(Names(profiles));
      assert |names| == |multiset(names)| == |multiset(Names(profiles))| == |profiles|;
      if active.None? then Some(names[0])
      else
        var at := Position(names, active.value);
        var i := if at.Some? then at.value else |names| - 1;
        Some(names[Next(i, |names|)])
  }

  function ProfileAfter(profiles: seq<Profile>, active: Option<string>, action: string,
                        name: Option<string>): Option<string> {
    if action == "activate" then
      if name.Some? && name.value in Names(profiles) then name else active
    else if action == "deactivate" then
      if name.None? || active == name then None else active
    else if action == "cycle" then Cycled(profiles, active)
    else active
  }

  // ---------------------------------------------------------------- what cycling reaches

  function CycledTimes(profiles: seq<Profile>, active: Option<string>, k: nat): Option<string> {
    if k == 0 then active else Cycled(profiles, CycledTimes(profiles, active, k - 1))
  }

  ghost predicate DistinctNames(profiles: seq<Profile>) {
    forall i, j | 0 <= i < j < |profiles| :: profiles[i].name != profiles[j].name
  }

  lemma SortedLength(profiles: seq<Profile>)
    ensures |SortNames(Names(profiles))| == |profiles|
  {
    var names := SortNames(Names(profiles));
    assert |names| == |multiset(names)| == |multiset(Names(profiles))|;
  }

  /** In a sorted list equal names are neighbours. */
  lemma LaterNamesDiffer(names: seq<string>, i: nat, j: nat)
    requires NamesInOrder(names) && i + 1 < j < |names| && names[i] != names[i + 1]
    ensures names[i] != names[j]
  {
    TextLessTotal(names[i], names[i + 1]);
  }

  /** In a sorted list the first `x` is followed by something else exactly when it is the only one. */
  lemma {:induction false} NextDiffers(names: seq<string>, x: string)
    requires NamesInOrder(names) && x in names
    ensures names[Next(Position(names, x).value, |names|)] != x <==> |names| > 1 && multiset(names)[x] == 1
  {
    var i, n := Position(names, x).value, |names|;
    forall j | 0 <= j < i ensures names[j] != x { assert names[j] in names[..i]; }
    if i + 1 < n && names[i + 1] == x {
      CountTwice(names, i, i + 1);
    } else {
      forall j | i < j < n ensures names[j] != x {
        if j > i + 1 { LaterNamesDiffer(names, i, j); }
      }
      CountOnce(names, i);
    }
  }

  /** Cycling from a known profile moves to another one exactly when the name is unique and not alone:
      a name carried by two profiles traps the cycle. */
  lemma {:induction false} CyclingMoves(profiles: seq<Profile>, x: string)
    requires x in Names(profiles)
    ensures Cycled(profiles, Some(x)) != Some(x) <==> |profiles| > 1 && multiset(Names(profiles))[x] == 1
  {
    var names := SortNames(Names(profiles));
    SortedLength(profiles);
    assert x in multiset(names);
    NextDiffers(names, x);
  }

  lemma SortedDistinct(profiles: seq<Profile>, i: nat, j: nat)
    requires DistinctNames(profiles) && i < j < |profiles|
    ensures var names := SortNames(Names(profiles)); |names| == |profiles| && names[i] != names[j]
  {
    var ns, names := Names(profiles), SortNames(Names(profiles));
    SortedLength(profiles);
    if names[i] == names[j] {
      CountTwice(names, i, j);
      assert names[i] in multiset(ns);
      var k :| 0 <= k < |ns| && ns[k] == names[i];
      CountOnce(ns, k);
    }
  }

  lemma SortedPosition(profiles: seq<Profile>, i: nat)
    requires DistinctNames(profiles) && i < |profiles|
    ensures var names := SortNames(Names(profiles)); |names| == |profiles| && Position(names, names[i]) == Some(i)
  {
    var names := SortNames(Names(profiles));
    SortedLength(profiles);
    var p := Position(names, names[i]).value;
    if p < i { SortedDistinct(profiles, p, i); }
    if i < p { SortedDistinct(profiles, i, p); }
  }

  /** With distinct names, starting from no profile, the first `|profiles|` cycles visit the profiles in
      name order and the next one is back at the first. */
  lemma {:induction false} CyclingVisitsAll(profiles: seq<Profile>, k: nat)
    requires DistinctNames(profiles) && k <= |profiles| && profiles != []
    ensures var names := SortNames(Names(profiles));
      |names| == |profiles| && CycledTimes(profiles, None, k + 1) == Some(names[if k < |profiles| then k else 0])
  {
    SortedLength(profiles);
    if k == 0 {
      assert CycledTimes(profiles, None, 0) == None;
    } else {
      CyclingVisitsAll(profiles, k - 1);
      SortedPosition(profiles, k - 1);
    }
  }

  // ---------------------------------------------------------------- the other actions

  /** A profile is found by name exactly when one is loaded under it, and the first such is found. */
  lemma {:induction false} FindProfileIs(profiles: seq<Profile>, name: string)
    ensures var r := FindProfile(profiles, name);
      match r
      case None => forall i | 0 <= i < |profiles| :: profiles[i].name != name
      case Some(p) => exists i | 0 <= i < |profiles| ::
        profiles[i] == p && p.name == name && forall j | 0 <= j < i :: profiles[j].name != name
  {
    if profiles != [] {
      FindProfileIs(profiles[1..], name);
      if profiles[0].name != name && FindProfile(profiles[1..], name).Some? {
        var p := FindProfile(profiles[1..], name).value;
        var i :| 0 <= i < |profiles| - 1 && profiles[1..][i] == p
          && forall j | 0 <= j < i :: profiles[1..][j].name != name;
        assert profiles[i + 1] == p;
        forall j | 0 <= j < i + 1 ensures profiles[j].name != name {
          if j > 0 { assert profiles[1..][j - 1] == profiles[j]; }
        }
      }
    }
  }

  /** Activating switches to a loaded profile and to no other; deactivating by name touches only that profile,
      without a name any; an unknown action touches nothing. */
  lemma {:induction false} ActionsAre(profiles: seq<Profile>, active: Option<string>, name: string, action: string)
    ensures FindProfile(profiles, name).Some? ==> ProfileAfter(profiles, active, "activate", Some(name)) == Some(name)
    ensures FindProfile(profiles, name).None? ==> ProfileAfter(profiles, active, "activate", Some(name)) == active
    ensures ProfileAfter(profiles, active, "activate", None) == active
    ensures ProfileAfter(profiles, Some(name), "deactivate", Some(name)) == None
    ensures active != Some(name) ==> ProfileAfter(profiles, active, "deactivate", Some(name)) == active
    ensures ProfileAfter(profiles, active, "deactivate", None) == None
    ensures ProfileAfter(profiles, active, "cycle", None) == Cycled(profiles, active)
    ensures action !in {"activate", "deactivate", "cycle"} ==>
      ProfileAfter(profiles, active, action, Some(name)) == active
  {
    FindProfileIs(profiles, name);
    if name in Names(profiles) {
      var i :| 0 <= i < |profiles| && Names(profiles)[i] == name;
      assert profiles[i].name == name;
    }
    if FindProfile(profiles, name).Some? {
      var i :| 0 <= i < |profiles| && profiles[i].name == name;
      assert Names(profiles)[i] == name;
    }
  }

  /** Cycling from a profile that is not loaded starts over at the first name; without profiles it does
      nothing. */
  lemma {:induction false} CyclingStartsOver(profiles: seq<Profile>, active: Option<string>)
    ensures profiles == [] ==> Cycled(profiles, active) == active
    ensures profiles != [] && (active.None? || active.value !in Names(profiles)) ==>
      var first := Cycled(profiles, active);
      first.Some? && first.value in Names(profiles)
      && forall i | 0 <= i < |profiles| :: !TextLess(profiles[i].name, first.value)
  {
    if profiles != [] && (active.None? || active.value !in Names(profiles)) {
      var names := SortNames(Names(profiles));
      SortedLength(profiles);
      if active.Some? { assert active.value in multiset(names) <==> active.value in multiset(Names(profiles)); }
      assert names[0] in multiset(names);
      assert Cycled(profiles, active) == Some(names[0]);
      forall i | 0 <= i < |profiles| ensures !TextLess(profiles[i].name, names[0]) {
        assert Names(profiles)[i] in multiset(Names(profiles));
        assert Names(profiles)[i] in multiset(names);
        var k :| 0 <= k < |names| && names[k] == Names(profiles)[i];
        if k == 0 && TextLess(names[0], names[0]) { TextLessAsymmetric(names[0], names[0]); }
      }
    }
  }
}
