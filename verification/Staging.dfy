/**
 Unique names: the repair of staging conflicts in the first loop of `stage_files`, and
 `uniquename`. Both search for the first numbered name that is not taken.
 */
module Staging {
  import opened Values
  import opened Decimal
  import opened Strings

  /** The name with a number appended, as in `name_2`. */
  function Numbered(base: string, i: nat): string {
    base + "_" + NatText(i)
  }

  lemma NumberedName()
    ensures Numbered("name", 2) == "name_2" && Numbered("name", 10) == "name_10"
  {
    assert NatText(2) == "2" && NatText(10) == NatText(1) + "0" && NatText(1) == "1";
  }

  lemma NumberedInjective(base: string, i: nat, j: nat)
    requires Numbered(base, i) == Numbered(base, j)
    ensures i == j
  {
    var a, b := Numbered(base, i), Numbered(base, j);
    assert a[|base| + 1..] == NatText(i) && b[|base| + 1..] == NatText(j);
    NatTextInjective(i, j);
  }

  ghost predicate AllTaken(base: string, taken: set<string>, n: nat) {
    forall k: nat :: 2 <= k < n ==> Numbered(base, k) in taken
  }

  /** `name` is the first numbered name on `base` that is not taken. */
  ghost predicate IsFirstFree(base: string, taken: set<string>, name: string) {
    exists n: nat :: n >= 2 && name == Numbered(base, n) && name !in taken && AllTaken(base, taken, n)
  }

  lemma SubsetSize(a: set<string>, b: set<string>)
    requires a <= b
    ensures |a| <= |b|
  {
    assert b == a + (b - a);
  }

  /** Every tried name has a number below `i`. */
  ghost predicate NumberedBelow(base: string, tried: set<string>, i: nat) {
    forall t :: t in tried ==> exists k: nat :: 2 <= k < i && t == Numbered(base, k)
  }

  lemma NotYetTried(base: string, tried: set<string>, i: nat)
    requires NumberedBelow(base, tried, i) && i >= 2
    ensures Numbered(base, i) !in tried && NumberedBelow(base, tried + {Numbered(base, i)}, i + 1)
  {
    if Numbered(base, i) in tried {
      var k: nat :| 2 <= k < i && Numbered(base, i) == Numbered(base, k);
      NumberedInjective(base, i, k);
    }
  }

  /** The first free numbered name from 2 on; finitely many taken names cannot occupy them all. */
  method FirstFree(base: string, taken: set<string>) returns (name: string)
    ensures IsFirstFree(base, taken, name)
  {
    var i := 2;
    name := Numbered(base, i);
    ghost var tried: set<string> := {};
    while name in taken
      invariant i >= 2 && name == Numbered(base, i)
      invariant tried <= taken && |tried| == i - 2
      invariant NumberedBelow(base, tried, i)
      invariant AllTaken(base, taken, i)
      decreases |taken| - (i - 2)
    {
      NotYetTried(base, tried, i);
      tried := tried + {name};
      SubsetSize(tried, taken);
      i := i + 1;
      name := Numbered(base, i);
    }
  }

  /** The set of names handed out so far. */
  class NameRegistry {
    var names: set<string>

    constructor ()
      ensures names == {}
    {
      names := {};
    }

    /** `uniquename`: the stem itself if free, else the first free numbered stem; never a name given before. */
    method UniqueName(stem: string) returns (u: string)
      modifies this
      ensures u !in old(names) && names == old(names) + {u}
      ensures stem !in old(names) ==> u == stem
      ensures stem in old(names) ==> IsFirstFree(stem, old(names), u)
    {
      u := stem;
      if stem in names {
        u := FirstFree(stem, names);
      }
      names := names + {u};
    }
  }

  // ---------------------------------------------------------------- staging conflicts

  datatype EntryType =
    | Untyped | File | WritableFile | CreateFile | CreateWritableFile | Directory | WritableDirectory

  datatype MapperEnt = MapperEnt(resolved: string, target: string, typ: EntryType, staged: bool)

  predicate IsFile(e: MapperEnt) {
    e.typ.File? || e.typ.WritableFile? || e.typ.CreateFile? || e.typ.CreateWritableFile?
  }

  /** The names of the types; an entry without one has no name. */
  function TypeName(typ: EntryType): Option<string> {
    match typ
    case Untyped => None
    case File => Some("File")
    case WritableFile => Some("WritableFile")
    case CreateFile => Some("CreateFile")
    case CreateWritableFile => Some("CreateWritableFile")
    case Directory => Some("Directory")
    case WritableDirectory => Some("WritableDirectory")
  }

  predicate PartAt(s: string, part: string, i: nat) {
    i + |part| <= |s| && s[i..i + |part|] == part
  }

  ghost predicate Contains(s: string, part: string) {
    exists i: nat :: PartAt(s, part, i)
  }

  lemma FileAtEnd(name: string)
    requires |name| >= 4 && name[|name| - 4..] == "File"
    ensures Contains(name, "File")
  {
    assert PartAt(name, "File", |name| - 4);
  }

  /** The entries that the repair looks at are those with "File" in their type. */
  lemma FilesByName(e: MapperEnt)
    ensures IsFile(e) <==> TypeName(e.typ).Some? && Contains(TypeName(e.typ).value, "File")
  {
    if IsFile(e) {
      var name := TypeName(e.typ).value;
      FileAtEnd(name);
    } else if e.typ.Directory? || e.typ.WritableDirectory? {
      var name := TypeName(e.typ).value;
      forall i: nat | i + 4 <= |name| ensures !PartAt(name, "File", i) {
        assert name[i] != 'F' && name[i..i + 4][0] == name[i];
      }
    }
  }

  type PathMap = map<string, MapperEnt>

  type Claims = map<string, MapperEnt>

  ghost predicate AllMapped(keys: seq<string>, m: PathMap) {
    forall i :: 0 <= i < |keys| ==> keys[i] in m
  }

  /** Two files under one target come from one source. */
  ghost predicate ConflictFree(keys: seq<string>, m: PathMap)
    requires AllMapped(keys, m)
  {
    forall i, j :: 0 <= i < j < |keys| && IsFile(m[keys[i]]) && IsFile(m[keys[j]]) ==>
      m[keys[i]].target == m[keys[j]].target ==> m[keys[i]].resolved == m[keys[j]].resolved
  }

  // ---------------------------------------------------------------- what one entry does

  /** The entry is a file whose target is claimed by a file from another source. */
  predicate Conflicts(targets: Claims, e: MapperEnt) {
    IsFile(e) && e.target in targets && targets[e.target].resolved != e.resolved
  }

  /** Without a conflict the entry stays, and claims its target if that is free. */
  predicate Keeps(m: PathMap, key: string, targets: Claims, m': PathMap, targets': Claims)
    requires key in m
  {
    var e := m[key];
    m' == m && targets' == if IsFile(e) && e.target !in targets then targets[e.target := e] else targets
  }

  /** With a conflict it moves to the first free numbered target. */
  ghost predicate Moves(m: PathMap, key: string, targets: Claims, m': PathMap, targets': Claims, name: string)
    requires key in m
  {
    && IsFirstFree(m[key].target, targets.Keys, name)
    && var moved := m[key].(target := name); m' == m[key := moved] && targets' == targets[name := moved]
  }

  /** The effect of one entry when conflicts are repaired. */
  ghost predicate Repairs(m: PathMap, key: string, targets: Claims, m': PathMap, targets': Claims)
    requires key in m
  {
    if Conflicts(targets, m[key]) then exists name :: Moves(m, key, targets, m', targets', name)
    else Keeps(m, key, targets, m', targets')
  }

  // ---------------------------------------------------------------- the result of all entries

  /** An earlier file has target `t`. */
  ghost predicate Claimed(keys: seq<string>, i: nat, m: PathMap, t: string)
    requires i <= |keys| && AllMapped(keys, m)
  {
    exists j :: 0 <= j < i && IsFile(m[keys[j]]) && m[keys[j]].target == t
  }

  /** An earlier file from another source has the target of file `e`. */
  ghost predicate ClaimedByOther(keys: seq<string>, i: nat, m: PathMap, e: MapperEnt)
    requires i <= |keys| && AllMapped(keys, m)
  {
    IsFile(e) &&
    exists j :: 0 <= j < i && IsFile(m[keys[j]]) && m[keys[j]].target == e.target && m[keys[j]].resolved != e.resolved
  }

  /** `name` is the first numbered name on `base` that no earlier file has. */
  ghost predicate FirstUnclaimed(keys: seq<string>, i: nat, m: PathMap, base: string, name: string)
    requires i <= |keys| && AllMapped(keys, m)
  {
    exists n: nat ::
      && n >= 2 && name == Numbered(base, n) && !Claimed(keys, i, m, name)
      && forall k: nat :: 2 <= k < n ==> Claimed(keys, i, m, Numbered(base, k))
  }

  /**
   What becomes of entry `i`: it moves exactly if an earlier file from another source has its
   target, and then to the first numbered target that no earlier file has.
   */
  ghost predicate Repaired(keys: seq<string>, i: nat, before: PathMap, after: PathMap)
    requires i < |keys| && AllMapped(keys, before) && AllMapped(keys, after)
  {
    var e, e' := before[keys[i]], after[keys[i]];
    if ClaimedByOther(keys, i, after, e) then
      e' == e.(target := e'.target) && FirstUnclaimed(keys, i, after, e.target, e'.target)
    else e' == e
  }

  /** The claims after the first `i` entries: one for each target of a file, from its source. */
  ghost predicate ClaimsOf(keys: seq<string>, i: nat, m: PathMap, targets: Claims)
    requires i <= |keys| && AllMapped(keys, m)
  {
    && (forall t :: t in targets <==> Claimed(keys, i, m, t))
    && (forall j :: 0 <= j < i && IsFile(m[keys[j]]) ==>
          m[keys[j]].target in targets && targets[m[keys[j]].target].resolved == m[keys[j]].resolved)
  }

  lemma ConflictsExactly(keys: seq<string>, i: nat, m: PathMap, targets: Claims, e: MapperEnt)
    requires i <= |keys| && AllMapped(keys, m) && ClaimsOf(keys, i, m, targets)
    ensures Conflicts(targets, e) <==> ClaimedByOther(keys, i, m, e)
  {
    if Conflicts(targets, e) {
      assert Claimed(keys, i, m, e.target);
      var j :| 0 <= j < i && IsFile(m[keys[j]]) && m[keys[j]].target == e.target;
    }
  }

  /** The maps agree on the first `i` entries. */
  ghost predicate SameUpTo(keys: seq<string>, i: nat, m: PathMap, m': PathMap)
    requires i <= |keys| && AllMapped(keys, m) && AllMapped(keys, m')
  {
    forall j :: 0 <= j < i ==> m'[keys[j]] == m[keys[j]]
  }

  lemma SameClaims(keys: seq<string>, i: nat, m: PathMap, m': PathMap)
    requires i <= |keys| && AllMapped(keys, m) && AllMapped(keys, m') && SameUpTo(keys, i, m, m')
    ensures forall t :: Claimed(keys, i, m', t) <==> Claimed(keys, i, m, t)
    ensures forall e :: ClaimedByOther(keys, i, m', e) <==> ClaimedByOther(keys, i, m, e)
  {
    forall t ensures Claimed(keys, i, m', t) <==> Claimed(keys, i, m, t) {
      if Claimed(keys, i, m, t) { var j :| 0 <= j < i && IsFile(m[keys[j]]) && m[keys[j]].target == t; }
    }
    forall e ensures ClaimedByOther(keys, i, m', e) <==> ClaimedByOther(keys, i, m, e) {
      if ClaimedByOther(keys, i, m, e) {
        var j :| 0 <= j < i && IsFile(m[keys[j]]) && m[keys[j]].target == e.target && m[keys[j]].resolved != e.resolved;
        assert IsFile(m'[keys[j]]);
      }
    }
  }

  /** Later entries do not undo a repair. */
  lemma RepairStays(keys: seq<string>, i: nat, before: PathMap, m: PathMap, m': PathMap)
    requires i < |keys| && AllMapped(keys, before) && AllMapped(keys, m) && AllMapped(keys, m')
    requires SameUpTo(keys, i + 1, m, m') && Repaired(keys, i, before, m)
    ensures Repaired(keys, i, before, m')
  {
    SameClaims(keys, i, m, m');
    if ClaimedByOther(keys, i, m, before[keys[i]]) {
      var base, name := before[keys[i]].target, m[keys[i]].target;
      var n: nat :| n >= 2 && name == Numbered(base, n) && !Claimed(keys, i, m, name)
                    && forall k: nat :: 2 <= k < n ==> Claimed(keys, i, m, Numbered(base, k));
      assert !Claimed(keys, i, m', name);
    }
  }

  lemma FirstFreeUnclaimed(keys: seq<string>, i: nat, m: PathMap, targets: Claims, base: string, name: string)
    requires i <= |keys| && AllMapped(keys, m) && ClaimsOf(keys, i, m, targets)
    requires IsFirstFree(base, targets.Keys, name)
    ensures FirstUnclaimed(keys, i, m, base, name)
  {
    var n: nat :| n >= 2 && name == Numbered(base, n) && name !in targets.Keys && AllTaken(base, targets.Keys, n);
    assert !Claimed(keys, i, m, name);
  }

  lemma UnclaimedStays(keys: seq<string>, i: nat, m: PathMap, m': PathMap, base: string, name: string)
    requires i <= |keys| && AllMapped(keys, m) && AllMapped(keys, m') && SameUpTo(keys, i, m, m')
    requires FirstUnclaimed(keys, i, m, base, name)
    ensures FirstUnclaimed(keys, i, m', base, name)
  {
    SameClaims(keys, i, m, m');
    var n: nat :| n >= 2 && name == Numbered(base, n) && !Claimed(keys, i, m, name)
                  && forall k: nat :: 2 <= k < n ==> Claimed(keys, i, m, Numbered(base, k));
    assert !Claimed(keys, i, m', name);
  }

  /** Entry `i` repaired: it is as it should be, and the claims are those of one entry more. */
  lemma RepairStep(keys: seq<string>, i: nat, m: PathMap, targets: Claims, m': PathMap, targets': Claims)
    requires i < |keys| && AllMapped(keys, m) && AllMapped(keys, m') && ClaimsOf(keys, i, m, targets)
    requires Distinct(keys)
    requires Repairs(m, keys[i], targets, m', targets')
    ensures SameUpTo(keys, i, m, m') && Repaired(keys, i, m, m')
  {
    ConflictsExactly(keys, i, m, targets, m[keys[i]]);
    SameClaims(keys, i, m, m');
    if Conflicts(targets, m[keys[i]]) {
      var name :| Moves(m, keys[i], targets, m', targets', name);
      FirstFreeUnclaimed(keys, i, m, targets, m[keys[i]].target, name);
      UnclaimedStays(keys, i, m, m', m[keys[i]].target, name);
    }
  }

  lemma ClaimedStep(keys: seq<string>, i: nat, m: PathMap, t: string)
    requires i < |keys| && AllMapped(keys, m)
    ensures Claimed(keys, i + 1, m, t) <==> Claimed(keys, i, m, t) || (IsFile(m[keys[i]]) && m[keys[i]].target == t)
  {
    if Claimed(keys, i, m, t) { var j :| 0 <= j < i && IsFile(m[keys[j]]) && m[keys[j]].target == t; }
  }

  /** File `e` has its target among the claims, as a new one or as one from the same source. */
  ghost predicate Entered(targets: Claims, e: MapperEnt, targets': Claims) {
    if !IsFile(e) then targets' == targets
    else if e.target in targets then targets' == targets && targets[e.target].resolved == e.resolved
    else targets' == targets[e.target := e]
  }

  lemma RepairEnters(m: PathMap, key: string, targets: Claims, m': PathMap, targets': Claims)
    requires key in m && Repairs(m, key, targets, m', targets')
    ensures key in m' && Entered(targets, m'[key], targets')
  {}

  lemma EnteredClaims(keys: seq<string>, i: nat, m: PathMap, targets: Claims, targets': Claims)
    requires i < |keys| && AllMapped(keys, m) && ClaimsOf(keys, i, m, targets)
    requires Entered(targets, m[keys[i]], targets')
    ensures ClaimsOf(keys, i + 1, m, targets')
  {
    forall t ensures t in targets' <==> Claimed(keys, i + 1, m, t) { ClaimedStep(keys, i, m, t); }
  }

  lemma SameClaimsOf(keys: seq<string>, i: nat, m: PathMap, m': PathMap, targets: Claims)
    requires i <= |keys| && AllMapped(keys, m) && AllMapped(keys, m') && SameUpTo(keys, i, m, m')
    requires ClaimsOf(keys, i, m, targets)
    ensures ClaimsOf(keys, i, m', targets)
  {
    SameClaims(keys, i, m, m');
  }

  /** The entries up to `i` are repaired once entry `i` is. */
  lemma AllRepaired(keys: seq<string>, i: nat, before: PathMap, m: PathMap, m': PathMap)
    requires i < |keys| && AllMapped(keys, before) && AllMapped(keys, m) && AllMapped(keys, m')
    requires forall j :: 0 <= j < i ==> Repaired(keys, j, before, m)
    requires SameUpTo(keys, i, m, m') && Repaired(keys, i, m, m') && m[keys[i]] == before[keys[i]]
    ensures forall j :: 0 <= j <= i ==> Repaired(keys, j, before, m')
  {
    forall j | 0 <= j < i ensures Repaired(keys, j, before, m') { RepairStays(keys, j, before, m, m'); }
  }

  /** An entry that cannot claim its target conflicts with an earlier one. */
  lemma Refused(keys: seq<string>, i: nat, m: PathMap, targets: Claims)
    requires i < |keys| && AllMapped(keys, m) && ClaimsOf(keys, i, m, targets) && Conflicts(targets, m[keys[i]])
    ensures !ConflictFree(keys, m)
  {
    ConflictsExactly(keys, i, m, targets, m[keys[i]]);
    var j :| 0 <= j < i && IsFile(m[keys[j]]) && m[keys[j]].target == m[keys[i]].target
             && m[keys[j]].resolved != m[keys[i]].resolved;
  }

  /** The loop's invariant: the first `i` entries are repaired, their claims are known, and the rest is untouched. */
  ghost predicate UpTo(keys: seq<string>, i: nat, before: PathMap, m: PathMap, targets: Claims)
    requires i <= |keys| && AllMapped(keys, before)
  {
    && m.Keys == before.Keys && ClaimsOf(keys, i, m, targets)
    && (forall k :: k in m && k !in keys[..i] ==> m[k] == before[k])
    && (forall j :: 0 <= j < i ==> Repaired(keys, j, before, m))
  }

  lemma ClaimsStep(keys: seq<string>, i: nat, m: PathMap, targets: Claims, m': PathMap, targets': Claims)
    requires i < |keys| && AllMapped(keys, m) && AllMapped(keys, m') && ClaimsOf(keys, i, m, targets)
    requires SameUpTo(keys, i, m, m') && Repairs(m, keys[i], targets, m', targets')
    ensures ClaimsOf(keys, i + 1, m', targets')
  {
    SameClaimsOf(keys, i, m, m', targets);
    RepairEnters(m, keys[i], targets, m', targets');
    EnteredClaims(keys, i, m', targets, targets');
  }

  /** One entry changes no other. */
  lemma OthersStay(keys: seq<string>, i: nat, m: PathMap, targets: Claims, m': PathMap, targets': Claims)
    requires i < |keys| && AllMapped(keys, m) && Repairs(m, keys[i], targets, m', targets')
    ensures m'.Keys == m.Keys && forall k :: k in m && k !in keys[..i + 1] ==> m'[k] == m[k]
  {
    assert keys[..i + 1] == keys[..i] + [keys[i]];
  }

  lemma NotYet(keys: seq<string>, i: nat)
    requires i < |keys| && Distinct(keys)
    ensures keys[i] !in keys[..i] && keys[..i + 1] == keys[..i] + [keys[i]]
  {}

  lemma UpToStep(keys: seq<string>, i: nat, before: PathMap, m: PathMap, targets: Claims, m': PathMap, targets': Claims)
    requires i < |keys| && AllMapped(keys, before) && UpTo(keys, i, before, m, targets)
    requires Distinct(keys)
    requires Repairs(m, keys[i], targets, m', targets')
    ensures UpTo(keys, i + 1, before, m', targets')
  {
    OthersStay(keys, i, m, targets, m', targets');
    RepairStep(keys, i, m, targets, m', targets');
    ClaimsStep(keys, i, m, targets, m', targets');
    NotYet(keys, i);
    AllRepaired(keys, i, before, m, m');
  }

  /** Claims hold one source per target, so the entries that made them do not conflict. */
  lemma AllUpTo(keys: seq<string>, before: PathMap, m: PathMap, targets: Claims)
    requires AllMapped(keys, before) && UpTo(keys, |keys|, before, m, targets)
    ensures ConflictFree(keys, m) && forall k :: k in m && k !in keys ==> m[k] == before[k]
  {
    assert keys[..|keys|] == keys;
  }

  class PathMapper {
    var pathmap: PathMap

    constructor (pathmap: PathMap)
      ensures this.pathmap == pathmap
    {
      this.pathmap := pathmap;
    }

    /** One entry: claim a free target, share it with the same source, move, or refuse. */
    method ClaimTarget(key: string, targets: Claims, fixConflicts: bool) returns (targets': Claims, ok: bool)
      requires key in pathmap
      modifies this
      ensures ok <==> fixConflicts || !Conflicts(targets, old(pathmap)[key])
      ensures ok ==> Repairs(old(pathmap), key, targets, pathmap, targets')
      ensures !ok ==> pathmap == old(pathmap) && targets' == targets
    {
      var entry := pathmap[key];
      targets', ok := targets, true;
      if !IsFile(entry) { return; }
      if entry.target !in targets {
        targets' := targets[entry.target := entry];
      } else if targets[entry.target].resolved != entry.resolved {
        if !fixConflicts { return targets, false; }
        var tgt := FirstFree(entry.target, targets.Keys);
        var moved := entry.(target := tgt);
        pathmap := pathmap[key := moved];
        targets' := targets[tgt := moved];
        assert Moves(old(pathmap), key, targets, pathmap, targets', tgt);
      }
    }

    /**
     The first loop of `stage_files`. With `fixConflicts` it always succeeds: an entry moves
     exactly if an earlier file from another source has its target, to the first free numbered
     name, and no conflict is left. Without, it refuses exactly the maps that have a conflict.
     */
    method RepairConflicts(keys: seq<string>, fixConflicts: bool) returns (ok: bool)
      requires AllMapped(keys, pathmap) && Distinct(keys)
      modifies this
      ensures pathmap.Keys == old(pathmap).Keys
      ensures ok <==> fixConflicts || ConflictFree(keys, old(pathmap))
      ensures forall k :: k in pathmap && k !in keys ==> pathmap[k] == old(pathmap)[k]
      ensures ok ==> ConflictFree(keys, pathmap)
      ensures ok ==> forall i :: 0 <= i < |keys| ==> Repaired(keys, i, old(pathmap), pathmap)
      ensures !fixConflicts ==> pathmap == old(pathmap)
    {
      var targets: Claims := map[];
      ghost var before := pathmap;
      for i := 0 to |keys|
        invariant UpTo(keys, i, before, pathmap, targets)
        invariant !fixConflicts ==> pathmap == before
      {
        ghost var m, claims := pathmap, targets;
        targets, ok := ClaimTarget(keys[i], targets, fixConflicts);
        if !ok {
          Refused(keys, i, before, claims);
          return;
        }
        UpToStep(keys, i, before, m, claims, pathmap, targets);
      }
      AllUpTo(keys, before, pathmap, targets);
      ok := true;
    }
  }
}
