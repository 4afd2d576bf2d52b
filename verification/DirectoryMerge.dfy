/**
 Directory trees of referenced files (`nestdir` and `mergedirs`): each file is wrapped in the
 directories of its relative path, and the resulting chains are merged level by level.
 */
module DirectoryMerge {
  import opened Strings

  /** A File object, or a Directory object without or with a listing. */
  datatype Entry =
    | File(basename: string, location: string)
    | BareDir(basename: string, location: string)
    | Dir(basename: string, location: string, listing: seq<Entry>)

  // ---------------------------------------------------------------- what a listing contains

  /** `e` has a node of the given kind and location at `path`. */
  ghost predicate NodeOf(e: Entry, path: seq<string>, isDir: bool, loc: string)
    decreases |path|, 0
  {
    && path != [] && e.basename == path[0]
    && if |path| == 1 then !e.File? == isDir && e.location == loc
       else e.Dir? && Node(e.listing, path[1..], isDir, loc)
  }

  ghost predicate Node(listing: seq<Entry>, path: seq<string>, isDir: bool, loc: string)
    decreases |path|, 1
  {
    exists i :: 0 <= i < |listing| && NodeOf(listing[i], path, isDir, loc)
  }

  /** No path is both a file and a directory. */
  ghost predicate KindsAgree(listing: seq<Entry>) {
    forall path, loc, loc' :: !(Node(listing, path, true, loc) && Node(listing, path, false, loc'))
  }

  /** Every path has one location. */
  ghost predicate LocationsAgree(listing: seq<Entry>) {
    forall path, k, loc, k', loc' :: Node(listing, path, k, loc) && Node(listing, path, k', loc') ==> loc == loc'
  }

  /** The same nodes at the same paths. */
  ghost predicate SameNodes(a: seq<Entry>, b: seq<Entry>) {
    forall path, k, loc :: Node(a, path, k, loc) <==> Node(b, path, k, loc)
  }

  ghost predicate DistinctNames(listing: seq<Entry>) {
    forall i, j :: 0 <= i < j < |listing| ==> listing[i].basename != listing[j].basename
  }

  /** Basenames are unique at every level. */
  ghost predicate UniqueNames(listing: seq<Entry>) {
    DistinctNames(listing) && forall i :: 0 <= i < |listing| ==> UniqueBelow(listing[i])
  }

  ghost predicate UniqueBelow(e: Entry) {
    e.Dir? ==> UniqueNames(e.listing)
  }

  /** Levels of nesting; merging never adds one. */
  function Depth(listing: seq<Entry>): nat {
    if listing == [] then 0
    else
      var d, rest := DepthOf(listing[0]), Depth(listing[1..]);
      if d > rest then d else rest
  }

  function DepthOf(e: Entry): nat {
    if e.Dir? then 1 + Depth(e.listing) else 0
  }

  lemma {:induction false} DepthBound(listing: seq<Entry>, n: nat)
    ensures Depth(listing) <= n <==> forall i :: 0 <= i < |listing| ==> DepthOf(listing[i]) <= n
    decreases |listing|
  {
    if listing != [] {
      DepthBound(listing[1..], n);
      assert forall i :: 1 <= i < |listing| ==> listing[1..][i - 1] == listing[i];
    }
  }

  lemma NodeConcat(a: seq<Entry>, b: seq<Entry>)
    ensures forall path, k, loc :: Node(a + b, path, k, loc) <==> Node(a, path, k, loc) || Node(b, path, k, loc)
  {
    forall path, k, loc ensures Node(a + b, path, k, loc) <==> Node(a, path, k, loc) || Node(b, path, k, loc) {
      if Node(a, path, k, loc) {
        var i :| 0 <= i < |a| && NodeOf(a[i], path, k, loc);
        assert (a + b)[i] == a[i];
      }
      if Node(b, path, k, loc) {
        var i :| 0 <= i < |b| && NodeOf(b[i], path, k, loc);
        assert (a + b)[|a| + i] == b[i];
      }
    }
  }

  // ---------------------------------------------------------------- one level of the merge

  datatype Merged = Ok(listing: seq<Entry>) | Conflict

  /** Where the name stands among the entries, or their number. */
  method Find(ents: seq<Entry>, basename: string) returns (j: nat)
    ensures j <= |ents| && (j < |ents| ==> ents[j].basename == basename)
    ensures j == |ents| ==> forall i :: 0 <= i < |ents| ==> ents[i].basename != basename
  {
    j := 0;
    while j < |ents| && ents[j].basename != basename
      invariant j <= |ents| && forall i :: 0 <= i < j ==> ents[i].basename != basename
    {
      j := j + 1;
    }
  }

  /** A later entry of the same name and location brings its listing into the first one. */
  function Absorb(first: Entry, e: Entry): Entry {
    if !e.Dir? || first.File? then first
    else Dir(first.basename, first.location, (if first.Dir? then first.listing else []) + e.listing)
  }

  lemma AbsorbNodes(first: Entry, e: Entry)
    requires first.basename == e.basename && first.location == e.location && first.File? == e.File?
    ensures forall path, k, loc ::
              NodeOf(Absorb(first, e), path, k, loc) <==> NodeOf(first, path, k, loc) || NodeOf(e, path, k, loc)
  {
    if e.Dir? { NodeConcat(if first.Dir? then first.listing else [], e.listing); }
  }

  lemma ReplaceNodes(ents: seq<Entry>, j: nat, e: Entry, e': Entry)
    requires j < |ents|
    requires forall path, k, loc ::
               NodeOf(e', path, k, loc) <==> NodeOf(ents[j], path, k, loc) || NodeOf(e, path, k, loc)
    ensures forall path, k, loc ::
              Node(ents[j := e'], path, k, loc) <==> Node(ents, path, k, loc) || NodeOf(e, path, k, loc)
  {
    var ents' := ents[j := e'];
    forall path, k, loc ensures Node(ents', path, k, loc) <==> Node(ents, path, k, loc) || NodeOf(e, path, k, loc) {
      if Node(ents, path, k, loc) {
        var i :| 0 <= i < |ents| && NodeOf(ents[i], path, k, loc);
        assert NodeOf(ents'[i], path, k, loc);
      }
      if NodeOf(e, path, k, loc) { assert NodeOf(ents'[j], path, k, loc); }
      if Node(ents', path, k, loc) {
        var i :| 0 <= i < |ents'| && NodeOf(ents'[i], path, k, loc);
        assert i != j ==> NodeOf(ents[i], path, k, loc);
      }
    }
  }

  /** The node that an entry itself is. */
  lemma OwnNode(listing: seq<Entry>, i: nat)
    requires i < |listing|
    ensures Node(listing, [listing[i].basename], !listing[i].File?, listing[i].location)
  {
    assert NodeOf(listing[i], [listing[i].basename], !listing[i].File?, listing[i].location);
  }

  /** Two entries of one name are two nodes of one path. */
  lemma PrefixNode(listing: seq<Entry>, i: nat, ents: seq<Entry>, j: nat)
    requires i < |listing| && j < |ents| && ents[j].basename == listing[i].basename && SameNodes(ents, listing[..i])
    ensures Node(listing, [listing[i].basename], !ents[j].File?, ents[j].location)
  {
    OwnNode(ents, j);
    var path := [listing[i].basename];
    assert Node(listing[..i], path, !ents[j].File?, ents[j].location);
    assert listing == listing[..i] + listing[i..];
    NodeConcat(listing[..i], listing[i..]);
  }

  lemma SameKind(listing: seq<Entry>, i: nat, ents: seq<Entry>, j: nat)
    requires i < |listing| && j < |ents| && ents[j].basename == listing[i].basename && SameNodes(ents, listing[..i])
    requires KindsAgree(listing)
    ensures ents[j].File? == listing[i].File?
  {
    OwnNode(listing, i);
    PrefixNode(listing, i, ents, j);
  }

  lemma SingleNode(e: Entry)
    ensures forall path, k, loc :: Node([e], path, k, loc) <==> NodeOf(e, path, k, loc)
  {
    forall path, k, loc ensures Node([e], path, k, loc) <==> NodeOf(e, path, k, loc) {
      if NodeOf(e, path, k, loc) { assert NodeOf([e][0], path, k, loc); }
    }
  }

  lemma TwoLocations(listing: seq<Entry>, i: nat, ents: seq<Entry>, j: nat)
    requires i < |listing| && j < |ents| && ents[j].basename == listing[i].basename && SameNodes(ents, listing[..i])
    requires ents[j].location != listing[i].location
    ensures !LocationsAgree(listing)
  {
    OwnNode(listing, i);
    PrefixNode(listing, i, ents, j);
  }

  lemma AbsorbDepth(first: Entry, e: Entry, n: nat)
    requires DepthOf(first) <= n && DepthOf(e) <= n
    ensures DepthOf(Absorb(first, e)) <= n
  {
    if e.Dir? && !first.File? {
      var a, b := if first.Dir? then first.listing else [], e.listing;
      DepthBound(a, n - 1);
      DepthBound(b, n - 1);
      DepthBound(a + b, n - 1);
    }
  }

  // ---------------------------------------------------------------- what the pooled entries are

  /** The listings of the directories called `name`, one after the other. */
  ghost function Together(listing: seq<Entry>, name: string): seq<Entry> {
    if listing == [] then []
    else
      var last := listing[|listing| - 1];
      Together(listing[..|listing| - 1], name) + if last.Dir? && last.basename == name then last.listing else []
  }

  ghost predicate SomeListing(listing: seq<Entry>, name: string) {
    exists i :: 0 <= i < |listing| && listing[i].Dir? && listing[i].basename == name
  }

  /** The first entry of its name. */
  ghost predicate FirstOfName(listing: seq<Entry>, i: nat) {
    i < |listing| && forall j :: 0 <= j < i ==> listing[j].basename != listing[i].basename
  }

  /** Where the names stand first, in order. */
  ghost function Firsts(listing: seq<Entry>): (f: seq<nat>)
    ensures forall a :: 0 <= a < |f| ==> f[a] < |listing|
  {
    if listing == [] then []
    else
      var last := |listing| - 1;
      Firsts(listing[..last]) + if FirstOfName(listing, last) then [last] else []
  }

  /** A directory has the listings of all directories of its name; anything else is as it stands first. */
  ghost function PooledEntry(listing: seq<Entry>, i: nat): Entry
    requires i < |listing|
  {
    var e := listing[i];
    if e.File? || !SomeListing(listing, e.basename) then e
    else Dir(e.basename, e.location, Together(listing, e.basename))
  }

  ghost predicate PoolRule(listing: seq<Entry>, ents: seq<Entry>) {
    |ents| == |Firsts(listing)| && forall a :: 0 <= a < |ents| ==> ents[a] == PooledEntry(listing, Firsts(listing)[a])
  }

  /** One name with two locations. */
  ghost predicate TwoPlaces(listing: seq<Entry>) {
    exists i, j :: 0 <= i < j < |listing| && listing[i].basename == listing[j].basename
                   && listing[i].location != listing[j].location
  }

  /** One of the first entries has that name. */
  ghost predicate Listed(listing: seq<Entry>, firsts: seq<nat>, name: string) {
    exists a :: 0 <= a < |firsts| && firsts[a] < |listing| && listing[firsts[a]].basename == name
  }

  lemma ListedLonger(listing: seq<Entry>, firsts: seq<nat>, name: string, e: Entry, more: seq<nat>)
    requires Listed(listing, firsts, name)
    ensures Listed(listing + [e], firsts + more, name)
  {
    var a :| 0 <= a < |firsts| && firsts[a] < |listing| && listing[firsts[a]].basename == name;
    assert (firsts + more)[a] == firsts[a] && (listing + [e])[firsts[a]] == listing[firsts[a]];
  }

  lemma {:induction false} FirstsAreFirst(listing: seq<Entry>)
    ensures forall a :: 0 <= a < |Firsts(listing)| ==> FirstOfName(listing, Firsts(listing)[a])
  {
    if listing != [] {
      var before := listing[..|listing| - 1];
      FirstsAreFirst(before);
      forall a | 0 <= a < |Firsts(listing)| ensures FirstOfName(listing, Firsts(listing)[a]) {
        if a < |Firsts(before)| { assert FirstOfName(before, Firsts(before)[a]); }
      }
    }
  }

  lemma ListedBefore(listing: seq<Entry>, i: nat)
    requires i < |listing| - 1
    requires var before := listing[..|listing| - 1]; Listed(before, Firsts(before), before[i].basename)
    ensures Listed(listing, Firsts(listing), listing[i].basename)
  {
    var last := |listing| - 1;
    var more: seq<nat> := if FirstOfName(listing, last) then [last] else [];
    assert listing == listing[..last] + [listing[last]];
    ListedLonger(listing[..last], Firsts(listing[..last]), listing[i].basename, listing[last], more);
  }

  lemma LastListed(listing: seq<Entry>)
    requires listing != []
    requires var before := listing[..|listing| - 1];
             forall i :: 0 <= i < |before| ==> Listed(before, Firsts(before), before[i].basename)
    ensures Listed(listing, Firsts(listing), listing[|listing| - 1].basename)
  {
    var last := |listing| - 1;
    if FirstOfName(listing, last) {
      assert Firsts(listing)[|Firsts(listing[..last])|] == last;
    } else {
      var j :| 0 <= j < last && listing[j].basename == listing[last].basename;
      ListedBefore(listing, j);
    }
  }

  lemma {:induction false} AllListed(listing: seq<Entry>)
    ensures forall i :: 0 <= i < |listing| ==> Listed(listing, Firsts(listing), listing[i].basename)
  {
    if listing != [] {
      var last := |listing| - 1;
      AllListed(listing[..last]);
      forall i | 0 <= i < |listing| ensures Listed(listing, Firsts(listing), listing[i].basename) {
        if i < last { ListedBefore(listing, i); } else { LastListed(listing); }
      }
    }
  }

  lemma PooledOther(listing: seq<Entry>, e: Entry, i: nat)
    requires i < |listing| && (listing[i].basename != e.basename || !e.Dir?)
    ensures PooledEntry(listing + [e], i) == PooledEntry(listing, i)
  {
    var longer, name := listing + [e], listing[i].basename;
    assert longer[..|listing|] == listing && longer[i] == listing[i];
    if SomeListing(listing, name) {
      var j :| 0 <= j < |listing| && listing[j].Dir? && listing[j].basename == name;
      assert longer[j] == listing[j];
    }
  }

  lemma PooledSame(listing: seq<Entry>, e: Entry, i: nat)
    requires i < |listing| && listing[i].basename == e.basename && e.Dir?
    requires !SomeListing(listing, e.basename) ==> Together(listing, e.basename) == []
    ensures PooledEntry(listing + [e], i) == Absorb(PooledEntry(listing, i), e)
  {
    var longer := listing + [e];
    assert longer[..|listing|] == listing && longer[i] == listing[i] && longer[|listing|] == e;
  }

  lemma {:induction false} NoListings(listing: seq<Entry>, name: string)
    ensures !SomeListing(listing, name) ==> Together(listing, name) == []
  {
    if listing != [] {
      var before := listing[..|listing| - 1];
      NoListings(before, name);
      if SomeListing(before, name) {
        var j :| 0 <= j < |before| && before[j].Dir? && before[j].basename == name;
        assert listing[j] == before[j];
      }
    }
  }

  lemma PooledAlone(listing: seq<Entry>, e: Entry)
    requires forall i :: 0 <= i < |listing| ==> listing[i].basename != e.basename
    ensures PooledEntry(listing + [e], |listing|) == e
  {
    var longer := listing + [e];
    assert longer[..|listing|] == listing && longer[|listing|] == e;
    NoListings(listing, e.basename);
    assert !SomeListing(listing, e.basename);
    if e.Dir? { assert Together(longer, e.basename) == e.listing; }
    if e.BareDir? {
      forall i | 0 <= i < |longer| ensures !(longer[i].Dir? && longer[i].basename == e.basename) {
        assert i < |listing| ==> longer[i] == listing[i];
      }
    }
  }

  /** No entry has a name that no pooled entry has. */
  lemma NewName(listing: seq<Entry>, ents: seq<Entry>, name: string)
    requires PoolRule(listing, ents) && forall i :: 0 <= i < |ents| ==> ents[i].basename != name
    ensures forall i :: 0 <= i < |listing| ==> listing[i].basename != name
  {
    AllListed(listing);
    forall i | 0 <= i < |listing| ensures listing[i].basename != name {
      var a :| 0 <= a < |Firsts(listing)| && listing[Firsts(listing)[a]].basename == listing[i].basename;
      assert ents[a] == PooledEntry(listing, Firsts(listing)[a]);
    }
  }

  lemma FirstsOfNew(listing: seq<Entry>, e: Entry)
    requires forall i :: 0 <= i < |listing| ==> listing[i].basename != e.basename
    ensures Firsts(listing + [e]) == Firsts(listing) + [|listing|]
  {
    var longer := listing + [e];
    assert longer[..|longer| - 1] == listing;
    assert FirstOfName(longer, |listing|);
  }

  lemma FirstsOfKnown(listing: seq<Entry>, e: Entry, i: nat)
    requires i < |listing| && listing[i].basename == e.basename
    ensures Firsts(listing + [e]) == Firsts(listing)
  {
    var longer := listing + [e];
    assert longer[..|longer| - 1] == listing;
    assert longer[i] == listing[i] && !FirstOfName(longer, |listing|);
  }

  /** A new name is pooled by itself, behind the others. */
  lemma PoolNew(listing: seq<Entry>, ents: seq<Entry>, e: Entry)
    requires PoolRule(listing, ents) && forall i :: 0 <= i < |ents| ==> ents[i].basename != e.basename
    ensures PoolRule(listing + [e], ents + [e])
  {
    NewName(listing, ents, e.basename);
    FirstsOfNew(listing, e);
    PooledAlone(listing, e);
    forall a | 0 <= a < |ents| ensures PooledEntry(listing + [e], Firsts(listing)[a]) == ents[a] {
      PooledOther(listing, e, Firsts(listing)[a]);
    }
  }

  lemma SameFirst(listing: seq<Entry>, ents: seq<Entry>, e: Entry, a: nat, j: nat)
    requires PoolRule(listing, ents) && a < |ents| && j < |ents| && DistinctNames(ents)
    requires ents[j].basename == e.basename
    ensures PooledEntry(listing + [e], Firsts(listing)[a]) == if a == j then Absorb(ents[j], e) else ents[a]
  {
    assert ents[a] == PooledEntry(listing, Firsts(listing)[a]);
    NoListings(listing, e.basename);
    if e.Dir? && a == j {
      PooledSame(listing, e, Firsts(listing)[a]);
    } else {
      PooledOther(listing, e, Firsts(listing)[a]);
    }
  }

  /** A known name adds its listing to the pooled one. */
  lemma PoolKnown(listing: seq<Entry>, ents: seq<Entry>, e: Entry, j: nat)
    requires PoolRule(listing, ents) && j < |ents| && ents[j].basename == e.basename && DistinctNames(ents)
    ensures PoolRule(listing + [e], ents[j := Absorb(ents[j], e)])
  {
    assert ents[j] == PooledEntry(listing, Firsts(listing)[j]);
    FirstsOfKnown(listing, e, Firsts(listing)[j]);
    forall a | 0 <= a < |ents|
      ensures PooledEntry(listing + [e], Firsts(listing)[a]) == ents[j := Absorb(ents[j], e)][a]
    {
      SameFirst(listing, ents, e, a, j);
    }
  }

  lemma EarlierPlaces(listing: seq<Entry>, e: Entry, a: nat, b: nat)
    requires a < b < |listing|
    requires (listing + [e])[a].basename == (listing + [e])[b].basename
    requires (listing + [e])[a].location != (listing + [e])[b].location
    ensures TwoPlaces(listing)
  {
    assert listing[a] == (listing + [e])[a] && listing[b] == (listing + [e])[b];
  }

  /** Two locations are two earlier entries, or the last entry and an earlier one of its name. */
  lemma LastPlace(listing: seq<Entry>, e: Entry)
    requires TwoPlaces(listing + [e])
    ensures TwoPlaces(listing) || exists a ::
              0 <= a < |listing| && listing[a].basename == e.basename && listing[a].location != e.location
  {
    var longer := listing + [e];
    var a, b :| 0 <= a < b < |longer| && longer[a].basename == longer[b].basename
                && longer[a].location != longer[b].location;
    assert listing[a] == longer[a];
    if b < |listing| { EarlierPlaces(listing, e, a, b); }
  }

  lemma OnePlace(listing: seq<Entry>, a: nat, b: nat)
    requires !TwoPlaces(listing) && a < |listing| && b < |listing| && listing[a].basename == listing[b].basename
    ensures listing[a].location == listing[b].location
  {
    if a > b { assert listing[b].location == listing[a].location; }
  }

  lemma PlacesNew(listing: seq<Entry>, ents: seq<Entry>, e: Entry)
    requires PoolRule(listing, ents) && !TwoPlaces(listing)
    requires forall i :: 0 <= i < |ents| ==> ents[i].basename != e.basename
    ensures !TwoPlaces(listing + [e])
  {
    NewName(listing, ents, e.basename);
    if TwoPlaces(listing + [e]) { LastPlace(listing, e); }
  }

  /** Two locations show against the entry of the same name that is pooled already. */
  lemma PlacesKnown(listing: seq<Entry>, ents: seq<Entry>, e: Entry, j: nat)
    requires PoolRule(listing, ents) && j < |ents| && ents[j].basename == e.basename && !TwoPlaces(listing)
    ensures TwoPlaces(listing + [e]) <==> ents[j].location != e.location
  {
    var longer, f := listing + [e], Firsts(listing)[j];
    assert ents[j] == PooledEntry(listing, f);
    if TwoPlaces(longer) {
      LastPlace(listing, e);
      var a :| 0 <= a < |listing| && listing[a].basename == e.basename && listing[a].location != e.location;
      OnePlace(listing, a, f);
    }
    if ents[j].location != e.location { assert longer[f] == listing[f] && longer[|listing|] == e; }
  }

  lemma PlacesStay(listing: seq<Entry>, i: nat)
    requires i <= |listing| && TwoPlaces(listing[..i])
    ensures TwoPlaces(listing)
  {
    var a, b :| 0 <= a < b < i && listing[..i][a].basename == listing[..i][b].basename
                && listing[..i][a].location != listing[..i][b].location;
    assert listing[a] == listing[..i][a] && listing[b] == listing[..i][b];
  }

  /** What the first loop of `mergedirs` has made of the first `i` entries. */
  ghost predicate PooledSoFar(listing: seq<Entry>, i: nat, ents: seq<Entry>)
    requires i <= |listing|
  {
    && DistinctNames(ents) && PoolRule(listing[..i], ents) && !TwoPlaces(listing[..i])
    && (KindsAgree(listing) ==> SameNodes(ents, listing[..i]))
    && forall j :: 0 <= j < |ents| ==> DepthOf(ents[j]) <= Depth(listing)
  }

  lemma NextEntry(listing: seq<Entry>, i: nat)
    requires i < |listing|
    ensures listing[..i + 1] == listing[..i] + [listing[i]] && DepthOf(listing[i]) <= Depth(listing)
  {
    DepthBound(listing, Depth(listing));
  }

  lemma PoolsNew(listing: seq<Entry>, i: nat, ents: seq<Entry>)
    requires i < |listing| && PooledSoFar(listing, i, ents)
    requires forall j :: 0 <= j < |ents| ==> ents[j].basename != listing[i].basename
    ensures PooledSoFar(listing, i + 1, ents + [listing[i]])
  {
    var e := listing[i];
    NextEntry(listing, i);
    PoolNew(listing[..i], ents, e);
    PlacesNew(listing[..i], ents, e);
    NodeConcat(ents, [e]);
    NodeConcat(listing[..i], [e]);
  }

  lemma KnownNodes(listing: seq<Entry>, i: nat, ents: seq<Entry>, j: nat)
    requires i < |listing| && j < |ents| && KindsAgree(listing) && SameNodes(ents, listing[..i])
    requires ents[j].basename == listing[i].basename && ents[j].location == listing[i].location
    ensures SameNodes(ents[j := Absorb(ents[j], listing[i])], listing[..i + 1])
  {
    var e := listing[i];
    NextEntry(listing, i);
    SameKind(listing, i, ents, j);
    AbsorbNodes(ents[j], e);
    ReplaceNodes(ents, j, e, Absorb(ents[j], e));
    NodeConcat(listing[..i], [e]);
    SingleNode(e);
  }

  lemma PoolsKnown(listing: seq<Entry>, i: nat, ents: seq<Entry>, j: nat)
    requires i < |listing| && PooledSoFar(listing, i, ents) && j < |ents|
    requires ents[j].basename == listing[i].basename && ents[j].location == listing[i].location
    ensures PooledSoFar(listing, i + 1, ents[j := Absorb(ents[j], listing[i])])
  {
    var e := listing[i];
    NextEntry(listing, i);
    PoolKnown(listing[..i], ents, e, j);
    PlacesKnown(listing[..i], ents, e, j);
    AbsorbDepth(ents[j], e, Depth(listing));
    if KindsAgree(listing) { KnownNodes(listing, i, ents, j); }
  }

  lemma PoolsClash(listing: seq<Entry>, i: nat, ents: seq<Entry>, j: nat)
    requires i < |listing| && PooledSoFar(listing, i, ents) && j < |ents|
    requires ents[j].basename == listing[i].basename && ents[j].location != listing[i].location
    ensures TwoPlaces(listing) && (KindsAgree(listing) ==> !LocationsAgree(listing))
  {
    NextEntry(listing, i);
    PlacesKnown(listing[..i], ents, listing[i], j);
    PlacesStay(listing, i + 1);
    if KindsAgree(listing) { TwoLocations(listing, i, ents, j); }
  }

  /** The first loop of `mergedirs`: pools the listings of equal names, or finds two locations for one name. */
  method Pool(listing: seq<Entry>) returns (r: Merged)
    ensures r.Ok? ==> DistinctNames(r.listing) && Depth(r.listing) <= Depth(listing)
    ensures r.Ok? && KindsAgree(listing) ==> SameNodes(r.listing, listing)
    ensures r.Conflict? && KindsAgree(listing) ==> !LocationsAgree(listing)
    ensures r.Conflict? <==> TwoPlaces(listing)
    ensures r.Ok? ==> PoolRule(listing, r.listing)
  {
    var ents := [];
    for i := 0 to |listing|
      invariant PooledSoFar(listing, i, ents)
    {
      var e := listing[i];
      var j := Find(ents, e.basename);
      if j == |ents| {
        PoolsNew(listing, i, ents);
        ents := ents + [e];
      } else if e.location != ents[j].location {
        PoolsClash(listing, i, ents, j);
        return Conflict;
      } else {
        PoolsKnown(listing, i, ents, j);
        ents := ents[j := Absorb(ents[j], e)];
      }
    }
    assert listing[..|listing|] == listing;
    DepthBound(ents, Depth(listing));
    r := Ok(ents);
  }

  // ---------------------------------------------------------------- all levels

  lemma BelowNode(ents: seq<Entry>, i: nat, path: seq<string>, k: bool, loc: string)
    requires i < |ents| && ents[i].Dir? && Node(ents[i].listing, path, k, loc)
    ensures Node(ents, [ents[i].basename] + path, k, loc)
  {
    var longer := [ents[i].basename] + path;
    assert longer[1..] == path;
    assert path != [];
    assert NodeOf(ents[i], longer, k, loc);
  }

  lemma SubKinds(ents: seq<Entry>, i: nat)
    requires KindsAgree(ents) && i < |ents| && ents[i].Dir?
    ensures KindsAgree(ents[i].listing)
  {
    var sub := ents[i].listing;
    forall path, loc, loc' ensures !(Node(sub, path, true, loc) && Node(sub, path, false, loc')) {
      if Node(sub, path, true, loc) && Node(sub, path, false, loc') {
        BelowNode(ents, i, path, true, loc);
        BelowNode(ents, i, path, false, loc');
      }
    }
  }

  lemma SubLocations(ents: seq<Entry>, i: nat)
    requires LocationsAgree(ents) && i < |ents| && ents[i].Dir?
    ensures LocationsAgree(ents[i].listing)
  {
    var sub := ents[i].listing;
    forall path, k, loc, k', loc' | Node(sub, path, k, loc) && Node(sub, path, k', loc') ensures loc == loc' {
      BelowNode(ents, i, path, k, loc);
      BelowNode(ents, i, path, k', loc');
    }
  }

  /** With distinct names, agreement below each entry is agreement throughout. */
  lemma LocationsFromBelow(ents: seq<Entry>)
    requires DistinctNames(ents) && forall i :: 0 <= i < |ents| && ents[i].Dir? ==> LocationsAgree(ents[i].listing)
    ensures LocationsAgree(ents)
  {
    forall path, k, loc, k', loc' | Node(ents, path, k, loc) && Node(ents, path, k', loc') ensures loc == loc' {
      var i :| 0 <= i < |ents| && NodeOf(ents[i], path, k, loc);
      var j :| 0 <= j < |ents| && NodeOf(ents[j], path, k', loc');
      assert i == j;
      if |path| > 1 {
        assert Node(ents[i].listing, path[1..], k, loc) && Node(ents[i].listing, path[1..], k', loc');
        assert LocationsAgree(ents[i].listing);
      }
    }
  }

  lemma KindsTransfer(a: seq<Entry>, b: seq<Entry>)
    requires SameNodes(a, b)
    ensures KindsAgree(a) <==> KindsAgree(b)
    ensures LocationsAgree(a) <==> LocationsAgree(b)
  {}

  /** The same entry, with a merged listing if it has one. */
  ghost predicate Deepened(before: Entry, after: Entry) {
    && after.basename == before.basename && UniqueBelow(after) && DepthOf(after) <= DepthOf(before)
    && (before.Dir? && KindsAgree(before.listing) ==> LocationsAgree(before.listing))
    && ((before.Dir? ==> KindsAgree(before.listing)) ==>
          forall path, k, loc :: NodeOf(after, path, k, loc) <==> NodeOf(before, path, k, loc))
  }

  lemma DeepenedNodes(ents: seq<Entry>, out: seq<Entry>)
    requires |out| == |ents| && KindsAgree(ents) && forall i :: 0 <= i < |ents| ==> Deepened(ents[i], out[i])
    ensures SameNodes(out, ents)
  {
    forall i | 0 <= i < |ents|
      ensures forall path, k, loc :: NodeOf(out[i], path, k, loc) <==> NodeOf(ents[i], path, k, loc)
    {
      if ents[i].Dir? { SubKinds(ents, i); }
    }
    forall path, k, loc ensures Node(out, path, k, loc) <==> Node(ents, path, k, loc) {
      if Node(out, path, k, loc) {
        var i :| 0 <= i < |out| && NodeOf(out[i], path, k, loc);
        assert NodeOf(ents[i], path, k, loc);
      }
      if Node(ents, path, k, loc) {
        var i :| 0 <= i < |ents| && NodeOf(ents[i], path, k, loc);
        assert NodeOf(out[i], path, k, loc);
      }
    }
  }

  /** A directory whose listing was merged. */
  lemma DeepenOne(e: Entry, sub: seq<Entry>)
    requires e.Dir? && UniqueNames(sub) && Depth(sub) <= Depth(e.listing)
    requires KindsAgree(e.listing) ==> LocationsAgree(e.listing) && SameNodes(sub, e.listing)
    ensures Deepened(e, Dir(e.basename, e.location, sub))
  {}

  /** What the recursive merges establish for the pooled entries holds for the whole listing. */
  lemma MergedFacts(listing: seq<Entry>, ents: seq<Entry>, out: seq<Entry>)
    requires DistinctNames(ents) && Depth(ents) <= Depth(listing) && (KindsAgree(listing) ==> SameNodes(ents, listing))
    requires |out| == |ents| && forall i :: 0 <= i < |ents| ==> Deepened(ents[i], out[i])
    ensures UniqueNames(out) && Depth(out) <= Depth(listing)
    ensures KindsAgree(listing) ==> LocationsAgree(listing) && SameNodes(out, listing)
  {
    DepthBound(ents, Depth(listing));
    DepthBound(out, Depth(listing));
    if KindsAgree(listing) {
      KindsTransfer(ents, listing);
      forall i | 0 <= i < |ents| && ents[i].Dir? ensures LocationsAgree(ents[i].listing) {
        SubKinds(ents, i);
        assert Deepened(ents[i], out[i]);
      }
      LocationsFromBelow(ents);
      DeepenedNodes(ents, out);
    }
  }

  /** Two locations below a pooled entry are two locations in the whole listing. */
  lemma ClashBelow(listing: seq<Entry>, ents: seq<Entry>, i: nat)
    requires i < |ents| && ents[i].Dir? && (KindsAgree(listing) ==> SameNodes(ents, listing))
    requires KindsAgree(ents[i].listing) ==> !LocationsAgree(ents[i].listing)
    ensures KindsAgree(listing) ==> !LocationsAgree(listing)
  {
    if KindsAgree(listing) {
      KindsTransfer(ents, listing);
      SubKinds(ents, i);
      if LocationsAgree(listing) { SubLocations(ents, i); }
    }
  }

  /**
   `mergedirs`: unless a name is used for both a file and a directory, it raises exactly when some
   path has two locations; otherwise the result has the same nodes at the same paths, basenames
   unique at every level, and no more levels than before.
   */
  method MergeDirs(listing: seq<Entry>) returns (r: Merged)
    ensures r.Ok? ==> UniqueNames(r.listing) && Depth(r.listing) <= Depth(listing)
    ensures KindsAgree(listing) ==> (r.Ok? <==> LocationsAgree(listing))
    ensures KindsAgree(listing) && r.Ok? ==> SameNodes(r.listing, listing)
    decreases Depth(listing)
  {
    r := Pool(listing);
    if r.Conflict? { return; }
    var ents, out := r.listing, [];
    for i := 0 to |ents|
      invariant |out| == i && forall j :: 0 <= j < i ==> Deepened(ents[j], out[j])
    {
      var e := ents[i];
      if e.Dir? {
        DepthBound(ents, Depth(listing));
        var sub := MergeDirs(e.listing);
        if sub.Conflict? {
          ClashBelow(listing, ents, i);
          return Conflict;
        }
        DeepenOne(e, sub.listing);
        out := out + [Dir(e.basename, e.location, sub.listing)];
      } else {
        out := out + [e];
      }
    }
    MergedFacts(listing, ents, out);
    r := Ok(out);
  }

  // ---------------------------------------------------------------- nesting by relative path

  function Split(s: string): (parts: seq<string>)
    ensures parts != []
  {
    if '/' in s then [s[..IndexOf(s, '/')]] + Split(s[IndexOf(s, '/') + 1..]) else [s]
  }

  function Join(parts: seq<string>): string {
    if parts == [] then "" else if |parts| == 1 then parts[0] else parts[0] + "/" + Join(parts[1..])
  }

  lemma {:induction false} JoinSplit(s: string)
    ensures Join(Split(s)) == s
    decreases |s|
  {
    if '/' in s {
      var i := IndexOf(s, '/');
      JoinSplit(s[i + 1..]);
      assert s == s[..i] + "/" + s[i + 1..];
    }
  }

  /** No component holds a slash, so the components are those between the slashes. */
  lemma {:induction false} SplitParts(s: string)
    ensures forall i :: 0 <= i < |Split(s)| ==> '/' !in Split(s)[i]
    decreases |s|
  {
    if '/' in s { SplitParts(s[IndexOf(s, '/') + 1..]); }
  }

  function StripSlashes(s: string): string {
    if s != "" && s[|s| - 1] == '/' then StripSlashes(s[..|s| - 1]) else s
  }

  /** `os.path.dirname(base) + "/"`. */
  function BaseDir(base: string): string {
    if '/' !in base then "/"
    else
      var head := base[..LastIndexOf(base, '/') + 1];
      (if StripSlashes(head) == "" then head else StripSlashes(head)) + "/"
  }

  /** The last slash of a path is the one before its name. */
  lemma LastSlash(dir: string, name: string)
    requires '/' !in name
    ensures var base := dir + "/" + name;
            '/' in base && LastIndexOf(base, '/') == |dir| && base[..|dir| + 1] == dir + "/"
  {
    var base := dir + "/" + name;
    assert base[|dir|] == '/' && forall j :: |dir| < j < |base| ==> base[j] == name[j - |dir| - 1];
  }

  lemma StripLast(dir: string)
    ensures StripSlashes(dir + "/") == StripSlashes(dir)
  {
    assert (dir + "/")[..|dir|] == dir;
  }

  /** The directory part of a path, with one slash; that of a path without slashes is the root. */
  lemma BaseDirRule(dir: string, name: string)
    requires '/' !in name
    ensures dir != "" && dir[|dir| - 1] != '/' ==> BaseDir(dir + "/" + name) == dir + "/"
    ensures BaseDir(name) == "/" && BaseDir("/" + name) == "//"
  {
    LastSlash(dir, name);
    StripLast(dir);
    LastSlash("", name);
    StripLast("");
    assert "" + "/" + name == "/" + name && "" + "/" == "/";
  }

  predicate Under(base: string, location: string) {
    BaseDir(base) <= location
  }

  /** The components of a location below the base directory. */
  function Relative(base: string, location: string): (path: seq<string>)
    requires Under(base, location)
    ensures path != []
  {
    Split(location[|BaseDir(base)|..])
  }

  lemma RelativeLocation(base: string, location: string)
    requires Under(base, location)
    ensures location == BaseDir(base) + Join(Relative(base, location))
  {
    JoinSplit(location[|BaseDir(base)|..]);
  }

  /** `e` inside one directory for every component, the innermost first. */
  function Wrap(dir: string, sp: seq<string>, e: Entry): Entry
    decreases |sp|
  {
    if sp == [] then e
    else Wrap(dir, sp[..|sp| - 1], Dir(sp[|sp| - 1], dir + Join(sp), [e]))
  }

  function Nested(base: string, e: Entry): Entry {
    if Under(base, e.location) then
      var sp := Relative(base, e.location);
      Wrap(BaseDir(base), sp[..|sp| - 1], e)
    else e
  }

  method NestDir(base: string, e: Entry) returns (r: Entry)
    ensures r == Nested(base, e) && (!(BaseDir(base) <= e.location) ==> r == e)
  {
    r := e;
    var dirname := BaseDir(base);
    if dirname <= e.location {
      var sp := Split(e.location[|dirname|..]);
      sp := sp[..|sp| - 1];
      while sp != []
        invariant Wrap(dirname, sp, r) == Nested(base, e)
        decreases |sp|
      {
        var loc, nx := dirname + Join(sp), sp[|sp| - 1];
        sp := sp[..|sp| - 1];
        r := Dir(nx, loc, [r]);
      }
    }
  }

  /** A directory of the chain `sp`, at its own location. */
  ghost predicate ChainNode(dir: string, sp: seq<string>, path: seq<string>, k: bool, loc: string) {
    k && path != [] && path <= sp && loc == dir + Join(path)
  }

  ghost predicate WrapNode(dir: string, sp: seq<string>, e: Entry, path: seq<string>, k: bool, loc: string) {
    ChainNode(dir, sp, path, k, loc) || (sp <= path && NodeOf(e, path[|sp|..], k, loc))
  }

  lemma SameThrough(sp: seq<string>, path: seq<string>)
    requires 0 < |sp| <= |path| && path[..|sp| - 1] == sp[..|sp| - 1] && path[|sp| - 1] == sp[|sp| - 1]
    ensures sp <= path && sp[..|sp| - 1] <= path && !(path <= sp[..|sp| - 1])
    ensures path[|sp| - 1..][0] == sp[|sp| - 1] && path[|sp| - 1..][1..] == path[|sp|..]
    ensures |path| == |sp| ==> path == sp
    ensures |path| > |sp| ==> !(path <= sp)
  {}

  lemma DirAround(name: string, at: string, e: Entry, rest: seq<string>, k: bool, loc: string)
    requires rest != [] && rest[0] == name
    ensures NodeOf(Dir(name, at, [e]), rest, k, loc) <==>
            if |rest| == 1 then k && loc == at else NodeOf(e, rest[1..], k, loc)
  {
    SingleNode(e);
  }

  lemma ThroughLast(dir: string, sp: seq<string>, e: Entry, path: seq<string>, k: bool, loc: string)
    requires 0 < |sp| <= |path| && path[..|sp| - 1] == sp[..|sp| - 1] && path[|sp| - 1] == sp[|sp| - 1]
    ensures var n := |sp| - 1;
            WrapNode(dir, sp[..n], Dir(sp[n], dir + Join(sp), [e]), path, k, loc) <==>
            WrapNode(dir, sp, e, path, k, loc)
  {
    var n := |sp| - 1;
    var at := dir + Join(sp);
    SameThrough(sp, path);
    DirAround(sp[n], at, e, path[n..], k, loc);
    var inner := Dir(sp[n], at, [e]);
    assert WrapNode(dir, sp[..n], inner, path, k, loc) <==> NodeOf(inner, path[n..], k, loc);
    if |path| == |sp| {
      assert !NodeOf(e, path[|sp|..], k, loc);
    }
  }

  lemma OffChain(sp: seq<string>, path: seq<string>)
    requires 0 < |sp| <= |path| && !(path[..|sp| - 1] == sp[..|sp| - 1] && path[|sp| - 1] == sp[|sp| - 1])
    ensures !(sp <= path) && !(path <= sp)
  {}

  lemma WrapStep(dir: string, sp: seq<string>, e: Entry, path: seq<string>, k: bool, loc: string)
    requires sp != []
    ensures var n := |sp| - 1;
            WrapNode(dir, sp[..n], Dir(sp[n], dir + Join(sp), [e]), path, k, loc) <==>
            WrapNode(dir, sp, e, path, k, loc)
  {
    var n := |sp| - 1;
    if |path| <= n {
      assert path <= sp <==> path <= sp[..n];
      assert sp[..n] <= path ==> path[n..] == [];
    } else if path[..n] == sp[..n] && path[n] == sp[n] {
      ThroughLast(dir, sp, e, path, k, loc);
    } else {
      assert !(sp <= path) && !(path <= sp) by { OffChain(sp, path); }
      if sp[..n] <= path {
        assert path[..n] == sp[..n];
        assert path[n..][0] == path[n];
      }
    }
  }

  /** A wrapped entry has the directories of its chain, and below them its own nodes. */
  lemma {:induction false} WrapNodes(dir: string, sp: seq<string>, e: Entry, path: seq<string>, k: bool, loc: string)
    ensures NodeOf(Wrap(dir, sp, e), path, k, loc) <==> WrapNode(dir, sp, e, path, k, loc)
    decreases |sp|
  {
    if sp == [] {
      assert path[0..] == path;
    } else {
      var n := |sp| - 1;
      var up, inner := sp[..n], Dir(sp[n], dir + Join(sp), [e]);
      WrapNodes(dir, up, inner, path, k, loc);
      WrapStep(dir, sp, e, path, k, loc);
    }
  }

  // ---------------------------------------------------------------- the tree of a set of files

  /** Files below the base, named by the last component of their locations. */
  ghost predicate FileUnder(base: string, f: Entry) {
    f.File? && Under(base, f.location) && var rel := Relative(base, f.location); f.basename == rel[|rel| - 1]
  }

  ghost predicate FilesUnder(base: string, files: seq<Entry>) {
    forall i :: 0 <= i < |files| ==> FileUnder(base, files[i])
  }

  /** No file's path runs through another file. */
  ghost predicate PrefixFree(base: string, files: seq<Entry>)
    requires FilesUnder(base, files)
  {
    forall i, j :: 0 <= i < |files| && 0 <= j < |files| ==>
      !(Relative(base, files[i].location) < Relative(base, files[j].location))
  }

  /** What one file puts in the tree: itself at its relative path, a directory at every proper prefix of it. */
  ghost predicate OwnPath(base: string, f: Entry, path: seq<string>, k: bool, loc: string)
    requires FileUnder(base, f)
  {
    && path != [] && loc == BaseDir(base) + Join(path)
    && if k then path < Relative(base, f.location) else path == Relative(base, f.location)
  }

  ghost predicate SomePath(base: string, files: seq<Entry>, path: seq<string>, k: bool, loc: string)
    requires FilesUnder(base, files)
  {
    exists i :: 0 <= i < |files| && OwnPath(base, files[i], path, k, loc)
  }

  /** The listing has these files at their relative paths, the directories above them, and nothing else. */
  ghost predicate TreeOf(base: string, files: seq<Entry>, listing: seq<Entry>)
    requires FilesUnder(base, files)
  {
    forall path, k, loc :: Node(listing, path, k, loc) <==> SomePath(base, files, path, k, loc)
  }

  lemma AboveLast(rel: seq<string>, path: seq<string>)
    requires rel != []
    ensures path <= rel[..|rel| - 1] <==> path < rel
    ensures path == rel ==> rel[..|rel| - 1] <= path
  {
    assert rel == rel[..|rel| - 1] + [rel[|rel| - 1]];
  }

  lemma EndsAtFile(rel: seq<string>, path: seq<string>, f: Entry, k: bool, loc: string)
    requires rel != [] && f.File? && f.basename == rel[|rel| - 1] && rel[..|rel| - 1] <= path
    ensures NodeOf(f, path[|rel| - 1..], k, loc) <==> !k && path == rel && loc == f.location
  {
    var n := |rel| - 1;
    if |path| == |rel| {
      assert path == path[..n] + path[n..];
      assert path == rel <==> path[n..][0] == rel[n];
    }
  }

  /** A file inside the directories of its path: the directories above it, and itself. */
  lemma ChainNodes(dir: string, rel: seq<string>, f: Entry, path: seq<string>, k: bool, loc: string)
    requires rel != [] && f.File? && f.basename == rel[|rel| - 1] && f.location == dir + Join(rel)
    ensures NodeOf(Wrap(dir, rel[..|rel| - 1], f), path, k, loc) <==>
            path != [] && loc == dir + Join(path) && if k then path < rel else path == rel
  {
    WrapNodes(dir, rel[..|rel| - 1], f, path, k, loc);
    AboveLast(rel, path);
    if rel[..|rel| - 1] <= path { EndsAtFile(rel, path, f, k, loc); }
  }

  lemma NestedNodes(base: string, f: Entry, path: seq<string>, k: bool, loc: string)
    requires FileUnder(base, f)
    ensures NodeOf(Nested(base, f), path, k, loc) <==> OwnPath(base, f, path, k, loc)
  {
    RelativeLocation(base, f.location);
    ChainNodes(BaseDir(base), Relative(base, f.location), f, path, k, loc);
  }

  lemma ForestNodes(base: string, files: seq<Entry>, trees: seq<Entry>)
    requires FilesUnder(base, files) && |trees| == |files|
    requires forall i :: 0 <= i < |files| ==> trees[i] == Nested(base, files[i])
    ensures TreeOf(base, files, trees)
  {
    forall path, k, loc ensures Node(trees, path, k, loc) <==> SomePath(base, files, path, k, loc) {
      if Node(trees, path, k, loc) {
        var i :| 0 <= i < |trees| && NodeOf(trees[i], path, k, loc);
        NestedNodes(base, files[i], path, k, loc);
      }
      if SomePath(base, files, path, k, loc) {
        var i :| 0 <= i < |files| && OwnPath(base, files[i], path, k, loc);
        NestedNodes(base, files[i], path, k, loc);
        assert NodeOf(trees[i], path, k, loc);
      }
    }
  }

  lemma ForestLocations(base: string, files: seq<Entry>, trees: seq<Entry>)
    requires FilesUnder(base, files) && TreeOf(base, files, trees)
    ensures LocationsAgree(trees)
  {
    forall path, k, loc, k', loc' | Node(trees, path, k, loc) && Node(trees, path, k', loc') ensures loc == loc' {
      assert SomePath(base, files, path, k, loc) && SomePath(base, files, path, k', loc');
    }
  }

  lemma NoClash(base: string, files: seq<Entry>, path: seq<string>, loc: string, loc': string)
    requires FilesUnder(base, files) && PrefixFree(base, files)
    requires SomePath(base, files, path, true, loc)
    ensures !SomePath(base, files, path, false, loc')
  {
  }

  /** Kinds agree in such a tree when no file's path runs through another file. */
  lemma ForestKinds(base: string, files: seq<Entry>, trees: seq<Entry>)
    requires FilesUnder(base, files) && TreeOf(base, files, trees) && PrefixFree(base, files)
    ensures KindsAgree(trees)
  {
    forall path, loc, loc' ensures !(Node(trees, path, true, loc) && Node(trees, path, false, loc')) {
      if Node(trees, path, true, loc) {
        assert SomePath(base, files, path, true, loc);
        NoClash(base, files, path, loc, loc');
      }
    }
  }

  method NestAll(base: string, files: seq<Entry>) returns (trees: seq<Entry>)
    ensures |trees| == |files| && forall i :: 0 <= i < |files| ==> trees[i] == Nested(base, files[i])
  {
    trees := [];
    for i := 0 to |files|
      invariant |trees| == i && forall j :: 0 <= j < i ==> trees[j] == Nested(base, files[j])
    {
      var t := NestDir(base, files[i]);
      trees := trees + [t];
    }
  }

  ghost predicate Keeps(base: string, files: seq<Entry>, listing: seq<Entry>)
    requires FilesUnder(base, files)
  {
    forall i :: 0 <= i < |files| ==> Node(listing, Relative(base, files[i].location), false, files[i].location)
  }

  lemma TreeKeeps(base: string, files: seq<Entry>, listing: seq<Entry>)
    requires FilesUnder(base, files) && TreeOf(base, files, listing)
    ensures Keeps(base, files, listing)
  {
    forall i | 0 <= i < |files| ensures Node(listing, Relative(base, files[i].location), false, files[i].location) {
      RelativeLocation(base, files[i].location);
      assert OwnPath(base, files[i], Relative(base, files[i].location), false, files[i].location);
      assert SomePath(base, files, Relative(base, files[i].location), false, files[i].location);
    }
  }

  /** With basenames unique at every level, only a directory has nodes below it. */
  lemma {:induction false} NothingBelowFiles(listing: seq<Entry>, path: seq<string>, loc: string,
                                             more: seq<string>, k: bool, loc': string)
    requires UniqueNames(listing) && Node(listing, path, false, loc) && path < more
    ensures !Node(listing, more, k, loc')
    decreases |path|
  {
    if Node(listing, more, k, loc') {
      var i :| 0 <= i < |listing| && NodeOf(listing[i], path, false, loc);
      var j :| 0 <= j < |listing| && NodeOf(listing[j], more, k, loc');
      assert path[0] == more[0] && i == j;
      assert listing[i].Dir? && |path| > 1;
      assert UniqueBelow(listing[i]);
      assert path[1..] < more[1..] by { assert more == path + more[|path|..]; }
      NothingBelowFiles(listing[i].listing, path[1..], loc, more[1..], k, loc');
    }
  }

  lemma KeepingNeedsPrefixFree(base: string, files: seq<Entry>, listing: seq<Entry>)
    requires FilesUnder(base, files) && UniqueNames(listing) && Keeps(base, files, listing)
    ensures PrefixFree(base, files)
  {
    forall i, j | 0 <= i < |files| && 0 <= j < |files|
      ensures !(Relative(base, files[i].location) < Relative(base, files[j].location))
    {
      var p, q := Relative(base, files[i].location), Relative(base, files[j].location);
      if p < q {
        NothingBelowFiles(listing, p, files[i].location, q, false, files[j].location);
      }
    }
  }

  /**
   Nesting every file and merging the chains: the result keeps every file at its relative path
   exactly when no file's path runs through another file. Then nothing is raised, basenames are
   unique at every level, and besides the files there are only the directories above them.
   */
  method BuildTree(base: string, files: seq<Entry>) returns (r: Merged)
    requires FilesUnder(base, files)
    ensures r.Ok? && Keeps(base, files, r.listing) <==> PrefixFree(base, files)
    ensures PrefixFree(base, files) ==> r.Ok? && TreeOf(base, files, r.listing)
    ensures r.Ok? ==> UniqueNames(r.listing)
  {
    var trees := NestAll(base, files);
    ForestNodes(base, files, trees);
    ForestLocations(base, files, trees);
    if PrefixFree(base, files) { ForestKinds(base, files, trees); }
    r := MergeDirs(trees);
    if PrefixFree(base, files) { TreeKeeps(base, files, r.listing); }
    if r.Ok? && Keeps(base, files, r.listing) { KeepingNeedsPrefixFree(base, files, r.listing); }
  }
}
