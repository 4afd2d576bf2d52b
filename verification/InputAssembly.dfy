/**
 Input assembly (`match_types` and `object_from_state`): how the values of the
 connected sources become the input object of a step, or the output object of
 a workflow.

 The functions say what the input object must be; the methods below them follow
 the code, which mutates the source's declared type while it searches unions.
 */
module InputAssembly {
  import opened Values

  datatype LinkMerge = MergeNested | MergeFlattened | Unrecognized(name: string)
  datatype PickValue = FirstNonNull | TheOnlyNonNull | AllNonNull | OtherPick(name: string)

  /** What a workflow knows about one source: its declared type, value and status. */
  datatype Item = Item(typ: CwlType, value: Value, status: Status)

  type State = map<string, Option<Item>>

  /** `shortId` is the fragment name of `id`; `sources` is the `source` or `outputSource` field. */
  datatype Param = Param(
    id: string,
    shortId: string,
    typ: CwlType,
    sources: Option<seq<string>>,
    linkMerge: Option<LinkMerge>,
    pickValue: Option<PickValue>,
    default: Option<Value>,
    valueFrom: Option<string>)

  datatype Error =
    | MultipleInputs | TypeMismatch | BadLinkMerge | NoSuchSource
    | AllNull | SeveralNonNull | Unspecified

  datatype Assembly = Ready(obj: Object) | NotReady | Raises(error: Error)

  /** The flags of one call of `object_from_state`, with the external type relation. */
  datatype Mode = Mode(
    fragOnly: bool,
    multipleInput: bool,
    incomplete: bool,
    canAssign: (CwlType, CwlType) -> bool)

  function Key(m: Mode, p: Param): string {
    if m.fragOnly then p.shortId else p.id
  }

  // ---------------------------------------------------------------- linking one source

  /** A source of type `src` may feed a sink of type `sink`: some pair of alternatives fits. */
  predicate Fits(m: Mode, sink: CwlType, src: CwlType, merge: Option<LinkMerge>, valueFrom: Option<string>)
    decreases sink, src
  {
    if sink.Union? then
      exists i | 0 <= i < |sink.alts| :: Fits(m, sink.alts[i], src, merge, valueFrom)
    else if src.Union? then
      exists i | 0 <= i < |src.alts| :: Fits(m, sink, src.alts[i], merge, valueFrom)
    else
      merge.Some? || valueFrom.Some? || m.canAssign(src, sink) || sink == Named("Any")
  }

  function AsList(v: Value): seq<Value> {
    if v.Array? then v.elems else [v]
  }

  function Flatten(vals: seq<Value>): seq<Value> {
    if vals == [] then [] else Flatten(vals[..|vals| - 1]) + AsList(vals[|vals| - 1])
  }

  function EffectiveMerge(p: Param): Option<LinkMerge> {
    if p.linkMerge.Some? then p.linkMerge
    else if p.sources.Some? && |p.sources.value| > 1 then Some(MergeNested)
    else None
  }

  // ---------------------------------------------------------------- gathering all sources

  datatype Gathered = Got(vals: seq<Value>) | Waiting | Failed(error: Error)

  predicate Available(m: Mode, state: State, src: string) {
    src in state && state[src].Some? && (Usable(state[src].value.status) || m.incomplete)
  }

  /** The values of the first `k` sources, in connection order, or the first obstacle among them. */
  function Gather(m: Mode, state: State, p: Param, k: nat): Gathered
    requires p.sources.Some? && k <= |p.sources.value|
  {
    if k == 0 then Got([])
    else
      var before := Gather(m, state, p, k - 1);
      var src := p.sources.value[k - 1];
      if !before.Got? then before
      else if Available(m, state, src) then
        var item := state[src].value;
        if !Fits(m, p.typ, item.typ, EffectiveMerge(p), p.valueFrom) then Failed(TypeMismatch)
        else if EffectiveMerge(p).Some? && EffectiveMerge(p).value.Unrecognized? then Failed(BadLinkMerge)
        else Got(before.vals + [item.value])
      else if src !in state then Failed(NoSuchSource)
      else if m.incomplete then before
      else Waiting
  }

  /** The merge of the gathered values; nothing gathered leaves the input unset. */
  function Linked(vals: seq<Value>, merge: Option<LinkMerge>): Option<Value> {
    if vals == [] then None
    else match merge
      case None => Some(vals[|vals| - 1])
      case Some(MergeNested) => Some(Array(vals))
      case Some(_) => Some(Array(Flatten(vals)))
  }

  function NonNulls(vals: seq<Value>): seq<Value> {
    if vals == [] then []
    else NonNulls(vals[..|vals| - 1]) + (if vals[|vals| - 1].Null? then [] else [vals[|vals| - 1]])
  }

  datatype Slot = Unset | Set(value: Value) | Pending | Bad(error: Error)

  /** The `pickValue` rule on a merged list. */
  function Picked(vals: seq<Value>, pick: PickValue): Slot {
    match pick
    case FirstNonNull => if NonNulls(vals) == [] then Bad(AllNull) else Set(NonNulls(vals)[0])
    case TheOnlyNonNull =>
      if NonNulls(vals) == [] then Bad(AllNull)
      else if |NonNulls(vals)| > 1 then Bad(SeveralNonNull)
      else Set(NonNulls(vals)[0])
    case AllNonNull => Set(Array(NonNulls(vals)))
    case OtherPick(_) => Set(Array(vals))
  }

  /** Gathering and merging the sources of one parameter. */
  function Connected(m: Mode, state: State, p: Param): Slot {
    if p.sources.None? then Unset
    else if |p.sources.value| > 1 && !m.multipleInput then Bad(MultipleInputs)
    else match Gather(m, state, p, |p.sources.value|)
      case Waiting => Pending
      case Failed(e) => Bad(e)
      case Got(vals) =>
        match Linked(vals, EffectiveMerge(p))
        case None => Unset
        case Some(v) => Set(v)
  }

  function Chosen(p: Param, linked: Slot): Slot {
    if linked.Set? && linked.value.Array? && p.pickValue.Some? then
      Picked(linked.value.elems, p.pickValue.value)
    else linked
  }

  function Completed(m: Mode, p: Param, chosen: Slot): Slot
    ensures !Completed(m, p, chosen).Unset?
  {
    if (chosen.Unset? || (chosen.Set? && chosen.value.Null?)) && p.default.Some? then Set(p.default.value)
    else if chosen.Unset? then
      if p.valueFrom.Some? || m.incomplete then Set(Null) else Bad(Unspecified)
    else chosen
  }

  /** The value of one parameter: link, then pick, then default. */
  function ParamSlot(m: Mode, state: State, p: Param): Slot {
    Completed(m, p, Chosen(p, Connected(m, state, p)))
  }

  /** The input object over the first `k` parameters; the first obstacle decides. */
  function AssembleUpTo(m: Mode, state: State, params: seq<Param>, k: nat): Assembly
    requires k <= |params|
  {
    if k == 0 then Ready(map[])
    else
      var before := AssembleUpTo(m, state, params, k - 1);
      if !before.Ready? then before
      else match ParamSlot(m, state, params[k - 1])
        case Set(v) => Ready(before.obj[Key(m, params[k - 1]) := v])
        case Bad(e) => Raises(e)
        case _ => NotReady
  }

  function Assemble(m: Mode, state: State, params: seq<Param>): Assembly {
    AssembleUpTo(m, state, params, |params|)
  }

  ghost predicate DistinctKeys(m: Mode, params: seq<Param>) {
    forall i, j :: 0 <= i < j < |params| ==> Key(m, params[i]) != Key(m, params[j])
  }

  // ---------------------------------------------------------------- what the rules ask for

  /** The number of elements that a value contributes to a flattened list. */
  function Width(v: Value): nat {
    if v.Array? then |v.elems| else 1
  }

  /** Where the contribution of value `i` begins in a flattened list. */
  function Offset(vals: seq<Value>, i: nat): nat
    requires i <= |vals|
  {
    if i == 0 then 0 else Offset(vals, i - 1) + Width(vals[i - 1])
  }

  ghost function Elements(v: Value): seq<Value> {
    match v
    case Array(elems) => elems
    case _ => [v]
  }

  /** `out` stands at `at` in `list`. */
  ghost predicate StandsAt(list: seq<Value>, at: nat, out: seq<Value>) {
    at + |out| <= |list| && list[at..at + |out|] == out
  }

  /** `list` is the one-level flattening of `vals`: lists element by element, other values as they are. */
  ghost predicate FlattenRule(vals: seq<Value>, list: seq<Value>) {
    && |list| == Offset(vals, |vals|)
    && forall i :: 0 <= i < |vals| ==>
         StandsAt(list, Offset(vals, i), Elements(vals[i]))
  }

  lemma {:induction false} OffsetPrefix(vals: seq<Value>, more: seq<Value>, i: nat)
    requires i <= |vals|
    ensures Offset(vals + more, i) == Offset(vals, i)
  {
    if i > 0 { OffsetPrefix(vals, more, i - 1); }
  }

  lemma StandsLonger(list: seq<Value>, more: seq<Value>, at: nat, out: seq<Value>)
    requires StandsAt(list, at, out)
    ensures StandsAt(list + more, at, out)
  {
    assert (list + more)[at..at + |out|] == list[at..at + |out|];
  }

  lemma StandsAtEnd(list: seq<Value>, out: seq<Value>)
    ensures StandsAt(list + out, |list|, out)
  {
    assert (list + out)[|list|..|list| + |out|] == out;
  }

  lemma FlattensOneMore(vals: seq<Value>, list: seq<Value>, v: Value)
    requires FlattenRule(vals, list)
    ensures FlattenRule(vals + [v], list + Elements(v))
  {
    var longer, out := vals + [v], Elements(v);
    OffsetPrefix(vals, [v], |vals|);
    forall i | 0 <= i < |longer| ensures StandsAt(list + out, Offset(longer, i), Elements(longer[i])) {
      OffsetPrefix(vals, [v], i);
      if i < |vals| {
        assert longer[i] == vals[i];
        StandsLonger(list, out, Offset(vals, i), Elements(vals[i]));
      } else {
        StandsAtEnd(list, out);
      }
    }
    assert longer[|vals|] == v;
  }

  lemma SameFlattening(vals: seq<Value>, vals': seq<Value>, list: seq<Value>, list': seq<Value>)
    requires FlattenRule(vals, list) && vals == vals' && list == list'
    ensures FlattenRule(vals', list')
  {}

  lemma {:induction false} Flattens(vals: seq<Value>)
    ensures FlattenRule(vals, Flatten(vals))
  {
    if vals != [] {
      var before, v := vals[..|vals| - 1], vals[|vals| - 1];
      Flattens(before);
      FlattensOneMore(before, Flatten(before), v);
      SameFlattening(before + [v], vals, Flatten(before) + Elements(v), Flatten(vals));
    }
  }

  ghost predicate AllNulls(list: seq<Value>) {
    forall i :: 0 <= i < |list| ==> list[i] == Null
  }

  /** The first value that is not null stands at `k`. */
  ghost predicate FirstAt(list: seq<Value>, k: nat) {
    k < |list| && list[k] != Null && forall i :: 0 <= i < k ==> list[i] == Null
  }

  ghost predicate TwoNonNull(list: seq<Value>) {
    exists i, j :: 0 <= i < j < |list| && list[i] != Null && list[j] != Null
  }

  /** How many of the first `i` values are not null. */
  function NonNullsBefore(list: seq<Value>, i: nat): nat
    requires i <= |list|
  {
    if i == 0 then 0 else NonNullsBefore(list, i - 1) + if list[i - 1] == Null then 0 else 1
  }

  ghost predicate KeptAt(kept: seq<Value>, at: nat, v: Value) {
    at < |kept| && kept[at] == v
  }

  /** `kept` has the values that are not null, in order. */
  ghost predicate KeepsNonNull(list: seq<Value>, kept: seq<Value>) {
    && |kept| == NonNullsBefore(list, |list|)
    && forall i :: 0 <= i < |list| && list[i] != Null ==> KeptAt(kept, NonNullsBefore(list, i), list[i])
  }

  /** The rule of `pickValue` on a list. */
  ghost predicate PickRule(list: seq<Value>, pick: PickValue, slot: Slot) {
    && (pick.FirstNonNull? || pick.TheOnlyNonNull? ==>
          if AllNulls(list) then slot == Bad(AllNull)
          else if pick.TheOnlyNonNull? && TwoNonNull(list) then slot == Bad(SeveralNonNull)
          else exists k: nat :: FirstAt(list, k) && slot == Set(list[k]))
    && (pick.AllNonNull? ==> slot.Set? && slot.value.Array? && KeepsNonNull(list, slot.value.elems))
    && (pick.OtherPick? ==> slot == Set(Array(list)))
  }

  lemma {:induction false} BeforePrefix(list: seq<Value>, more: seq<Value>, i: nat)
    requires i <= |list|
    ensures NonNullsBefore(list + more, i) == NonNullsBefore(list, i)
  {
    if i > 0 { BeforePrefix(list, more, i - 1); }
  }

  lemma {:induction false} BeforeGrows(list: seq<Value>, i: nat, k: nat)
    requires i <= k <= |list|
    ensures NonNullsBefore(list, i) <= NonNullsBefore(list, k)
    decreases k
  {
    if i < k { BeforeGrows(list, i, k - 1); }
  }

  lemma KeepsOneMore(list: seq<Value>, kept: seq<Value>, v: Value)
    requires KeepsNonNull(list, kept)
    ensures KeepsNonNull(list + [v], kept + if v == Null then [] else [v])
  {
    var longer, kept' := list + [v], kept + if v == Null then [] else [v];
    BeforePrefix(list, [v], |list|);
    forall i | 0 <= i < |longer| && longer[i] != Null ensures KeptAt(kept', NonNullsBefore(longer, i), longer[i]) {
      BeforePrefix(list, [v], i);
      if i < |list| { assert KeptAt(kept, NonNullsBefore(list, i), list[i]); }
    }
  }

  lemma {:induction false} NonNullsKeep(list: seq<Value>)
    ensures KeepsNonNull(list, NonNulls(list))
  {
    if list != [] {
      var before, v := list[..|list| - 1], list[|list| - 1];
      NonNullsKeep(before);
      assert list == before + [v] && NonNulls(list) == NonNulls(before) + if v == Null then [] else [v];
      KeepsOneMore(before, NonNulls(before), v);
    }
  }

  lemma {:induction false} NoneBefore(list: seq<Value>, i: nat)
    requires i <= |list| && forall j :: 0 <= j < i ==> list[j] == Null
    ensures NonNullsBefore(list, i) == 0
  {
    if i > 0 { NoneBefore(list, i - 1); }
  }

  lemma {:induction false} FirstNonNullAt(list: seq<Value>) returns (k: nat)
    requires !AllNulls(list)
    ensures FirstAt(list, k) && NonNullsBefore(list, k) == 0
  {
    var before := list[..|list| - 1];
    if AllNulls(before) {
      k := |list| - 1;
      forall i | 0 <= i < k ensures list[i] == Null { assert before[i] == Null; }
      NoneBefore(list, k);
    } else {
      k := FirstNonNullAt(before);
      forall i | 0 <= i < k ensures list[i] == Null { assert before[i] == Null; }
      NoneBefore(list, k);
    }
  }

  lemma {:induction false} SomeBefore(list: seq<Value>, j: nat, i: nat)
    requires j < i <= |list| && list[j] != Null
    ensures NonNullsBefore(list, i) > NonNullsBefore(list, j)
    decreases i
  {
    if j < i - 1 { SomeBefore(list, j, i - 1); }
  }

  lemma {:induction false} OneBetween(list: seq<Value>, j: nat, i: nat)
    requires j < i <= |list| && list[j] != Null && forall l :: j < l < i ==> list[l] == Null
    ensures NonNullsBefore(list, i) == NonNullsBefore(list, j) + 1
    decreases i
  {
    if j < i - 1 { OneBetween(list, j, i - 1); }
  }

  /** What is picked follows the rule. */
  lemma PicksByRule(list: seq<Value>, pick: PickValue)
    ensures PickRule(list, pick, Picked(list, pick))
  {
    NonNullsKeep(list);
    if AllNulls(list) {
      NoneBefore(list, |list|);
    } else {
      var k := FirstNonNullAt(list);
      SomeBefore(list, k, |list|);
      if TwoNonNull(list) {
        var i, j :| 0 <= i < j < |list| && list[i] != Null && list[j] != Null;
        SomeBefore(list, i, j);
        SomeBefore(list, j, |list|);
      } else {
        OneBetween(list, k, |list|);
      }
    }
  }

  /** A value stays; only for null the default takes its place. */
  ghost predicate GivenRule(p: Param, v: Value, slot: Slot) {
    slot == Set(if v == Null && p.default.Some? then p.default.value else v)
  }

  /**
   From the linked value, if any, to the value of the parameter: `pickValue` on a list, the default
   for a missing or null value, null under `valueFrom` or in an incomplete state.
   */
  ghost predicate SettleRule(m: Mode, p: Param, linked: Option<Value>, slot: Slot) {
    if linked.Some? && linked.value.Array? && p.pickValue.Some? then
      exists picked: Slot :: PickRule(linked.value.elems, p.pickValue.value, picked)
                             && if picked.Set? then GivenRule(p, picked.value, slot) else slot == picked
    else if linked.Some? then GivenRule(p, linked.value, slot)
    else if p.default.Some? then slot == Set(p.default.value)
    else if p.valueFrom.Some? || m.incomplete then slot == Set(Null)
    else slot == Bad(Unspecified)
  }

  /** What is completed follows the rule. */
  lemma SettlesByRule(m: Mode, p: Param, linked: Option<Value>)
    ensures SettleRule(m, p, linked, Completed(m, p, Chosen(p, if linked.Some? then Set(linked.value) else Unset)))
  {
    if linked.Some? && linked.value.Array? && p.pickValue.Some? {
      PicksByRule(linked.value.elems, p.pickValue.value);
      assert PickRule(linked.value.elems, p.pickValue.value, Picked(linked.value.elems, p.pickValue.value));
    }
  }

  // ---------------------------------------------------------------- the methods of the code

  /** A `WorkflowStateItem`; only its declared type is ever overwritten. */
  class StateItem {
    var typ: CwlType
    const value: Value
    const status: Status

    constructor (typ: CwlType, value: Value, status: Status)
      ensures this.typ == typ && this.value == value && this.status == status
    {
      this.typ, this.value, this.status := typ, value, status;
    }

    ghost function View(): Item
      reads this
    {
      Item(typ, value, status)
    }
  }

  ghost function Items(state: map<string, StateItem?>): (s: set<StateItem>)
    ensures forall k :: k in state && state[k] != null ==> state[k] in s
  {
    set k | k in state && state[k] != null :: state[k]
  }

  /** The value-level state behind the shared, mutable state items. */
  ghost function View(state: map<string, StateItem?>): State
    reads Items(state)
  {
    map k | k in state :: if state[k] == null then None else Some(state[k].View())
  }

  datatype Match = Matched | Mismatched | Raised

  /** What one matching source does to the input object. */
  function Contribute(obj: Object, iid: string, merge: Option<LinkMerge>, v: Value): Object
    requires merge.Some? && iid in obj ==> obj[iid].Array?
  {
    if merge.None? then obj[iid := v]
    else
      var sofar := if iid in obj then obj[iid].elems else [];
      obj[iid := Array(sofar + if merge.value.MergeNested? then [v] else AsList(v))]
  }

  /**
   A source replaces the input, or is appended to the list of the sources before it: as one
   element for a nested merge or if it is no list, element by element for a flattened one.
   */
  ghost predicate ContributeRule(obj: Object, iid: string, merge: Option<LinkMerge>, v: Value, obj': Object) {
    && obj'.Keys == obj.Keys + {iid} && (forall k :: k in obj && k != iid ==> obj'[k] == obj[k])
    && (merge.None? ==> obj'[iid] == v)
    && (merge.Some? ==>
          var sofar := if iid in obj && obj[iid].Array? then obj[iid].elems else [];
          obj'[iid] == Array(sofar + if merge == Some(MergeNested) || !v.Array? then [v] else v.elems))
  }

  /**
   `match_types`: searches the unions of the sink, then of the source, overwriting the
   source's declared type on the way. On every normal return the type is restored and the
   source has contributed exactly once if it matches and not at all otherwise.
   */
  method MatchTypes(m: Mode, sink: CwlType, src: StateItem, iid: string, obj: Object,
                    merge: Option<LinkMerge>, valueFrom: Option<string>)
    returns (r: Match, obj': Object)
    requires merge.Some? && iid in obj ==> obj[iid].Array?
    modifies src`typ
    ensures r != Raised ==> src.typ == old(src.typ)
    ensures var fits := Fits(m, sink, old(src.typ), merge, valueFrom);
            r == if !fits then Mismatched
                 else if merge.Some? && merge.value.Unrecognized? then Raised
                 else Matched
    ensures obj' == if r == Matched then Contribute(obj, iid, merge, src.value) else obj
    ensures r == Matched ==> ContributeRule(obj, iid, merge, src.value, obj')
    decreases sink, src.typ
  {
    obj' := obj;
    if sink.Union? {
      for i := 0 to |sink.alts|
        invariant src.typ == old(src.typ) && obj' == obj
        invariant forall j :: 0 <= j < i ==> !Fits(m, sink.alts[j], src.typ, merge, valueFrom)
      {
        r, obj' := MatchTypes(m, sink.alts[i], src, iid, obj, merge, valueFrom);
        if r != Mismatched { return; }
      }
      return Mismatched, obj;
    }
    if src.typ.Union? {
      var original := src.typ.alts;
      for i := 0 to |original|
        invariant obj' == obj
        invariant forall j :: 0 <= j < i ==> !Fits(m, sink, original[j], merge, valueFrom)
      {
        src.typ := original[i];
        r, obj' := MatchTypes(m, sink, src, iid, obj, merge, valueFrom);
        if r == Raised { return; }
        if r == Matched {
          src.typ := Union(original);
          return;
        }
      }
      src.typ := Union(original);
      return Mismatched, obj;
    }
    if merge.Some? {
      if merge.value.Unrecognized? { return Raised, obj; }
      return Matched, Contribute(obj, iid, merge, src.value);
    }
    if valueFrom.Some? || m.canAssign(src.typ, sink) || sink == Named("Any") {
      return Matched, obj[iid := src.value];
    }
    return Mismatched, obj;
  }

  ghost function LinkedInto(obj: Object, iid: string, vals: seq<Value>, merge: Option<LinkMerge>): Object {
    match Linked(vals, merge)
    case None => obj
    case Some(v) => obj[iid := v]
  }

  lemma FlattenOneMore(vals: seq<Value>, v: Value)
    ensures Flatten(vals + [v]) == Flatten(vals) + AsList(v)
  {
    assert (vals + [v])[..|vals|] == vals;
  }

  lemma LinkedOneMore(vals: seq<Value>, merge: Option<LinkMerge>, v: Value)
    ensures Linked(vals + [v], merge) ==
            Some(if merge.None? then v
                 else if merge.value.MergeNested? then Array(vals + [v])
                 else Array(Flatten(vals) + AsList(v)))
  {
    FlattenOneMore(vals, v);
    assert (vals + [v])[|vals|] == v;
  }

  lemma LinkOneMore(obj: Object, iid: string, vals: seq<Value>, merge: Option<LinkMerge>, v: Value)
    requires iid !in obj
    requires merge.Some? ==> !merge.value.Unrecognized?
    ensures var sofar := LinkedInto(obj, iid, vals, merge);
            && (merge.Some? && iid in sofar ==> sofar[iid].Array?)
            && Contribute(sofar, iid, merge, v) == LinkedInto(obj, iid, vals + [v], merge)
  {
    LinkedOneMore(vals, merge, v);
    if vals == [] {
      assert Flatten([]) == [] && [] + [v] == [v] && [] + AsList(v) == AsList(v);
    }
  }

  lemma GatherStep(m: Mode, state: State, p: Param, k: nat)
    requires p.sources.Some? && k <= |p.sources.value|
    ensures !Gather(m, state, p, k).Got? ==> Gather(m, state, p, |p.sources.value|) == Gather(m, state, p, k)
    decreases |p.sources.value| - k
  {
    if k < |p.sources.value| { GatherStep(m, state, p, k + 1); }
  }

  /** One usable source of the connection loop. */
  method LinkSource(m: Mode, item: StateItem, p: Param, obj: Object) returns (r: Match, obj': Object)
    requires EffectiveMerge(p).Some? && Key(m, p) in obj ==> obj[Key(m, p)].Array?
    modifies item`typ
    ensures r != Raised ==> item.typ == old(item.typ)
    ensures var fits := Fits(m, p.typ, old(item.typ), EffectiveMerge(p), p.valueFrom);
            r == if !fits then Mismatched
                 else if EffectiveMerge(p).Some? && EffectiveMerge(p).value.Unrecognized? then Raised
                 else Matched
    ensures obj' == if r == Matched then Contribute(obj, Key(m, p), EffectiveMerge(p), item.value) else obj
  {
    r, obj' := MatchTypes(m, p.typ, item, Key(m, p), obj, EffectiveMerge(p), p.valueFrom);
  }

  /** The connection loop: one source after the other, each contributing once. */
  method LinkSources(m: Mode, state: map<string, StateItem?>, p: Param, obj: Object)
    returns (g: Gathered, obj': Object)
    requires p.sources.Some? && Key(m, p) !in obj
    modifies Items(state)
    ensures g == Gather(m, old(View(state)), p, |p.sources.value|)
    ensures !g.Failed? ==> View(state) == old(View(state))
    ensures g.Got? ==> obj' == LinkedInto(obj, Key(m, p), g.vals, EffectiveMerge(p))
  {
    ghost var view := View(state);
    var srcs, merge := p.sources.value, EffectiveMerge(p);
    var vals := [];
    obj' := obj;
    for i := 0 to |srcs|
      invariant View(state) == view
      invariant Gather(m, view, p, i) == Got(vals)
      invariant obj' == LinkedInto(obj, Key(m, p), vals, merge)
      invariant merge.Some? && merge.value.Unrecognized? ==> vals == []
    {
      GatherStep(m, view, p, i + 1);
      var src := srcs[i];
      var item := if src in state then state[src] else null;
      if item != null && (Usable(item.status) || m.incomplete) {
        assert view[src] == Some(item.View());
        var r;
        label before:
        r, obj' := LinkSource(m, item, p, obj');
        if r == Mismatched { return Failed(TypeMismatch), obj'; }
        if r == Raised { return Failed(BadLinkMerge), obj'; }
        LinkOneMore(obj, Key(m, p), vals, merge, item.value);
        vals := vals + [item.value];
        assert View(state) == old@before(View(state));
      } else if src !in state {
        return Failed(NoSuchSource), obj';
      } else if !m.incomplete {
        return Waiting, obj';
      }
    }
    g := Got(vals);
  }

  lemma NonNullsStep(vals: seq<Value>, i: nat)
    requires i < |vals|
    ensures NonNulls(vals[..i + 1]) == NonNulls(vals[..i]) + (if vals[i].Null? then [] else [vals[i]])
  {
    assert vals[..i + 1][..i] == vals[..i];
  }

  lemma NonNullsPrefix(vals: seq<Value>, i: nat)
    requires i <= |vals|
    ensures NonNulls(vals[..i]) <= NonNulls(vals)
    decreases |vals| - i
  {
    if i < |vals| {
      NonNullsStep(vals, i);
      NonNullsPrefix(vals, i + 1);
    } else {
      assert vals[..i] == vals;
    }
  }

  /** The three `pickValue` loops. */
  method PickFrom(vals: seq<Value>, pick: PickValue) returns (slot: Slot)
    ensures slot == Picked(vals, pick)
  {
    match pick
    case OtherPick(_) => slot := Set(Array(vals));
    case AllNonNull =>
      var kept := [];
      for i := 0 to |vals|
        invariant kept == NonNulls(vals[..i])
      {
        NonNullsStep(vals, i);
        if !vals[i].Null? { kept := kept + [vals[i]]; }
      }
      assert vals[..|vals|] == vals;
      slot := Set(Array(kept));
    case FirstNonNull =>
      for i := 0 to |vals|
        invariant NonNulls(vals[..i]) == []
      {
        NonNullsStep(vals, i);
        if !vals[i].Null? {
          NonNullsPrefix(vals, i + 1);
          return Set(vals[i]);
        }
      }
      assert vals[..|vals|] == vals;
      slot := Bad(AllNull);
    case TheOnlyNonNull =>
      slot := Bad(AllNull);
      for i := 0 to |vals|
        invariant NonNulls(vals[..i]) == if slot.Set? then [slot.value] else []
        invariant slot.Set? || slot == Bad(AllNull)
      {
        NonNullsStep(vals, i);
        if !vals[i].Null? {
          NonNullsPrefix(vals, i + 1);
          if slot.Set? { return Bad(SeveralNonNull); }
          slot := Set(vals[i]);
        }
      }
      assert vals[..|vals|] == vals;
  }

  /** What follows the connection loop for one parameter: pick, default, unset. */
  method SettleParam(m: Mode, p: Param, linked: Object) returns (slot: Slot, obj: Object)
    ensures slot == Completed(m, p, Chosen(p, if Key(m, p) in linked then Set(linked[Key(m, p)]) else Unset))
    ensures slot.Set? ==> obj == linked[Key(m, p) := slot.value]
    ensures SettleRule(m, p, if Key(m, p) in linked then Some(linked[Key(m, p)]) else None, slot)
    ensures slot.Set? || slot.Bad?
  {
    var iid := Key(m, p);
    SettlesByRule(m, p, if iid in linked then Some(linked[iid]) else None);
    obj := linked;
    if p.pickValue.Some? && iid in obj && obj[iid].Array? {
      slot := PickFrom(obj[iid].elems, p.pickValue.value);
      if slot.Bad? { return; }
      obj := obj[iid := slot.value];
    }
    if (iid !in obj || obj[iid].Null?) && p.default.Some? {
      obj := obj[iid := p.default.value];
    }
    if iid !in obj && (p.valueFrom.Some? || m.incomplete) {
      obj := obj[iid := Null];
    }
    if iid !in obj { return Bad(Unspecified), obj; }
    slot := Set(obj[iid]);
  }

  method AssembleParam(m: Mode, state: map<string, StateItem?>, p: Param, obj: Object)
    returns (slot: Slot, obj': Object)
    requires Key(m, p) !in obj
    modifies Items(state)
    ensures slot == ParamSlot(m, old(View(state)), p)
    ensures !slot.Bad? ==> View(state) == old(View(state))
    ensures slot.Set? ==> obj' == obj[Key(m, p) := slot.value]
  {
    obj' := obj;
    if p.sources.Some? {
      if |p.sources.value| > 1 && !m.multipleInput { return Bad(MultipleInputs), obj; }
      var g;
      g, obj' := LinkSources(m, state, p, obj);
      if g.Failed? { return Bad(g.error), obj'; }
      if g.Waiting? { return Slot.Pending, obj'; }
    }
    slot, obj' := SettleParam(m, p, obj');
  }

  lemma AssembleStep(m: Mode, state: State, params: seq<Param>, k: nat)
    requires k <= |params|
    ensures var a := AssembleUpTo(m, state, params, k); !a.Ready? ==> Assemble(m, state, params) == a
    decreases |params| - k
  {
    if k < |params| { AssembleStep(m, state, params, k + 1); }
  }

  /** `object_from_state`, parameter by parameter. */
  method ObjectFromState(m: Mode, state: map<string, StateItem?>, params: seq<Param>)
    returns (r: Assembly)
    requires DistinctKeys(m, params)
    modifies Items(state)
    ensures r == Assemble(m, old(View(state)), params)
    ensures !r.Raises? ==> View(state) == old(View(state))
  {
    ghost var view := View(state);
    var obj: Object := map[];
    for i := 0 to |params|
      invariant View(state) == view
      invariant AssembleUpTo(m, view, params, i) == Ready(obj)
      invariant forall k :: k in obj ==> exists j :: 0 <= j < i && Key(m, params[j]) == k
    {
      AssembleStep(m, view, params, i + 1);
      var slot, obj' := AssembleParam(m, state, params[i], obj);
      if slot.Bad? { return Raises(slot.error); }
      if slot.Pending? { return NotReady; }
      obj := obj';
    }
    r := Ready(obj);
  }

  // ---------------------------------------------------------------- what the result means

  /** `obj` holds exactly the values of the first `k` parameters. */
  ghost predicate Holds(m: Mode, state: State, params: seq<Param>, k: nat, obj: Object)
    requires k <= |params|
  {
    && (forall i :: 0 <= i < k ==> Key(m, params[i]) in obj
                                   && ParamSlot(m, state, params[i]) == Set(obj[Key(m, params[i])]))
    && (forall key :: key in obj ==> exists i :: 0 <= i < k && Key(m, params[i]) == key)
  }

  lemma HoldsOneMore(m: Mode, state: State, params: seq<Param>, k: nat, obj: Object, slot: Slot)
    requires DistinctKeys(m, params) && 0 < k <= |params|
    requires Holds(m, state, params, k - 1, obj)
    requires slot.Set? && slot == ParamSlot(m, state, params[k - 1])
    ensures Holds(m, state, params, k, obj[Key(m, params[k - 1]) := slot.value])
  {
    forall i | 0 <= i < k - 1 ensures Key(m, params[i]) != Key(m, params[k - 1]) {}
  }

  lemma {:induction false} AssembleHolds(m: Mode, state: State, params: seq<Param>, k: nat)
    requires DistinctKeys(m, params) && k <= |params|
    ensures var a := AssembleUpTo(m, state, params, k);
            a.Ready? ==> Holds(m, state, params, k, a.obj)
  {
    if k > 0 && AssembleUpTo(m, state, params, k).Ready? {
      AssembleHolds(m, state, params, k - 1);
      HoldsOneMore(m, state, params, k, AssembleUpTo(m, state, params, k - 1).obj, ParamSlot(m, state, params[k - 1]));
    }
  }

  lemma {:induction false} AssembleReady(m: Mode, state: State, params: seq<Param>, k: nat)
    requires k <= |params|
    requires forall i :: 0 <= i < k ==> ParamSlot(m, state, params[i]).Set?
    ensures AssembleUpTo(m, state, params, k).Ready?
  {
    if k > 0 { AssembleReady(m, state, params, k - 1); }
  }

  /**
   An input object is produced exactly when every parameter has a value, and then it holds
   one entry per parameter and nothing else.
   */
  lemma AssembleExact(m: Mode, state: State, params: seq<Param>)
    requires DistinctKeys(m, params)
    ensures var a := Assemble(m, state, params);
            && (a.Ready? <==> forall i :: 0 <= i < |params| ==> ParamSlot(m, state, params[i]).Set?)
            && (a.Ready? ==> Holds(m, state, params, |params|, a.obj))
  {
    AssembleHolds(m, state, params, |params|);
    if forall i :: 0 <= i < |params| ==> ParamSlot(m, state, params[i]).Set? {
      AssembleReady(m, state, params, |params|);
    }
  }

  ghost predicate AllAvailable(m: Mode, state: State, p: Param) {
    p.sources.Some? && forall i :: 0 <= i < |p.sources.value| ==> Available(m, state, p.sources.value[i])
  }

  lemma {:induction false} GatherExact(m: Mode, state: State, p: Param, k: nat)
    requires AllAvailable(m, state, p) && k <= |p.sources.value|
    requires forall i :: 0 <= i < k ==>
               Fits(m, p.typ, state[p.sources.value[i]].value.typ, EffectiveMerge(p), p.valueFrom)
    requires EffectiveMerge(p).Some? ==> !EffectiveMerge(p).value.Unrecognized?
    ensures Gather(m, state, p, k) == Got(seq(k, i requires 0 <= i < k => state[p.sources.value[i]].value.value))
  {
    if k > 0 { GatherExact(m, state, p, k - 1); }
  }

  /** A type that offers at least one alternative at every level. */
  predicate Inhabited(t: CwlType) {
    t.Union? ==> |t.alts| > 0 && forall i | 0 <= i < |t.alts| :: Inhabited(t.alts[i])
  }

  /** A merged link never fails on types: any two inhabited types reach a pair of alternatives. */
  lemma {:induction false} MergedAlwaysFits(m: Mode, sink: CwlType, src: CwlType,
                                            merge: LinkMerge, valueFrom: Option<string>)
    requires Inhabited(sink) && Inhabited(src)
    ensures Fits(m, sink, src, Some(merge), valueFrom)
    decreases sink, src
  {
    if sink.Union? {
      MergedAlwaysFits(m, sink.alts[0], src, merge, valueFrom);
    } else if src.Union? {
      MergedAlwaysFits(m, sink, src.alts[0], merge, valueFrom);
    }
  }

  /** The source's value may be used. */
  ghost predicate Usables(m: Mode, state: State, src: string) {
    && src in state && state[src].Some?
    && (state[src].value.status == Success || state[src].value.status == Skipped || m.incomplete)
  }

  /** All sources can be used, and fit; `vals` are their values, in connection order. */
  ghost predicate Sources(m: Mode, state: State, p: Param, vals: seq<Value>) {
    && p.sources.Some? && |vals| == |p.sources.value| && (|vals| > 1 ==> m.multipleInput)
    && forall i :: 0 <= i < |vals| ==>
         && Usables(m, state, p.sources.value[i]) && vals[i] == state[p.sources.value[i]].value.value
         && Fits(m, p.typ, state[p.sources.value[i]].value.typ, EffectiveMerge(p), p.valueFrom)
  }

  /**
   What the sources make of the input: a single one without `linkMerge` its value, several ones or
   `merge_nested` the list of their values, `merge_flattened` the one-level flattening.
   */
  ghost predicate LinkRule(p: Param, vals: seq<Value>, linked: Value) {
    if p.linkMerge == Some(MergeFlattened) then linked.Array? && FlattenRule(vals, linked.elems)
    else if p.linkMerge == Some(MergeNested) || (p.sources.Some? && |p.sources.value| > 1) then linked == Array(vals)
    else |vals| == 1 && linked == vals[0]
  }

  lemma {:induction false} GathersAll(m: Mode, state: State, p: Param, vals: seq<Value>, k: nat)
    requires Sources(m, state, p, vals) && k <= |vals|
    requires p.linkMerge.Some? ==> !p.linkMerge.value.Unrecognized?
    ensures Gather(m, state, p, k) == Got(vals[..k])
  {
    if k > 0 {
      GathersAll(m, state, p, vals, k - 1);
      assert Usables(m, state, p.sources.value[k - 1]);
      assert vals[..k] == vals[..k - 1] + [vals[k - 1]];
    }
  }

  /** The linked value follows the rule. */
  lemma LinksByRule(m: Mode, state: State, p: Param, vals: seq<Value>)
    requires Sources(m, state, p, vals) && vals != []
    requires p.linkMerge.Some? ==> !p.linkMerge.value.Unrecognized?
    ensures Connected(m, state, p).Set? && LinkRule(p, vals, Connected(m, state, p).value)
  {
    GathersAll(m, state, p, vals, |vals|);
    assert vals[..|vals|] == vals;
    Flattens(vals);
  }

  /**
   Merging inbound links: with every source available, the merged input lists each source's
   value exactly once in connection order (nested), or the one-level concatenation (flattened).
   */
  lemma MergeEachSourceOnce(m: Mode, state: State, p: Param)
    requires AllAvailable(m, state, p) && p.sources.value != []
    requires |p.sources.value| > 1 ==> m.multipleInput
    requires EffectiveMerge(p).Some? && !EffectiveMerge(p).value.Unrecognized?
    requires Inhabited(p.typ)
    requires forall i :: 0 <= i < |p.sources.value| ==> Inhabited(state[p.sources.value[i]].value.typ)
    ensures var srcs := p.sources.value;
            var vals := seq(|srcs|, i requires 0 <= i < |srcs| => state[srcs[i]].value.value);
            Connected(m, state, p) ==
              Set(Array(if EffectiveMerge(p).value.MergeNested? then vals else Flatten(vals)))
            && LinkRule(p, vals, Connected(m, state, p).value)
  {
    forall i | 0 <= i < |p.sources.value|
      ensures Fits(m, p.typ, state[p.sources.value[i]].value.typ, EffectiveMerge(p), p.valueFrom)
    {
      MergedAlwaysFits(m, p.typ, state[p.sources.value[i]].value.typ, EffectiveMerge(p).value, p.valueFrom);
    }
    GatherExact(m, state, p, |p.sources.value|);
    var srcs := p.sources.value;
    Flattens(seq(|srcs|, i requires 0 <= i < |srcs| => state[srcs[i]].value.value));
  }

  lemma {:induction false} FlattenConcat(a: seq<Value>, b: seq<Value>)
    ensures Flatten(a + b) == Flatten(a) + Flatten(b)
  {
    if b == [] {
      assert a + b == a;
    } else {
      var b' := b[..|b| - 1];
      assert (a + b)[..|a + b| - 1] == a + b';
      FlattenConcat(a, b');
    }
  }

  // ---------------------------------------------------------------- one parameter, in plain terms

  /** The alternatives of a type, through all levels of unions. */
  ghost predicate Alternative(t: CwlType, a: CwlType) {
    if t.Union? then exists i :: 0 <= i < |t.alts| && Alternative(t.alts[i], a) else a == t
  }

  /** Two alternatives fit: under a merge or `valueFrom` always, else by assignability or for `Any`. */
  ghost predicate FitRule(m: Mode, sink: CwlType, src: CwlType, p: Param) {
    || p.linkMerge.Some? || (p.sources.Some? && |p.sources.value| > 1) || p.valueFrom.Some?
    || m.canAssign(src, sink) || sink == Named("Any")
  }

  ghost predicate SomeFit(m: Mode, sink: CwlType, src: CwlType, p: Param) {
    exists a, b :: Alternative(sink, a) && Alternative(src, b) && FitRule(m, a, b, p)
  }

  lemma {:induction false} LeafIsLeaf(t: CwlType, a: CwlType)
    requires Alternative(t, a)
    ensures !a.Union?
  {
    if t.Union? {
      var i :| 0 <= i < |t.alts| && Alternative(t.alts[i], a);
      LeafIsLeaf(t.alts[i], a);
    }
  }

  lemma UnionOfSources(m: Mode, sink: CwlType, src: CwlType, p: Param)
    requires src.Union?
    ensures SomeFit(m, sink, src, p) <==> exists i :: 0 <= i < |src.alts| && SomeFit(m, sink, src.alts[i], p)
  {
    if SomeFit(m, sink, src, p) {
      var a, b :| Alternative(sink, a) && Alternative(src, b) && FitRule(m, a, b, p);
      var i :| 0 <= i < |src.alts| && Alternative(src.alts[i], b);
      assert SomeFit(m, sink, src.alts[i], p);
    }
    if i :| 0 <= i < |src.alts| && SomeFit(m, sink, src.alts[i], p) {
      var a, b :| Alternative(sink, a) && Alternative(src.alts[i], b) && FitRule(m, a, b, p);
      assert Alternative(src, b);
    }
  }

  lemma UnionOfSinks(m: Mode, sink: CwlType, src: CwlType, p: Param)
    requires sink.Union?
    ensures SomeFit(m, sink, src, p) <==> exists i :: 0 <= i < |sink.alts| && SomeFit(m, sink.alts[i], src, p)
  {
    if SomeFit(m, sink, src, p) {
      var a, b :| Alternative(sink, a) && Alternative(src, b) && FitRule(m, a, b, p);
      var i :| 0 <= i < |sink.alts| && Alternative(sink.alts[i], a);
      assert SomeFit(m, sink.alts[i], src, p);
    }
    if i :| 0 <= i < |sink.alts| && SomeFit(m, sink.alts[i], src, p) {
      var a, b :| Alternative(sink.alts[i], a) && Alternative(src, b) && FitRule(m, a, b, p);
      assert Alternative(sink, a);
    }
  }

  /** The search through the unions finds a match exactly when two alternatives fit. */
  lemma {:induction false} FitsByRule(m: Mode, sink: CwlType, src: CwlType, p: Param)
    ensures Fits(m, sink, src, EffectiveMerge(p), p.valueFrom) <==> SomeFit(m, sink, src, p)
    decreases sink, src
  {
    if sink.Union? {
      forall i | 0 <= i < |sink.alts|
        ensures Fits(m, sink.alts[i], src, EffectiveMerge(p), p.valueFrom) <==> SomeFit(m, sink.alts[i], src, p)
      {
        FitsByRule(m, sink.alts[i], src, p);
      }
      UnionOfSinks(m, sink, src, p);
    } else if src.Union? {
      forall i | 0 <= i < |src.alts|
        ensures Fits(m, sink, src.alts[i], EffectiveMerge(p), p.valueFrom) <==> SomeFit(m, sink, src.alts[i], p)
      {
        FitsByRule(m, sink, src.alts[i], p);
      }
      UnionOfSources(m, sink, src, p);
    } else if FitRule(m, sink, src, p) {
      assert Alternative(sink, sink) && Alternative(src, src);
    }
  }

  /** With all sources usable and fitting, the value is what linking, picking and the default make of theirs. */
  lemma SlotByRule(m: Mode, state: State, p: Param, vals: seq<Value>) returns (linked: Value)
    requires Sources(m, state, p, vals) && vals != []
    requires p.linkMerge.Some? ==> !p.linkMerge.value.Unrecognized?
    ensures LinkRule(p, vals, linked) && SettleRule(m, p, Some(linked), ParamSlot(m, state, p))
  {
    LinksByRule(m, state, p, vals);
    linked := Connected(m, state, p).value;
    SettlesByRule(m, p, Some(linked));
  }

  /** One usable, fitting source: its value, whatever the default is, unless it is null. */
  lemma OneSource(m: Mode, state: State, p: Param, src: string)
    requires p.sources == Some([src]) && p.linkMerge.None? && p.pickValue.None? && Usables(m, state, src)
    requires SomeFit(m, p.typ, state[src].value.typ, p)
    ensures var v := state[src].value.value;
            ParamSlot(m, state, p) == Set(if v == Null && p.default.Some? then p.default.value else v)
  {
    FitsByRule(m, p.typ, state[src].value.typ, p);
    var linked := SlotByRule(m, state, p, [state[src].value.value]);
  }

  /** No source, or in an incomplete state none with a value: the default, else null if allowed, else an error. */
  lemma NoSource(m: Mode, state: State, p: Param)
    requires p.sources.None? || p.sources == Some([])
             || (m.incomplete && exists src :: p.sources == Some([src]) && src in state && state[src].None?)
    ensures ParamSlot(m, state, p) ==
            if p.default.Some? then Set(p.default.value)
            else if p.valueFrom.Some? || m.incomplete then Set(Null)
            else Bad(Unspecified)
  {
    if p.sources.Some? && p.sources.value != [] { assert Gather(m, state, p, 0) == Got([]); }
  }

  lemma {:induction false} GathersFirst(m: Mode, state: State, p: Param, k: nat, vals: seq<Value>)
    requires p.sources.Some? && k <= |p.sources.value| && k <= |vals|
    requires forall i :: 0 <= i < k ==>
               && Usables(m, state, p.sources.value[i]) && vals[i] == state[p.sources.value[i]].value.value
               && SomeFit(m, p.typ, state[p.sources.value[i]].value.typ, p)
    requires p.linkMerge.Some? ==> !p.linkMerge.value.Unrecognized?
    ensures Gather(m, state, p, k) == Got(vals[..k])
  {
    if k > 0 {
      GathersFirst(m, state, p, k - 1, vals);
      assert Usables(m, state, p.sources.value[k - 1]);
      FitsByRule(m, p.typ, state[p.sources.value[k - 1]].value.typ, p);
      assert vals[..k] == vals[..k - 1] + [vals[k - 1]];
    }
  }

  /** The first source that is unknown, awaited or unfit decides; so does a missing feature or an unknown merge. */
  lemma FirstObstacle(m: Mode, state: State, p: Param, k: nat, vals: seq<Value>)
    requires p.sources.Some? && k < |p.sources.value| && |vals| == k
    requires forall i :: 0 <= i < k ==>
               && Usables(m, state, p.sources.value[i]) && vals[i] == state[p.sources.value[i]].value.value
               && SomeFit(m, p.typ, state[p.sources.value[i]].value.typ, p)
    requires p.linkMerge.Some? ==> !p.linkMerge.value.Unrecognized?
    ensures |p.sources.value| > 1 && !m.multipleInput ==> ParamSlot(m, state, p) == Bad(MultipleInputs)
    ensures var src := p.sources.value[k];
            (|p.sources.value| > 1 ==> m.multipleInput) ==>
              && (src !in state ==> ParamSlot(m, state, p) == Bad(NoSuchSource))
              && (src in state && !Usables(m, state, src) && !m.incomplete ==> ParamSlot(m, state, p) == Slot.Pending)
              && (Usables(m, state, src) && !SomeFit(m, p.typ, state[src].value.typ, p) ==>
                    ParamSlot(m, state, p) == Bad(TypeMismatch))
  {
    GathersFirst(m, state, p, k, vals);
    var src := p.sources.value[k];
    if src in state && state[src].Some? { FitsByRule(m, p.typ, state[src].value.typ, p); }
    assert Available(m, state, src) <==> Usables(m, state, src);
    GatherStep(m, state, p, k + 1);
  }

  /** An unknown merge raises with the first usable source that fits. */
  lemma UnknownMerge(m: Mode, state: State, p: Param, src: string)
    requires p.linkMerge.Some? && p.linkMerge.value.Unrecognized? && p.sources.Some? && p.sources.value != []
    requires src == p.sources.value[0] && Usables(m, state, src) && SomeFit(m, p.typ, state[src].value.typ, p)
    requires |p.sources.value| > 1 ==> m.multipleInput
    ensures ParamSlot(m, state, p) == Bad(BadLinkMerge)
  {
    FitsByRule(m, p.typ, state[src].value.typ, p);
    assert Gather(m, state, p, 0) == Got([]);
    GatherStep(m, state, p, 1);
  }

  /** The values that are there, of the first `k` sources, in connection order. */
  ghost function Present(state: State, srcs: seq<string>, k: nat): seq<Value>
    requires k <= |srcs| && forall i :: 0 <= i < |srcs| ==> srcs[i] in state
  {
    if k == 0 then []
    else
      var item := state[srcs[k - 1]];
      Present(state, srcs, k - 1) + if item.Some? then [item.value.value] else []
  }

  /** The sources are known, and those with a value fit. */
  ghost predicate KnownSources(m: Mode, state: State, p: Param) {
    && p.sources.Some? && (|p.sources.value| > 1 ==> m.multipleInput)
    && (p.linkMerge.Some? ==> !p.linkMerge.value.Unrecognized?)
    && forall i :: 0 <= i < |p.sources.value| ==>
         && p.sources.value[i] in state
         && (state[p.sources.value[i]].Some? ==> SomeFit(m, p.typ, state[p.sources.value[i]].value.typ, p))
  }

  lemma {:induction false} GathersPresent(m: Mode, state: State, p: Param, k: nat)
    requires m.incomplete && KnownSources(m, state, p) && k <= |p.sources.value|
    ensures Gather(m, state, p, k) == Got(Present(state, p.sources.value, k))
  {
    if k > 0 {
      GathersPresent(m, state, p, k - 1);
      var src := p.sources.value[k - 1];
      if state[src].Some? { FitsByRule(m, p.typ, state[src].value.typ, p); }
    }
  }

  lemma {:induction false} PresentBound(state: State, srcs: seq<string>, k: nat)
    requires k <= |srcs| && forall i :: 0 <= i < |srcs| ==> srcs[i] in state
    ensures |Present(state, srcs, k)| <= k
  {
    if k > 0 { PresentBound(state, srcs, k - 1); }
  }

  /** Where not everything is there yet, the values that are there count. */
  lemma IncompleteSlot(m: Mode, state: State, p: Param) returns (linked: Option<Value>)
    requires m.incomplete && KnownSources(m, state, p)
    ensures var vals := Present(state, p.sources.value, |p.sources.value|);
            && (linked.Some? <==> vals != []) && (linked.Some? ==> LinkRule(p, vals, linked.value))
            && SettleRule(m, p, linked, ParamSlot(m, state, p))
  {
    var n := |p.sources.value|;
    GathersPresent(m, state, p, n);
    PresentBound(state, p.sources.value, n);
    Flattens(Present(state, p.sources.value, n));
    linked := if Connected(m, state, p).Set? then Some(Connected(m, state, p).value) else None;
    SettlesByRule(m, p, linked);
  }

  /** In an incomplete state nothing is awaited. */
  lemma {:induction false} NothingAwaited(m: Mode, state: State, p: Param, k: nat)
    requires m.incomplete && p.sources.Some? && k <= |p.sources.value|
    ensures !Gather(m, state, p, k).Waiting?
  {
    if k > 0 { NothingAwaited(m, state, p, k - 1); }
  }

  lemma {:induction false} NeverNotReady(m: Mode, state: State, params: seq<Param>, k: nat)
    requires m.incomplete && k <= |params|
    ensures AssembleUpTo(m, state, params, k) != NotReady
  {
    if k > 0 {
      NeverNotReady(m, state, params, k - 1);
      var p := params[k - 1];
      if p.sources.Some? { NothingAwaited(m, state, p, |p.sources.value|); }
    }
  }

  /** The first parameter without a value decides what becomes of the whole input object. */
  lemma {:induction false} FirstBad(m: Mode, state: State, params: seq<Param>, k: nat, n: nat)
    requires k < n <= |params| && !ParamSlot(m, state, params[k]).Set?
    requires forall i :: 0 <= i < k ==> ParamSlot(m, state, params[i]).Set?
    ensures var slot := ParamSlot(m, state, params[k]);
            AssembleUpTo(m, state, params, n) == if slot.Bad? then Raises(slot.error) else NotReady
  {
    if k < n - 1 {
      FirstBad(m, state, params, k, n - 1);
    } else {
      AssembleReady(m, state, params, k);
    }
  }

  /** The key of a parameter is its fragment name where names are short, else its id. */
  ghost predicate KeyRule(m: Mode, p: Param, key: string) {
    key == if m.fragOnly then p.shortId else p.id
  }

  /** An assembled object has, under each parameter's key, what the sources, the default or null give. */
  lemma AssembledValues(m: Mode, state: State, params: seq<Param>, i: nat, key: string)
    requires DistinctKeys(m, params) && i < |params| && Assemble(m, state, params).Ready? && KeyRule(m, params[i], key)
    ensures var obj := Assemble(m, state, params).obj;
            key in obj && ParamSlot(m, state, params[i]) == Set(obj[key])
    ensures forall other :: other in Assemble(m, state, params).obj ==>
              exists j :: 0 <= j < |params| && KeyRule(m, params[j], other)
  {
    AssembleExact(m, state, params);
    var obj := Assemble(m, state, params).obj;
    forall other | other in obj ensures exists j :: 0 <= j < |params| && KeyRule(m, params[j], other) {
      var j :| 0 <= j < |params| && Key(m, params[j]) == other;
      assert KeyRule(m, params[j], other);
    }
  }

  lemma {:induction false} GotSource(m: Mode, state: State, p: Param, k: nat, j: nat)
    requires p.sources.Some? && j < k <= |p.sources.value| && !m.incomplete && Gather(m, state, p, k).Got?
    ensures Usables(m, state, p.sources.value[j])
    ensures Fits(m, p.typ, state[p.sources.value[j]].value.typ, EffectiveMerge(p), p.valueFrom)
    ensures p.linkMerge.Some? ==> !p.linkMerge.value.Unrecognized?
  {
    if j < k - 1 { GotSource(m, state, p, k - 1, j); }
  }

  ghost predicate AllUsable(m: Mode, state: State, p: Param) {
    p.sources.Some? ==> forall i :: 0 <= i < |p.sources.value| ==> Usables(m, state, p.sources.value[i])
  }

  /** The values of the sources, in connection order. */
  ghost function SourceValues(m: Mode, state: State, p: Param): seq<Value>
    requires AllUsable(m, state, p)
  {
    if p.sources.None? then []
    else seq(|p.sources.value|, i requires 0 <= i < |p.sources.value| => state[p.sources.value[i]].value.value)
  }

  /** `v` is what linking the source values, picking and the default give. */
  ghost predicate ValueRule(m: Mode, state: State, p: Param, v: Value)
    requires AllUsable(m, state, p)
  {
    exists linked: Option<Value> ::
      && (linked.Some? <==> SourceValues(m, state, p) != [])
      && (linked.Some? ==> LinkRule(p, SourceValues(m, state, p), linked.value))
      && SettleRule(m, p, linked, Set(v))
  }

  lemma SetByRule(m: Mode, state: State, p: Param)
    requires !m.incomplete && ParamSlot(m, state, p).Set?
    ensures AllUsable(m, state, p) && ValueRule(m, state, p, ParamSlot(m, state, p).value)
  {
    if p.sources.None? || p.sources.value == [] {
      SettlesByRule(m, p, None);
    } else {
      var n := |p.sources.value|;
      forall j | 0 <= j < n
        ensures Usables(m, state, p.sources.value[j])
        ensures Fits(m, p.typ, state[p.sources.value[j]].value.typ, EffectiveMerge(p), p.valueFrom)
        ensures p.linkMerge.Some? ==> !p.linkMerge.value.Unrecognized?
      {
        GotSource(m, state, p, n, j);
      }
      assert Usables(m, state, p.sources.value[0]);
      var linked := SlotByRule(m, state, p, SourceValues(m, state, p));
    }
  }

  /** In an assembled object every parameter has all its sources, and the value that they give. */
  lemma AssembledByRule(m: Mode, state: State, params: seq<Param>, i: nat, key: string)
    requires DistinctKeys(m, params) && !m.incomplete && Assemble(m, state, params).Ready?
    requires i < |params| && KeyRule(m, params[i], key)
    ensures var obj := Assemble(m, state, params).obj;
            key in obj && AllUsable(m, state, params[i]) && ValueRule(m, state, params[i], obj[key])
  {
    AssembledValues(m, state, params, i, key);
    SetByRule(m, state, params[i]);
  }

  // ---------------------------------------------------------------- growing states

  /** `t` extends `s`: same keys, and whatever is already known stays as it is. */
  ghost predicate Below(s: State, t: State) {
    && s.Keys == t.Keys
    && forall k :: k in s && s[k].Some? ==> s[k] == t[k]
  }

  lemma {:induction false} GatherMonotone(m: Mode, s: State, t: State, p: Param, k: nat)
    requires Below(s, t) && !m.incomplete
    requires p.sources.Some? && k <= |p.sources.value|
    ensures !Gather(m, s, p, k).Waiting? ==> Gather(m, t, p, k) == Gather(m, s, p, k)
  {
    if k > 0 { GatherMonotone(m, s, t, p, k - 1); }
  }

  lemma {:induction false} AssembleMonotoneUpTo(m: Mode, s: State, t: State, params: seq<Param>, k: nat)
    requires Below(s, t) && !m.incomplete && k <= |params|
    ensures AssembleUpTo(m, s, params, k) != NotReady ==>
              AssembleUpTo(m, t, params, k) == AssembleUpTo(m, s, params, k)
  {
    if k > 0 {
      AssembleMonotoneUpTo(m, s, t, params, k - 1);
      var p := params[k - 1];
      if p.sources.Some? { GatherMonotone(m, s, t, p, |p.sources.value|); }
    }
  }

  /** Once a step's inputs are decided (assembled or rejected), later outputs of other steps change nothing. */
  lemma AssembleMonotone(m: Mode, s: State, t: State, params: seq<Param>)
    requires Below(s, t) && !m.incomplete
    ensures Assemble(m, s, params) != NotReady ==> Assemble(m, t, params) == Assemble(m, s, params)
  {
    AssembleMonotoneUpTo(m, s, t, params, |params|);
  }

  /** Some source of some parameter is known to the workflow but has no usable value yet. */
  ghost predicate Awaits(m: Mode, state: State, params: seq<Param>, src: string) {
    && src in state && !Available(m, state, src)
    && exists p :: p in params && p.sources.Some? && src in p.sources.value
  }

  lemma {:induction false} WaitingSource(m: Mode, state: State, p: Param, k: nat) returns (src: string)
    requires p.sources.Some? && k <= |p.sources.value| && Gather(m, state, p, k).Waiting?
    ensures src in p.sources.value && src in state && !Available(m, state, src)
  {
    if Gather(m, state, p, k - 1).Waiting? {
      src := WaitingSource(m, state, p, k - 1);
    } else {
      src := p.sources.value[k - 1];
    }
  }

  /** A step is held back only by a source that is still awaited. */
  lemma {:induction false} NotReadyAwaits(m: Mode, state: State, params: seq<Param>, k: nat) returns (src: string)
    requires k <= |params| && AssembleUpTo(m, state, params, k) == NotReady
    ensures Awaits(m, state, params, src)
  {
    if AssembleUpTo(m, state, params, k - 1) == NotReady {
      src := NotReadyAwaits(m, state, params, k - 1);
    } else {
      var p := params[k - 1];
      assert ParamSlot(m, state, p).Pending?;
      src := WaitingSource(m, state, p, |p.sources.value|);
    }
  }
}
