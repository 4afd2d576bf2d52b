/**
 The lock manager for in-place updates (`MutationManager`): per file location a generation, the
 steps reading it, and the step that last updated it.

 The properties are about traces of calls: whatever the calls and whoever makes them, updates of
 a location are serialised against its readers and against each other.
 */
module Mutation {
  import opened Values

  datatype MutationState = MutationState(generation: nat, readers: seq<string>, stepname: string)

  /** A File or Directory object; without the generation field it counts as generation 0. */
  datatype FileObj = FileObj(location: string, generation: Option<nat>)

  type Generations = map<string, MutationState>

  function Generation(obj: FileObj): nat {
    if obj.generation.Some? then obj.generation.value else 0
  }

  function Current(g: Generations, loc: string): MutationState {
    if loc in g then g[loc] else MutationState(0, [], "")
  }

  datatype Call =
    | RegisterReader(step: string, obj: FileObj)
    | ReleaseReader(step: string, obj: FileObj)
    | RegisterMutation(step: string, obj: FileObj)

  /** `Refused` is the manager's own exception, `NotReading` the error of an unmatched release. */
  datatype Outcome = Done | Refused | NotReading

  function RemoveFirst(s: seq<string>, x: string): seq<string> {
    if s == [] then [] else if s[0] == x then s[1..] else [s[0]] + RemoveFirst(s[1..], x)
  }

  function Apply(g: Generations, c: Call): (Generations, Outcome) {
    var loc, now := c.obj.location, Current(g, c.obj.location);
    match c
    case RegisterReader(step, obj) =>
      if Generation(obj) != now.generation then (g, Refused)
      else (g[loc := now.(readers := now.readers + [step])], Done)
    case ReleaseReader(step, obj) =>
      if Generation(obj) != now.generation then (g, Refused)
      else if loc !in g || step !in now.readers then (g, NotReading)
      else (g[loc := now.(readers := RemoveFirst(now.readers, step))], Done)
    case RegisterMutation(step, obj) =>
      if now.readers != [] || Generation(obj) != now.generation then (g, Refused)
      else (g[loc := MutationState(now.generation + 1, now.readers, step)], Done)
  }

  lemma {:induction false} RemoveFirstAt(s: seq<string>, x: string, i: nat)
    requires i < |s| && s[i] == x && x !in s[..i]
    ensures RemoveFirst(s, x) == s[..i] + s[i + 1..]
  {
    if i > 0 {
      assert s[0] in s[..i];
      assert s[1..][..i - 1] == s[..i][1..];
      RemoveFirstAt(s[1..], x, i - 1);
    }
  }

  class MutationManager {
    var generations: Generations

    constructor ()
      ensures generations == map[]
    {
      generations := map[];
    }

    method RegisterReaderOf(step: string, obj: FileObj) returns (outcome: Outcome)
      modifies this
      ensures (generations, outcome) == Apply(old(generations), RegisterReader(step, obj))
    {
      var loc := obj.location;
      var current := Current(generations, loc);
      if Generation(obj) != current.generation { return Refused; }
      generations := generations[loc := current.(readers := current.readers + [step])];
      outcome := Done;
    }

    method ReleaseReaderOf(step: string, obj: FileObj) returns (outcome: Outcome)
      modifies this
      ensures (generations, outcome) == Apply(old(generations), ReleaseReader(step, obj))
    {
      var loc := obj.location;
      var current := Current(generations, loc);
      if Generation(obj) != current.generation { return Refused; }
      if loc !in generations { return NotReading; }
      var i := 0;
      while i < |current.readers| && current.readers[i] != step
        invariant i <= |current.readers| && step !in current.readers[..i]
        invariant generations == old(generations)
      {
        i := i + 1;
      }
      if i == |current.readers| { return NotReading; }
      RemoveFirstAt(current.readers, step, i);
      generations := generations[loc := current.(readers := current.readers[..i] + current.readers[i + 1..])];
      outcome := Done;
    }

    method RegisterMutationOf(step: string, obj: FileObj) returns (outcome: Outcome)
      modifies this
      ensures (generations, outcome) == Apply(old(generations), RegisterMutation(step, obj))
    {
      var loc := obj.location;
      var current := Current(generations, loc);
      if |current.readers| > 0 { return Refused; }
      if Generation(obj) != current.generation { return Refused; }
      generations := generations[loc := MutationState(current.generation + 1, current.readers, step)];
      outcome := Done;
    }

    /** An object stamped with the current generation is accepted for reading right away. */
    method SetGeneration(obj: FileObj) returns (stamped: FileObj)
      ensures stamped.location == obj.location
      ensures forall step :: Apply(generations, RegisterReader(step, stamped)).1 == Done
    {
      stamped := obj.(generation := Some(Current(generations, obj.location).generation));
    }
  }

  lemma {:induction false} RemoveFirstCounts(s: seq<string>, x: string)
    requires x in s
    ensures multiset(s) == multiset(RemoveFirst(s, x)) + multiset{x}
  {
    assert s == [s[0]] + s[1..];
    if s[0] != x { RemoveFirstCounts(s[1..], x); }
  }

  // ---------------------------------------------------------------- traces

  type Trace = seq<Call>

  function After(tr: Trace): Generations {
    if tr == [] then map[] else Apply(After(tr[..|tr| - 1]), tr[|tr| - 1]).0
  }

  /** The outcome of call `i` of the trace. */
  function OutcomeOf(tr: Trace, i: nat): Outcome
    requires i < |tr|
  {
    Apply(After(tr[..i]), tr[i]).1
  }

  function StateOf(tr: Trace, loc: string): MutationState {
    Current(After(tr), loc)
  }

  function Mutations(tr: Trace, loc: string): nat {
    if tr == [] then 0
    else
      var last := |tr| - 1;
      Mutations(tr[..last], loc) +
      if tr[last].RegisterMutation? && tr[last].obj.location == loc && OutcomeOf(tr, last) == Done then 1 else 0
  }

  /** Successful registrations less successful releases of `step` at `loc`. */
  function Reading(tr: Trace, loc: string, step: string): int {
    if tr == [] then 0
    else
      var last := |tr| - 1;
      var c := tr[last];
      Reading(tr[..last], loc, step) +
      if c.obj.location != loc || c.step != step || OutcomeOf(tr, last) != Done then 0
      else if c.RegisterReader? then 1 else if c.ReleaseReader? then -1 else 0
  }

  /** A location's generation is the number of successful mutations of it. */
  lemma {:induction false} GenerationCounts(tr: Trace, loc: string)
    ensures StateOf(tr, loc).generation == Mutations(tr, loc)
  {
    if tr != [] { GenerationCounts(tr[..|tr| - 1], loc); }
  }

  /** How one call changes how often a step is registered. */
  lemma ApplyCounts(g: Generations, c: Call, loc: string, step: string)
    ensures multiset(Current(Apply(g, c).0, loc).readers)[step] ==
            multiset(Current(g, loc).readers)[step] +
            if c.obj.location != loc || c.step != step || Apply(g, c).1 != Done then 0
            else if c.RegisterReader? then 1 else if c.ReleaseReader? then -1 else 0
  {
    var before, after := Current(g, loc).readers, Current(Apply(g, c).0, loc).readers;
    if c.obj.location == loc && Apply(g, c).1 == Done {
      if c.RegisterReader? {
        assert multiset(after) == multiset(before) + multiset{c.step};
      } else if c.ReleaseReader? {
        RemoveFirstCounts(before, c.step);
        assert multiset(before) == multiset(after) + multiset{c.step};
      } else {
        assert after == before;
      }
    } else {
      assert after == before;
    }
  }

  /** The readers of a location are exactly those registered and not yet released. */
  lemma {:induction false} ReadersCount(tr: Trace, loc: string, step: string)
    ensures multiset(StateOf(tr, loc).readers)[step] == Reading(tr, loc, step)
  {
    if tr != [] {
      var before, c := tr[..|tr| - 1], tr[|tr| - 1];
      ReadersCount(before, loc, step);
      ApplyCounts(After(before), c, loc, step);
    }
  }

  /** A mutation succeeds only while nobody reads: no registration is still open across it. */
  lemma NoReaderSpansMutation(tr: Trace, j: nat, step: string)
    requires j < |tr| && tr[j].RegisterMutation? && OutcomeOf(tr, j) == Done
    ensures Reading(tr[..j], tr[j].obj.location, step) == 0
  {
    ReadersCount(tr[..j], tr[j].obj.location, step);
  }

  /** The generation of a location never decreases. */
  lemma {:induction false} GenerationGrows(tr: Trace, k: nat, loc: string)
    requires k <= |tr|
    ensures StateOf(tr[..k], loc).generation <= StateOf(tr, loc).generation
  {
    if k == |tr| {
      assert tr[..k] == tr;
    } else {
      assert tr[..|tr| - 1][..k] == tr[..k];
      GenerationGrows(tr[..|tr| - 1], k, loc);
    }
  }

  /** Once overtaken, a generation is never accepted again, neither for reading nor for mutation. */
  lemma StaleIsRefused(tr: Trace, k: nat, c: Call)
    requires k <= |tr| && StateOf(tr[..k], c.obj.location).generation > Generation(c.obj)
    ensures Apply(After(tr), c) == (After(tr), Refused)
  {
    GenerationGrows(tr, k, c.obj.location);
  }

  ghost predicate Releases(tr: Trace, k: nat, step: string, loc: string)
    requires k < |tr|
  {
    tr[k].ReleaseReader? && tr[k].step == step && tr[k].obj.location == loc && OutcomeOf(tr, k) == Done
  }

  lemma KeepsReader(g: Generations, c: Call, step: string, loc: string)
    requires loc in g && step in g[loc].readers
    requires !(c.ReleaseReader? && c.step == step && c.obj.location == loc && Apply(g, c).1 == Done)
    ensures var g' := Apply(g, c).0;
            loc in g' && step in g'[loc].readers && g'[loc].generation == g[loc].generation
  {
    var readers := g[loc].readers;
    if c.ReleaseReader? && c.obj.location == loc && c.step in readers {
      RemoveFirstCounts(readers, c.step);
      assert step in multiset(readers);
      assert multiset(readers)[step] == multiset(RemoveFirst(readers, c.step))[step] + multiset{c.step}[step];
    }
  }

  /** From registration on, as long as the reader is not released, it stays registered and the generation stays put. */
  lemma {:induction false} StaysReading(tr: Trace, i: nat)
    requires i < |tr| && tr[i].RegisterReader? && OutcomeOf(tr, i) == Done
    requires forall k :: i < k < |tr| ==> !Releases(tr, k, tr[i].step, tr[i].obj.location)
    ensures var now := StateOf(tr, tr[i].obj.location);
            tr[i].step in now.readers && now.generation == Generation(tr[i].obj) && tr[i].obj.location in After(tr)
  {
    var last := |tr| - 1;
    if i == last {
      assert tr[..i] == tr[..last];
    } else {
      var before := tr[..last];
      assert before[..i] == tr[..i];
      forall k | i < k < |before| ensures !Releases(before, k, before[i].step, before[i].obj.location) {
        assert before[..k] == tr[..k] && !Releases(tr, k, tr[i].step, tr[i].obj.location);
      }
      StaysReading(before, i);
      assert !Releases(tr, last, tr[i].step, tr[i].obj.location);
      KeepsReader(After(before), tr[last], tr[i].step, tr[i].obj.location);
    }
  }

  /** A matching release never raises: the first release after a registration, with the same object, succeeds. */
  lemma MatchingRelease(tr: Trace, i: nat)
    requires i < |tr| && tr[i].RegisterReader? && OutcomeOf(tr, i) == Done
    requires forall k :: i < k < |tr| ==> !Releases(tr, k, tr[i].step, tr[i].obj.location)
    ensures Apply(After(tr), ReleaseReader(tr[i].step, tr[i].obj)).1 == Done
  {
    StaysReading(tr, i);
  }

  /**
   What each call does, in terms of the history alone: reading needs the generation, 0 if the
   object has none, to be the number of mutations so far, a release needs an open registration as
   well, and a mutation needs that nobody has one, a step that registered twice and released once
   included. Only a release by a step that is not reading fails otherwise than by refusal.
   */
  lemma OutcomesExact(tr: Trace, c: Call)
    ensures var current := (c.obj.generation.None? && Mutations(tr, c.obj.location) == 0)
                           || c.obj.generation == Some(Mutations(tr, c.obj.location));
            && (Apply(After(tr), c).1 == Done <==>
                  && current
                  && (c.ReleaseReader? ==> Reading(tr, c.obj.location, c.step) > 0)
                  && (c.RegisterMutation? ==> forall other :: Reading(tr, c.obj.location, other) == 0))
            && (Apply(After(tr), c).1 == NotReading <==>
                  c.ReleaseReader? && current && Reading(tr, c.obj.location, c.step) <= 0)
    ensures Apply(After(tr), c).1 != Done ==> Apply(After(tr), c).0 == After(tr)
  {
    var loc := c.obj.location;
    var readers := StateOf(tr, loc).readers;
    GenerationCounts(tr, loc);
    forall step ensures multiset(readers)[step] == Reading(tr, loc, step) { ReadersCount(tr, loc, step); }
    assert c.step in readers <==> c.step in multiset(readers);
    if readers != [] { assert readers[0] in multiset(readers) && Reading(tr, loc, readers[0]) > 0; }
  }
}
