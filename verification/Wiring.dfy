/**
 When the hypotheses of the progress theorems hold: a static condition under which step inputs
 never raise, and a workflow of two steps that meets all of them.
 */
module Wiring {
  import opened Values
  import opened InputAssembly
  import opened CycleCheck
  import opened Scheduler
  import opened Progress

  ghost predicate Known(wf: Workflow, src: string) {
    src in OutputIds(wf) || exists i :: 0 <= i < |wf.inputs| && wf.inputs[i].id == src
  }

  ghost predicate HasInput(inputs: seq<Input>, k: nat, id: string, typ: CwlType)
    requires k <= |inputs|
  {
    exists i :: 0 <= i < k && inputs[i].id == id && inputs[i].typ == typ
  }

  /** Some step output or workflow input of that id is declared with type `typ`. */
  ghost predicate Declared(wf: Workflow, src: string, typ: CwlType) {
    || (exists s, o :: s in wf.steps && o in s.outputs && o.id == src && o.typ == typ)
    || HasInput(wf.inputs, |wf.inputs|, src, typ)
  }

  /** The source exists, and fits the parameter by its declared type. */
  ghost predicate SourceFits(wf: Workflow, p: Param, src: string) {
    && Known(wf, src)
    && forall typ :: Declared(wf, src, typ) ==> Fits(StepMode(wf), p.typ, typ, EffectiveMerge(p), p.valueFrom)
  }

  /**
   What static checking can establish of one step input: its sources exist and fit, the merge is
   one of the two, no `pickValue` depends on which values are null, and there is some value.
   */
  ghost predicate Wired(wf: Workflow, p: Param) {
    && (p.sources.Some? ==> (|p.sources.value| > 1 ==> wf.multipleInput))
    && (p.sources.Some? ==> forall src :: src in p.sources.value ==> SourceFits(wf, p, src))
    && (EffectiveMerge(p).Some? ==> !EffectiveMerge(p).value.Unrecognized?)
    && (p.pickValue.Some? ==> p.pickValue.value.AllNonNull? || p.pickValue.value.OtherPick?)
    && ((p.sources.Some? && p.sources.value != []) || p.default.Some? || p.valueFrom.Some?)
  }

  /** The source has its place in the state, and its value the declared type. */
  ghost predicate AsDeclaredAt(wf: Workflow, G: State, src: string) {
    src in G && (G[src].Some? ==> Declared(wf, src, G[src].value.typ))
  }

  ghost predicate AsDeclared(wf: Workflow, G: State) {
    forall src :: Known(wf, src) ==> AsDeclaredAt(wf, G, src)
  }

  lemma {:induction false} GivenTypes(inputs: seq<Input>, k: nat, job: Object, id: string)
    requires k <= |inputs| && InputState(inputs, k, job).Some? && exists i :: 0 <= i < k && inputs[i].id == id
    ensures var given := InputState(inputs, k, job).value;
            id in given && given[id].Some? && HasInput(inputs, k, id, given[id].value.typ)
  {
    if inputs[k - 1].id == id {
      assert inputs[k - 1].typ == InputState(inputs, k, job).value[id].value.typ;
    } else {
      GivenTypes(inputs, k - 1, job, id);
    }
  }

  lemma OutputAsDeclared(wf: Workflow, G: State, src: string)
    requires Typed(wf, G) && src in OutputIds(wf) && src in G
    ensures AsDeclaredAt(wf, G, src)
  {
    var s, o :| s in wf.steps && o in s.outputs && o.id == src;
  }

  lemma InitKeepsGiven(wf: Workflow, job: Object, id: string)
    requires Init(wf, job).Some? && id !in OutputIds(wf) && id in InputState(wf.inputs, |wf.inputs|, job).value
    ensures var init, given := Init(wf, job).value.state, InputState(wf.inputs, |wf.inputs|, job).value;
            id in init && init[id] == given[id]
  {}

  lemma InputAsDeclared(wf: Workflow, job: Object, G: State, i: nat)
    requires ValidWorkflow(wf) && Init(wf, job).Some? && Below(Init(wf, job).value.state, G) && i < |wf.inputs|
    ensures AsDeclaredAt(wf, G, wf.inputs[i].id)
  {
    GivenTypes(wf.inputs, |wf.inputs|, job, wf.inputs[i].id);
    InitKeepsGiven(wf, job, wf.inputs[i].id);
  }

  lemma InitHasOutputs(wf: Workflow, job: Object)
    requires Init(wf, job).Some?
    ensures OutputIds(wf) <= Init(wf, job).value.state.Keys
  {}

  lemma TypedAsDeclared(wf: Workflow, job: Object, G: State)
    requires ValidWorkflow(wf) && Init(wf, job).Some? && Below(Init(wf, job).value.state, G) && Typed(wf, G)
    ensures AsDeclared(wf, G)
  {
    InitHasOutputs(wf, job);
    forall src | Known(wf, src) ensures AsDeclaredAt(wf, G, src) {
      if src in OutputIds(wf) {
        OutputAsDeclared(wf, G, src);
      } else {
        var i :| 0 <= i < |wf.inputs| && wf.inputs[i].id == src;
        InputAsDeclared(wf, job, G, i);
      }
    }
  }

  lemma {:induction false} WiredGathers(wf: Workflow, G: State, p: Param, k: nat)
    requires Wired(wf, p) && AsDeclared(wf, G) && p.sources.Some? && k <= |p.sources.value|
    ensures var g := Gather(StepMode(wf), G, p, k); g.Waiting? || (g.Got? && (k > 0 ==> g.vals != []))
  {
    if k > 0 {
      WiredGathers(wf, G, p, k - 1);
      assert SourceFits(wf, p, p.sources.value[k - 1]);
    }
  }

  lemma WiredSlot(wf: Workflow, G: State, p: Param)
    requires Wired(wf, p) && AsDeclared(wf, G)
    ensures !ParamSlot(StepMode(wf), G, p).Bad?
  {
    if p.sources.Some? { WiredGathers(wf, G, p, |p.sources.value|); }
  }

  lemma {:induction false} NoBadSlot(m: Mode, G: State, params: seq<Param>, k: nat)
    requires k <= |params| && forall i :: 0 <= i < k ==> !ParamSlot(m, G, params[i]).Bad?
    ensures !AssembleUpTo(m, G, params, k).Raises?
  {
    if k > 0 { NoBadSlot(m, G, params, k - 1); }
  }

  /** Statically well-wired inputs never raise; with tools that always report well the steps succeed. */
  lemma WiredSucceeds(wf: Workflow, job: Object)
    requires ValidWorkflow(wf) && Init(wf, job).Some?
    requires forall s, p :: s in wf.steps && p in s.inputs ==> Wired(wf, p)
    requires forall s, obj :: s in wf.steps ==> ReportsWell(wf, s, obj)
    ensures StepsSucceed(wf, Init(wf, job).value.state)
  {
    forall G, s | Below(Init(wf, job).value.state, G) && Typed(wf, G) && s in wf.steps ensures SucceedsIn(wf, G, s) {
      TypedAsDeclared(wf, job, G);
      forall i | 0 <= i < |s.inputs| ensures !ParamSlot(StepMode(wf), G, s.inputs[i]).Bad? {
        WiredSlot(wf, G, s.inputs[i]);
      }
      NoBadSlot(StepMode(wf), G, s.inputs, |s.inputs|);
    }
  }

  // ---------------------------------------------------------------- a workflow of two steps

  const ANY := Named("Any")

  /** Step `b` consumes, in its field `sink`, the output `link` of step `a`. */
  function Chain(a: string, b: string, link: string, sink: string): Workflow {
    var p := Param(sink, "y", ANY, Some([link]), None, None, None, None);
    Workflow([], [Step(a, [], [Output(link, ANY)], false), Step(b, [p], [], false)], [], false,
             (_, _) => true, (_, _) => Runs(map[link := Null], Success))
  }

  ghost predicate ChainNames(a: string, b: string, link: string, sink: string) {
    a != b && '#' in link && GetStepId(link) == a && '#' in sink && GetStepId(sink) == b
  }

  lemma ChainSteps(a: string, b: string, link: string, sink: string)
    ensures var wf := Chain(a, b, link, sink);
            Ids(wf.steps) == {a, b} && OutputIds(wf) == {link} && StepInputs(wf.steps) == wf.steps[1].inputs
  {
    var wf := Chain(a, b, link, sink);
    var first, second := wf.steps[0], wf.steps[1];
    assert wf.steps[..1] == [first] && [first][..0] == [];
    assert StepInputs([first]) == [];
    assert wf.steps == [first, second];
  }

  lemma ChainValid(a: string, b: string, link: string, sink: string)
    requires a != b
    ensures ValidWorkflow(Chain(a, b, link, sink))
  {
    ChainSteps(a, b, link, sink);
    var wf := Chain(a, b, link, sink);
    assert |{a, b}| == 2;
    forall s | s in wf.steps ensures s == wf.steps[0] || s == wf.steps[1] {}
    forall s, o | s in wf.steps && o in s.outputs ensures s == wf.steps[0] && o == Output(link, ANY) {}
  }

  lemma ChainNamed(a: string, b: string, link: string, sink: string)
    requires ChainNames(a, b, link, sink)
    ensures NamedByStep(Chain(a, b, link, sink))
  {
    var wf := Chain(a, b, link, sink);
    forall s | s in wf.steps
      ensures forall p :: p in s.inputs ==> HasIds(p) && GetStepId(p.id) == s.id
      ensures forall o :: o in s.outputs ==> '#' in o.id && GetStepId(o.id) == s.id
    {
      assert s == wf.steps[0] || s == wf.steps[1];
    }
  }

  lemma ChainAccepted(a: string, b: string, link: string, sink: string)
    requires ChainNames(a, b, link, sink)
    ensures Accepted(Chain(a, b, link, sink), [b, a])
  {
    ChainSteps(a, b, link, sink);
    var order, p := [b, a], Chain(a, b, link, sink).steps[1].inputs[0];
    assert order[..1] == [b] && Rank([b], b) == 0;
    assert Rank(order, a) == 1 && Rank(order, b) == 0;
    assert HasIds(p) && forall u, v :: Links(p, u, v) ==> u == a && v == b;
  }

  lemma ChainInit(job: Object, a: string, b: string, link: string, sink: string)
    ensures Init(Chain(a, b, link, sink), job) == Some(Sched(map[link := None], map[], {}, Success, []))
  {
    ChainSteps(a, b, link, sink);
    var wf := Chain(a, b, link, sink);
    assert InputState(wf.inputs, 0, job) == Some(map[]);
    var blank: State, given: State := map[link := None], map[];
    assert given + (map id | id in OutputIds(wf) :: None) == blank;
  }

  lemma ChainWired(a: string, b: string, link: string, sink: string)
    ensures var wf := Chain(a, b, link, sink); forall s, p :: s in wf.steps && p in s.inputs ==> Wired(wf, p)
  {
    ChainSteps(a, b, link, sink);
    var wf := Chain(a, b, link, sink);
    forall s, p | s in wf.steps && p in s.inputs ensures Wired(wf, p) {
      assert p == wf.steps[1].inputs[0];
      assert SourceFits(wf, p, link);
    }
  }

  lemma ChainReports(a: string, b: string, link: string, sink: string)
    ensures var wf := Chain(a, b, link, sink); forall s, obj :: s in wf.steps ==> ReportsWell(wf, s, obj)
  {
    var wf := Chain(a, b, link, sink);
    forall s, obj | s in wf.steps ensures ReportsWell(wf, s, obj) {
      assert s == wf.steps[0] || s == wf.steps[1];
    }
  }

  /** Two steps of any names, one consuming the other's output, meet the hypotheses of the progress theorems. */
  lemma ChainSucceeds(job: Object, a: string, b: string, link: string, sink: string)
    requires ChainNames(a, b, link, sink)
    ensures Succeeding(Chain(a, b, link, sink), job, [b, a])
  {
    ChainValid(a, b, link, sink);
    ChainNamed(a, b, link, sink);
    ChainAccepted(a, b, link, sink);
    ChainInit(job, a, b, link, sink);
    ChainWired(a, b, link, sink);
    ChainReports(a, b, link, sink);
    WiredSucceeds(Chain(a, b, link, sink), job);
  }
}
