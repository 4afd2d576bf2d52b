/**
 Both halves of the circular-dependency check, in terms of runs: a ring of steps never starts, in
 any run, so the check accepts exactly the workflows that some run can complete.
 */
module StaticCheck {
  import opened Values
  import opened InputAssembly
  import opened CycleCheck
  import opened Scheduler
  import opened Progress

  /** No workflow input carries a step's id. */
  ghost predicate InputsApart(wf: Workflow) {
    forall i :: 0 <= i < |wf.inputs| ==> '#' in wf.inputs[i].id && GetStepId(wf.inputs[i].id) !in Ids(wf.steps)
  }

  /** What the check is given: parameters and workflow inputs with ids of their own steps and documents. */
  ghost predicate Checkable(wf: Workflow) {
    && ValidWorkflow(wf) && NamedByStep(wf) && InputsApart(wf)
    && forall i :: 0 <= i < |StepInputs(wf.steps)| ==> HasIds(StepInputs(wf.steps)[i])
  }

  // ---------------------------------------------------------------- a ring of steps

  lemma {:induction false} StepInputsFrom(steps: seq<Step>, p: Param) returns (s: Step)
    requires p in StepInputs(steps)
    ensures s in steps && p in s.inputs
  {
    var last := steps[|steps| - 1];
    if p in last.inputs {
      s := last;
    } else {
      s := StepInputsFrom(steps[..|steps| - 1], p);
    }
  }

  /** Step `t` consumes an output of a step with id `u`. */
  ghost predicate Consumes(t: Step, u: string, p: Param, src: string) {
    p in t.inputs && p.sources.Some? && src in p.sources.value && '#' in src && GetStepId(src) == u
  }

  lemma LinkedStep(wf: Workflow, u: string, v: string) returns (t: Step, p: Param, src: string)
    requires Checkable(wf) && SomeLink(StepInputs(wf.steps), |StepInputs(wf.steps)|, u, v)
    ensures t in wf.steps && t.id == v && Consumes(t, u, p, src)
  {
    var inputs := StepInputs(wf.steps);
    var i :| 0 <= i < |inputs| && Links(inputs[i], u, v);
    p := inputs[i];
    t := StepInputsFrom(wf.steps, p);
    var j :| 0 <= j < |p.sources.value| && GetStepId(p.sources.value[j]) == u;
    src := p.sources.value[j];
  }

  /** On a ring every step follows another one. */
  lemma RingLink(wf: Workflow, ring: seq<string>, v: string) returns (u: string)
    requires Checkable(wf) && DependencyCycle(StepInputs(wf.steps), ring) && v in ring
    ensures u in ring && SomeLink(StepInputs(wf.steps), |StepInputs(wf.steps)|, u, v)
  {
    var i :| 0 <= i < |ring| && ring[i] == v;
    u := if i == 0 then ring[|ring| - 1] else ring[i - 1];
    assert i > 0 ==> SomeLink(StepInputs(wf.steps), |StepInputs(wf.steps)|, ring[i - 1], ring[i - 1 + 1]);
  }

  /** Step `t` consumes an output of a step of the ring. */
  ghost predicate Follower(t: Step, ring: seq<string>) {
    exists u, p, src :: u in ring && Consumes(t, u, p, src)
  }

  /** Every member of the ring is a step that follows another one. */
  ghost predicate Ring(wf: Workflow, ring: seq<string>) {
    forall v :: v in ring ==> v in Ids(wf.steps) && forall t :: t in wf.steps && t.id == v ==> Follower(t, ring)
  }

  lemma CycleIsRing(wf: Workflow, ring: seq<string>)
    requires Checkable(wf) && DependencyCycle(StepInputs(wf.steps), ring)
    ensures Ring(wf, ring) && ring != []
  {
    forall v | v in ring
      ensures v in Ids(wf.steps) && forall t :: t in wf.steps && t.id == v ==> Follower(t, ring)
    {
      var u := RingLink(wf, ring, v);
      var t, p, src := LinkedStep(wf, u, v);
      assert Follower(t, ring);
    }
  }

  /** The steps of the ring have neither started nor completed. */
  ghost predicate RingWaits(ring: seq<string>, c: Sched) {
    forall v :: v in ring ==> v !in c.running && v !in c.completed
  }

  /** A source named after a step that has not completed has no value. */
  lemma NothingFrom(wf: Workflow, job: Object, c: Sched, src: string)
    requires Checkable(wf) && Init(wf, job).Some? && Sound(wf, Init(wf, job).value.state, c)
    requires '#' in src && GetStepId(src) in Ids(wf.steps) && GetStepId(src) !in c.completed
    ensures !Available(StepMode(wf), c.state, src)
  {
    if src in c.state {
      InputsGiven(wf.inputs, |wf.inputs|, job);
      assert Given(wf.inputs, InputState(wf.inputs, |wf.inputs|, job).value);
      assert src in OutputIds(wf);
      var s, o :| s in wf.steps && o in s.outputs && o.id == src;
      assert Blank(c.state, s);
    }
  }

  lemma {:induction false} GatheredAvailable(m: Mode, state: State, p: Param, k: nat, j: nat)
    requires p.sources.Some? && j < k <= |p.sources.value| && !m.incomplete && Gather(m, state, p, k).Got?
    ensures Available(m, state, p.sources.value[j])
  {
    if j < k - 1 { GatheredAvailable(m, state, p, k - 1, j); }
  }

  /** Assembled inputs have all their sources. */
  lemma {:induction false} ReadyAvailable(m: Mode, state: State, params: seq<Param>, k: nat, p: Param, src: string)
    requires k <= |params| && p in params[..k] && !m.incomplete && AssembleUpTo(m, state, params, k).Ready?
    requires p.sources.Some? && src in p.sources.value
    ensures Available(m, state, src)
  {
    if p == params[k - 1] {
      var j :| 0 <= j < |p.sources.value| && p.sources.value[j] == src;
      GatheredAvailable(m, state, p, |p.sources.value|, j);
    } else {
      assert params[..k] == params[..k - 1] + [params[k - 1]];
      ReadyAvailable(m, state, params, k - 1, p, src);
    }
  }

  lemma SourceAwaited(m: Mode, state: State, params: seq<Param>, p: Param, src: string)
    requires p in params && p.sources.Some? && src in p.sources.value && !m.incomplete && !Available(m, state, src)
    ensures !Assemble(m, state, params).Ready?
  {
    assert params[..|params|] == params;
    if Assemble(m, state, params).Ready? { ReadyAvailable(m, state, params, |params|, p, src); }
  }

  /** A step that consumes an output of an incomplete step cannot be started. */
  lemma FollowerStays(wf: Workflow, job: Object, c: Sched, t: Step, u: string, p: Param, src: string)
    requires Checkable(wf) && Init(wf, job).Some? && Sound(wf, Init(wf, job).value.state, c)
    requires Consumes(t, u, p, src) && u in Ids(wf.steps) && u !in c.completed
    ensures !Assemble(StepMode(wf), c.state, t.inputs).Ready?
  {
    NothingFrom(wf, job, c, src);
    SourceAwaited(StepMode(wf), c.state, t.inputs, p, src);
  }

  lemma Followed(wf: Workflow, ring: seq<string>, t: Step) returns (u: string, p: Param, src: string)
    requires Ring(wf, ring) && t in wf.steps && t.id in ring
    ensures u in ring && u in Ids(wf.steps) && Consumes(t, u, p, src)
  {
    assert Follower(t, ring);
    u, p, src :| u in ring && Consumes(t, u, p, src);
  }

  /** A step of the ring cannot be started. */
  lemma RingStepStays(wf: Workflow, job: Object, ring: seq<string>, c: Sched, t: Step)
    requires Checkable(wf) && Ring(wf, ring) && RingWaits(ring, c) && t in wf.steps && t.id in ring
    requires Init(wf, job).Some? && Sound(wf, Init(wf, job).value.state, c)
    ensures !Assemble(StepMode(wf), c.state, t.inputs).Ready?
  {
    var u, p, src := Followed(wf, ring, t);
    FollowerStays(wf, job, c, t, u, p, src);
  }

  /** Neither running nor completed, and not to be started. */
  ghost predicate Idle(wf: Workflow, c: Sched, v: string) {
    && v !in c.running && v !in c.completed
    && forall s :: s in wf.steps && s.id == v ==> !Assemble(StepMode(wf), c.state, s.inputs).Ready?
  }

  lemma TriedIdle(wf: Workflow, c: Sched, s: Step, v: string)
    requires Idle(wf, c, v) && s in wf.steps
    ensures v !in Tried(wf, c, s).running && v !in Tried(wf, c, s).completed
  {
    ReceivedSets(wf, c, s, SkipReport(s));
  }

  /** One step of the scheduler neither starts nor completes it. */
  lemma NextIdle(wf: Workflow, c: Sched, c': Sched, v: string)
    requires Next(wf, c, c') && Idle(wf, c, v)
    ensures v !in c'.running && v !in c'.completed
  {
    if c.calls == [] && exists s :: s in wf.steps && c' == Tried(wf, c, s) {
      var s :| s in wf.steps && c' == Tried(wf, c, s);
      TriedIdle(wf, c, s, v);
    } else if s :| s in wf.steps && s.id in c.running && c' == Received(wf, c, s, c.running[s.id]) {
      ReceivedSets(wf, c, s, c.running[s.id]);
    } else {
      CalledFacts(wf, c);
    }
  }

  lemma NextRingWaits(wf: Workflow, job: Object, ring: seq<string>, c: Sched, c': Sched)
    requires Checkable(wf) && Ring(wf, ring) && RingWaits(ring, c)
    requires Init(wf, job).Some? && Sound(wf, Init(wf, job).value.state, c) && Next(wf, c, c')
    ensures RingWaits(ring, c')
  {
    forall v | v in ring ensures v !in c'.running && v !in c'.completed {
      forall t | t in wf.steps && t.id == v ensures !Assemble(StepMode(wf), c.state, t.inputs).Ready? {
        RingStepStays(wf, job, ring, c, t);
      }
      NextIdle(wf, c, c', v);
    }
  }

  lemma InitRingWaits(wf: Workflow, job: Object, ring: seq<string>)
    requires Init(wf, job).Some?
    ensures RingWaits(ring, Init(wf, job).value)
  {}

  lemma {:induction false} RingWaitsOn(wf: Workflow, job: Object, ring: seq<string>, c0: Sched, more: seq<Sched>)
    requires Checkable(wf) && Ring(wf, ring) && Init(wf, job) == Some(c0) && Continuation(wf, c0, more)
    ensures RingWaits(ring, EndOf(c0, more)) && Sound(wf, c0.state, EndOf(c0, more))
  {
    if more == [] {
      InitRingWaits(wf, job, ring);
      InitSound(wf, job);
    } else {
      var before := more[..|more| - 1];
      RingWaitsOn(wf, job, ring, c0, before);
      NextRingWaits(wf, job, ring, EndOf(c0, before), EndOf(c0, more));
      NextSound(wf, c0.state, EndOf(c0, before), EndOf(c0, more));
    }
  }

  /** No step on a ring of dependencies ever starts, in any run, failing or not. */
  lemma RingNeverStarts(wf: Workflow, job: Object, ring: seq<string>, run: seq<Sched>, i: nat)
    requires Checkable(wf) && DependencyCycle(StepInputs(wf.steps), ring) && IsRun(wf, job, run) && i < |run|
    ensures RingWaits(ring, run[i]) && forall v :: v in ring ==> v in Ids(wf.steps)
  {
    CycleIsRing(wf, ring);
    RunContinues(wf, job, run, i);
    RingWaitsOn(wf, job, ring, run[0], run[1..i + 1]);
  }

  /** So no run of a workflow that the check rejects completes all steps. */
  lemma RejectedNeverCompletes(wf: Workflow, job: Object, ring: seq<string>, run: seq<Sched>, i: nat)
    requires Checkable(wf) && DependencyCycle(StepInputs(wf.steps), ring) && IsRun(wf, job, run) && i < |run|
    ensures run[i].completed != Ids(wf.steps) && |run[i].completed| < |wf.steps|
  {
    RingNeverStarts(wf, job, ring, run, i);
    RunSound(wf, job, run, i);
    assert ring[0] in Ids(wf.steps) && ring[0] !in run[i].completed;
    CountedAll(wf, run[i].completed);
    CountBound(wf, run[i].completed);
  }

  // ---------------------------------------------------------------- the check decides

  ghost predicate Completes(wf: Workflow, job: Object, run: seq<Sched>) {
    IsRun(wf, job, run) && run[|run| - 1].completed == Ids(wf.steps)
  }

  lemma AcceptedCompletes(wf: Workflow, job: Object, order: seq<string>) returns (run: seq<Sched>)
    requires Succeeding(wf, job, order)
    ensures Completes(wf, job, run)
  {
    var c0 := Init(wf, job).value;
    var F, more := EveryRunCompletes(wf, job, order, [c0]);
    run := ContinuedRun(wf, job, c0, more);
  }

  /** If each step succeeds on its own, the check accepts exactly the workflows that some run completes. */
  method CheckDecides(wf: Workflow, ghost job: Object) returns (accepted: bool)
    requires Checkable(wf) && Init(wf, job).Some? && StepsSucceed(wf, Init(wf, job).value.state)
    ensures accepted <==> exists run :: Completes(wf, job, run)
  {
    var inputs := StepInputs(wf.steps);
    var order;
    accepted, order := CircularDependencyChecker(inputs);
    if accepted {
      ghost var run := AcceptedCompletes(wf, job, order);
    } else {
      ghost var ring :| DependencyCycle(inputs, ring);
      forall run ensures !Completes(wf, job, run) {
        if IsRun(wf, job, run) { RejectedNeverCompletes(wf, job, ring, run, |run| - 1); }
      }
    }
  }
}
