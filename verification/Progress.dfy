/**
 Progress of the scheduler on workflows that pass the circular-dependency check, in every
 interleaving: no deadlock, existence of the solution that all runs end in, and confluence.
 */
module Progress {
  import opened Values
  import opened InputAssembly
  import opened CycleCheck
  import opened Scheduler

  /** The inputs of all steps, as the static check receives them. */
  function StepInputs(steps: seq<Step>): seq<Param> {
    if steps == [] then [] else StepInputs(steps[..|steps| - 1]) + steps[|steps| - 1].inputs
  }

  lemma {:induction false} StepInputsHolds(steps: seq<Step>, s: Step, p: Param)
    requires s in steps && p in s.inputs
    ensures p in StepInputs(steps)
  {
    assert steps == steps[..|steps| - 1] + [steps[|steps| - 1]];
    if s != steps[|steps| - 1] { StepInputsHolds(steps[..|steps| - 1], s, p); }
  }

  /** Parameters are named after the step that owns them. */
  ghost predicate NamedByStep(wf: Workflow) {
    forall s :: s in wf.steps ==>
      && (forall p :: p in s.inputs ==> HasIds(p) && GetStepId(p.id) == s.id)
      && (forall o :: o in s.outputs ==> '#' in o.id && GetStepId(o.id) == s.id)
  }

  /** The circular-dependency check accepted the workflow and left this order. */
  ghost predicate Accepted(wf: Workflow, order: seq<string>) {
    && (forall i :: 0 <= i < |StepInputs(wf.steps)| ==> HasIds(StepInputs(wf.steps)[i]))
    && Schedulable(StepInputs(wf.steps), order)
  }

  /** A workflow the static check accepts, with all its required inputs given. */
  ghost predicate Scheduled(wf: Workflow, job: Object, order: seq<string>) {
    ValidWorkflow(wf) && NamedByStep(wf) && Accepted(wf, order) && Init(wf, job).Some?
  }

  /** An incomplete step of the highest rank among the first `k`. */
  lemma {:induction false} HighestIncomplete(wf: Workflow, c: Sched, order: seq<string>, k: nat) returns (t: Step)
    requires k <= |wf.steps| && exists i :: 0 <= i < k && wf.steps[i].id !in c.completed
    ensures t in wf.steps && t.id !in c.completed
    ensures forall s :: s in wf.steps[..k] && s.id !in c.completed ==> Rank(order, s.id) <= Rank(order, t.id)
  {
    var s := wf.steps[k - 1];
    if exists i :: 0 <= i < k - 1 && wf.steps[i].id !in c.completed {
      t := HighestIncomplete(wf, c, order, k - 1);
      if s.id !in c.completed && Rank(order, s.id) > Rank(order, t.id) { t := s; }
    } else {
      t := s;
    }
  }

  lemma SettledAvailable(wf: Workflow, F: State, u: Step, o: Output)
    requires Settled(wf, F, u) && o in u.outputs
    ensures Available(StepMode(wf), F, o.id)
  {
    assert Stands(F, o, ReportOf(wf, u, Assemble(StepMode(wf), F, u.inputs).obj).value);
  }

  /** An awaited source is an output of an incomplete step. */
  lemma AwaitedOwner(wf: Workflow, job: Object, c: Sched, src: string) returns (u: Step)
    requires ValidWorkflow(wf) && Init(wf, job).Some?
    requires Sound(wf, Init(wf, job).value.state, c) && c.status == Success
    requires src in c.state && !Available(StepMode(wf), c.state, src)
    ensures u in wf.steps && u.id !in c.completed && !Elsewhere(u.outputs, src)
  {
    InputsGiven(wf.inputs, |wf.inputs|, job);
    var given := InputState(wf.inputs, |wf.inputs|, job).value;
    assert Given(wf.inputs, given);
    assert src in OutputIds(wf);
    var o;
    u, o :| u in wf.steps && o in u.outputs && o.id == src;
    if u.id in c.completed { SettledAvailable(wf, c.state, u, o); }
  }

  /** The step that owns a source of `t` has a higher rank than `t`. */
  lemma OwnerRanksHigher(wf: Workflow, order: seq<string>, t: Step, u: Step, p: Param, src: string)
    requires NamedByStep(wf) && Accepted(wf, order) && t in wf.steps && u in wf.steps
    requires p in t.inputs && p.sources.Some? && src in p.sources.value && !Elsewhere(u.outputs, src)
    ensures Rank(order, t.id) < Rank(order, u.id)
  {
    StepInputsHolds(wf.steps, t, p);
    var i :| 0 <= i < |StepInputs(wf.steps)| && StepInputs(wf.steps)[i] == p;
    assert Links(p, u.id, t.id);
  }

  lemma SomeIncomplete(wf: Workflow, completed: set<string>)
    requires ValidWorkflow(wf) && completed <= Ids(wf.steps) && |completed| < |wf.steps|
    ensures exists i :: 0 <= i < |wf.steps| && wf.steps[i].id !in completed
  {
    CountedAll(wf, completed);
    var id :| id in Ids(wf.steps) && id !in completed;
    var s :| s in wf.steps && s.id == id;
  }

  /**
   No deadlock: while steps are incomplete and nothing has failed, some step is running or
   some unsubmitted step has all the inputs it waits for.
   */
  lemma NoDeadlock(wf: Workflow, job: Object, c: Sched, order: seq<string>) returns (t: Step)
    requires ValidWorkflow(wf) && NamedByStep(wf) && Accepted(wf, order)
    requires Init(wf, job).Some? && Sound(wf, Init(wf, job).value.state, c)
    requires c.status == Success && |c.completed| < |wf.steps|
    ensures t in wf.steps && t.id !in c.completed
    ensures t.id in c.running || Assemble(StepMode(wf), c.state, t.inputs) != NotReady
  {
    SomeIncomplete(wf, c.completed);
    t := HighestIncomplete(wf, c, order, |wf.steps|);
    if Assemble(StepMode(wf), c.state, t.inputs) == NotReady {
      var src := NotReadyAwaits(StepMode(wf), c.state, t.inputs, |t.inputs|);
      var u := AwaitedOwner(wf, job, c, src);
      var p :| p in t.inputs && p.sources.Some? && src in p.sources.value;
      OwnerRanksHigher(wf, order, t, u, p, src);
    }
  }

  // ---------------------------------------------------------------- the solution exists

  /** On the inputs `obj` the step reports success or skipped, with all its outputs. */
  ghost predicate ReportsWell(wf: Workflow, s: Step, obj: Object) {
    var rep := ReportOf(wf, s, obj);
    rep.Some? && Usable(rep.value.status) && forall o :: o in s.outputs ==> o.id in rep.value.jobout
  }

  /** Step outputs stand with their declared types and usable statuses. */
  ghost predicate Typed(wf: Workflow, G: State) {
    forall s, o :: s in wf.steps && o in s.outputs && o.id in G && G[o.id].Some? ==>
      G[o.id].value.typ == o.typ && Usable(G[o.id].value.status)
  }

  /** The step's inputs do not raise in `G`, and once they are assembled it reports well. */
  ghost predicate SucceedsIn(wf: Workflow, G: State, s: Step) {
    var a := Assemble(StepMode(wf), G, s.inputs);
    !a.Raises? && (a.Ready? ==> ReportsWell(wf, s, a.obj))
  }

  /** Each step succeeds on its own, in whatever state the workflow could come to. */
  ghost predicate StepsSucceed(wf: Workflow, init: State) {
    forall G, s :: Below(init, G) && Typed(wf, G) && s in wf.steps ==> SucceedsIn(wf, G, s)
  }

  /** The workflow is accepted and its steps succeed. */
  ghost predicate Succeeding(wf: Workflow, job: Object, order: seq<string>) {
    Scheduled(wf, job, order) && StepsSucceed(wf, Init(wf, job).value.state)
  }

  lemma SuccessTyped(wf: Workflow, init: State, c: Sched)
    requires ValidWorkflow(wf) && Sound(wf, init, c) && c.status == Success
    ensures Typed(wf, c.state)
  {
    forall s, o | s in wf.steps && o in s.outputs && o.id in c.state && c.state[o.id].Some?
      ensures c.state[o.id].value.typ == o.typ && Usable(c.state[o.id].value.status)
    {
      if s.id in c.completed {
        assert Settled(wf, c.state, s);
        assert Stands(c.state, o, ReportOf(wf, s, Assemble(StepMode(wf), c.state, s.inputs).obj).value);
      }
    }
  }

  /** A report without missing outputs keeps the success. */
  lemma AbsorbedWell(wf: Workflow, c: Sched, t: Step, obj: Object)
    requires ReportsWell(wf, t, obj) && c.status == Success && c.running == map[] && t.id !in c.completed
    ensures var c' := Absorbed(c, t, ReportOf(wf, t, obj).value);
            c'.status == Success && c'.running == map[] && |c'.completed| == |c.completed| + 1
  {
    RecordedUsable(t.outputs, |t.outputs|, ReportOf(wf, t, obj).value, c.state);
  }

  /** While nothing is running, some incomplete step is ready and reports well. */
  lemma NextReady(wf: Workflow, job: Object, order: seq<string>, c: Sched) returns (t: Step, obj: Object)
    requires Succeeding(wf, job, order) && Sound(wf, Init(wf, job).value.state, c)
    requires c.status == Success && c.running == map[] && |c.completed| < |wf.steps|
    ensures t in wf.steps && t.id !in c.completed
    ensures Assemble(StepMode(wf), c.state, t.inputs) == Ready(obj) && ReportsWell(wf, t, obj)
  {
    t := NoDeadlock(wf, job, c, order);
    SuccessTyped(wf, Init(wf, job).value.state, c);
    assert SucceedsIn(wf, c.state, t);
    obj := Assemble(StepMode(wf), c.state, t.inputs).obj;
  }

  /** The next step of a succeeding workflow completes, one step after the other. */
  lemma CompleteOneMore(wf: Workflow, job: Object, order: seq<string>, c: Sched) returns (c': Sched)
    requires Succeeding(wf, job, order) && Sound(wf, Init(wf, job).value.state, c)
    requires c.status == Success && c.running == map[] && |c.completed| < |wf.steps|
    ensures Sound(wf, Init(wf, job).value.state, c') && c'.status == Success && c'.running == map[]
    ensures |c'.completed| == |c.completed| + 1
  {
    var t, obj := NextReady(wf, job, order, c);
    var rep := ReportOf(wf, t, obj).value;
    c' := Absorbed(c, t, rep);
    AbsorbedWell(wf, c, t, obj);
    AbsorbedSound(wf, Init(wf, job).value.state, c, t, rep);
  }

  /** Accepted and succeeding: the dataflow equations have a solution. */
  lemma SolutionExists(wf: Workflow, job: Object, order: seq<string>) returns (F: State)
    requires Succeeding(wf, job, order)
    ensures Solution(wf, Init(wf, job).value.state, F)
  {
    var init := Init(wf, job).value.state;
    InitSound(wf, job);
    var c := Init(wf, job).value;
    while |c.completed| < |wf.steps|
      invariant Sound(wf, init, c) && c.status == Success && c.running == map[]
      decreases |wf.steps| - |c.completed|
    {
      c := CompleteOneMore(wf, job, order, c);
    }
    CountBound(wf, c.completed);
    CountedAll(wf, c.completed);
    F := c.state;
  }

  // ---------------------------------------------------------------- continuing an execution

  function EndOf(c: Sched, more: seq<Sched>): Sched {
    if more == [] then c else more[|more| - 1]
  }

  /** `more` continues an execution that stands at `c`. */
  ghost predicate Continuation(wf: Workflow, c: Sched, more: seq<Sched>) {
    more != [] ==>
      var before := more[..|more| - 1];
      Continuation(wf, c, before) && Next(wf, EndOf(c, before), EndOf(c, more))
  }

  /** The state machine can come from `c` to `c'`. */
  ghost predicate Reaches(wf: Workflow, c: Sched, c': Sched) {
    exists more :: Continuation(wf, c, more) && EndOf(c, more) == c'
  }

  lemma OneLonger(wf: Workflow, c: Sched, more: seq<Sched>, c': Sched)
    requires Continuation(wf, c, more) && Next(wf, EndOf(c, more), c')
    ensures Continuation(wf, c, more + [c']) && EndOf(c, more + [c']) == c'
  {
    assert (more + [c'])[..|more|] == more;
  }

  lemma ReachesItself(wf: Workflow, c: Sched)
    ensures Reaches(wf, c, c)
  {
    assert Continuation(wf, c, []) && EndOf(c, []) == c;
  }

  lemma ReachesNext(wf: Workflow, c: Sched, c': Sched, c'': Sched)
    requires Reaches(wf, c, c') && Next(wf, c', c'')
    ensures Reaches(wf, c, c'')
  {
    var more :| Continuation(wf, c, more) && EndOf(c, more) == c';
    OneLonger(wf, c, more, c'');
  }

  lemma {:induction false} ReachesOn(wf: Workflow, c: Sched, c': Sched, more: seq<Sched>)
    requires Reaches(wf, c, c') && Continuation(wf, c', more)
    ensures Reaches(wf, c, EndOf(c', more))
  {
    if more != [] {
      var before := more[..|more| - 1];
      ReachesOn(wf, c, c', before);
      ReachesNext(wf, c, EndOf(c', before), EndOf(c', more));
    }
  }

  lemma ReachesAll(wf: Workflow, c: Sched, c': Sched, c'': Sched)
    requires Reaches(wf, c, c') && Reaches(wf, c', c'')
    ensures Reaches(wf, c, c'')
  {
    var more :| Continuation(wf, c', more) && EndOf(c', more) == c'';
    ReachesOn(wf, c, c', more);
  }

  ghost predicate StepAt(wf: Workflow, c: Sched, more: seq<Sched>, i: nat)
    requires i < |more|
  {
    Next(wf, EndOf(c, more[..i]), more[i])
  }

  lemma {:induction false} StepsContinue(wf: Workflow, c: Sched, more: seq<Sched>)
    requires forall i :: 0 <= i < |more| ==> StepAt(wf, c, more, i)
    ensures Continuation(wf, c, more)
  {
    if more != [] {
      var before := more[..|more| - 1];
      forall i | 0 <= i < |before| ensures StepAt(wf, c, before, i) {
        assert StepAt(wf, c, more, i) && before[..i] == more[..i];
      }
      StepsContinue(wf, c, before);
      assert StepAt(wf, c, more, |before|);
    }
  }

  lemma RunSteps(wf: Workflow, job: Object, run: seq<Sched>, j: nat)
    requires IsRun(wf, job, run) && j < |run| - 1
    ensures StepAt(wf, run[0], run[1..], j)
  {
    assert Next(wf, run[j], run[j + 1]);
    assert j > 0 ==> run[1..][..j][j - 1] == run[j];
  }

  /** A run continues its start. */
  lemma RunContinues(wf: Workflow, job: Object, run: seq<Sched>, i: nat)
    requires IsRun(wf, job, run) && i < |run|
    ensures Continuation(wf, run[0], run[1..i + 1]) && EndOf(run[0], run[1..i + 1]) == run[i]
  {
    var more := run[1..i + 1];
    forall j | 0 <= j < |more| ensures StepAt(wf, run[0], more, j) {
      RunSteps(wf, job, run, j);
      assert more[..j] == run[1..][..j];
    }
    StepsContinue(wf, run[0], more);
  }

  /** What can be reached from the start is the end of a run. */
  lemma {:induction false} ContinuedRun(wf: Workflow, job: Object, c0: Sched, more: seq<Sched>)
    returns (run: seq<Sched>)
    requires Init(wf, job) == Some(c0) && Continuation(wf, c0, more)
    ensures IsRun(wf, job, run) && run[|run| - 1] == EndOf(c0, more)
  {
    if more == [] {
      run := [c0];
    } else {
      run := ContinuedRun(wf, job, c0, more[..|more| - 1]);
      run := Longer(wf, job, run, EndOf(c0, more));
    }
  }

  lemma ReachedByRun(wf: Workflow, job: Object, c: Sched) returns (run: seq<Sched>)
    requires Init(wf, job).Some? && Reaches(wf, Init(wf, job).value, c)
    ensures IsRun(wf, job, run) && run[|run| - 1] == c
  {
    var c0 := Init(wf, job).value;
    var more :| Continuation(wf, c0, more) && EndOf(c0, more) == c;
    run := ContinuedRun(wf, job, c0, more);
  }

  /** A reachable state that follows the solution `F`. */
  ghost predicate OnTrack(wf: Workflow, job: Object, F: State, c: Sched)
    requires Init(wf, job).Some?
  {
    Sound(wf, Init(wf, job).value.state, c) && Follows(wf, F, c)
  }

  lemma NextOnTrack(wf: Workflow, job: Object, F: State, c: Sched, c': Sched)
    requires ValidWorkflow(wf) && Init(wf, job).Some? && Solution(wf, Init(wf, job).value.state, F)
    requires OnTrack(wf, job, F, c) && Next(wf, c, c')
    ensures OnTrack(wf, job, F, c')
  {
    NextSound(wf, Init(wf, job).value.state, c, c');
    NextFollows(wf, Init(wf, job).value.state, F, c, c');
  }

  lemma {:induction false} ContinuesOnTrack(wf: Workflow, job: Object, F: State, c: Sched, more: seq<Sched>)
    requires ValidWorkflow(wf) && Init(wf, job).Some? && Solution(wf, Init(wf, job).value.state, F)
    requires OnTrack(wf, job, F, c) && Continuation(wf, c, more)
    ensures OnTrack(wf, job, F, EndOf(c, more))
  {
    if more != [] {
      var before := more[..|more| - 1];
      ContinuesOnTrack(wf, job, F, c, before);
      NextOnTrack(wf, job, F, EndOf(c, before), EndOf(c, more));
    }
  }

  lemma ReachesOnTrack(wf: Workflow, job: Object, F: State, c: Sched, c': Sched)
    requires ValidWorkflow(wf) && Init(wf, job).Some? && Solution(wf, Init(wf, job).value.state, F)
    requires OnTrack(wf, job, F, c) && Reaches(wf, c, c')
    ensures OnTrack(wf, job, F, c')
  {
    var more :| Continuation(wf, c, more) && EndOf(c, more) == c';
    ContinuesOnTrack(wf, job, F, c, more);
  }

  // ---------------------------------------------------------------- progress in every interleaving

  /** Starting a step and receiving its report are one unit of work each. */
  function Work(c: Sched): nat {
    2 * |c.completed| + |c.running|
  }

  lemma ReceivedSets(wf: Workflow, c: Sched, s: Step, rep: Report)
    ensures var c' := Received(wf, c, s, rep);
            c'.completed == c.completed + {s.id} && c'.running == c.running - {s.id}
  {
    CalledFacts(wf, Absorbed(c, s, rep));
  }

  lemma OneLessRunning(running: map<string, Report>, id: string)
    requires id in running
    ensures |running - {id}| == |running| - 1
  {
    var less := running - {id};
    assert running.Keys == less.Keys + {id};
    assert |less| == |less.Keys| && |running| == |running.Keys|;
  }

  lemma ReportingWorks(wf: Workflow, c: Sched, s: Step)
    requires s in wf.steps && s.id in c.running && s.id !in c.completed
    ensures Work(Received(wf, c, s, c.running[s.id])) > Work(c)
  {
    ReceivedSets(wf, c, s, c.running[s.id]);
    OneLessRunning(c.running, s.id);
  }

  lemma OneMoreRunning(running: map<string, Report>, id: string, rep: Report)
    requires id !in running
    ensures |running[id := rep]| == |running| + 1
  {
    var more := running[id := rep];
    assert more.Keys == running.Keys + {id};
    assert |more| == |more.Keys| && |running| == |running.Keys|;
  }

  lemma SkippingWorks(wf: Workflow, c: Sched, s: Step)
    requires !Submitted(c, s)
    ensures Work(Received(wf, c, s, SkipReport(s))) > Work(c)
  {
    ReceivedSets(wf, c, s, SkipReport(s));
    assert c.running - {s.id} == c.running;
  }

  lemma StartingWorks(wf: Workflow, c: Sched, s: Step, obj: Object)
    requires !Submitted(c, s) && Assemble(StepMode(wf), c.state, s.inputs) == Ready(obj)
    requires wf.evaluate(s.id, obj) != CannotMakeJob
    ensures Work(Tried(wf, c, s)) > Work(c)
  {
    if wf.evaluate(s.id, obj).WhenFalse? {
      SkippingWorks(wf, c, s);
    } else {
      OneMoreRunning(c.running, s.id, Tried(wf, c, s).running[s.id]);
    }
  }

  /** In a state that follows a solution some step of the scheduler gets work done. */
  lemma WorkGetsDone(wf: Workflow, job: Object, order: seq<string>, F: State, c: Sched) returns (c': Sched)
    requires Scheduled(wf, job, order) && Solution(wf, Init(wf, job).value.state, F)
    requires OnTrack(wf, job, F, c) && |c.completed| < |wf.steps|
    ensures Next(wf, c, c') && Work(c') > Work(c)
  {
    var t := NoDeadlock(wf, job, c, order);
    if t.id in c.running {
      c' := Received(wf, c, t, c.running[t.id]);
      ReportingWorks(wf, c, t);
    } else {
      c' := Tried(wf, c, t);
      AssembleMonotone(StepMode(wf), c.state, F, t.inputs);
      assert Settled(wf, F, t);
      StartingWorks(wf, c, t, Assemble(StepMode(wf), c.state, t.inputs).obj);
    }
  }

  lemma WorkBound(wf: Workflow, c: Sched)
    requires ValidWorkflow(wf) && c.completed <= Ids(wf.steps)
    requires c.running.Keys <= Ids(wf.steps) && c.completed !! c.running.Keys
    ensures Work(c) <= 2 * |wf.steps|
  {
    CountBound(wf, c.completed + c.running.Keys);
    assert |c.completed + c.running.Keys| == |c.completed| + |c.running.Keys|;
    assert |c.running| == |c.running.Keys|;
  }

  /** One more step from a state that is not complete. */
  lemma OneMoreStep(wf: Workflow, job: Object, order: seq<string>, F: State, c: Sched) returns (c': Sched)
    requires Scheduled(wf, job, order) && Solution(wf, Init(wf, job).value.state, F) && OnTrack(wf, job, F, c)
    requires |c.completed| != |wf.steps|
    ensures Next(wf, c, c') && OnTrack(wf, job, F, c') && Work(c) < Work(c') <= 2 * |wf.steps|
  {
    CountBound(wf, c.completed);
    c' := WorkGetsDone(wf, job, order, F, c);
    NextOnTrack(wf, job, F, c, c');
    WorkBound(wf, c');
  }

  /** All steps are completed, in the solution, and the final callback was called once. */
  ghost predicate Complete(wf: Workflow, F: State, c: Sched) {
    c.completed == Ids(wf.steps) && c.state == F && c.calls == [FinalCall(wf, F)]
  }

  /** Once all steps are completed, the callback has been called, or is called next if there are no steps. */
  lemma AllStepsCompleted(wf: Workflow, job: Object, F: State, c: Sched)
    requires ValidWorkflow(wf) && Init(wf, job).Some? && OnTrack(wf, job, F, c)
    requires |c.completed| == |wf.steps|
    ensures Complete(wf, F, if c.calls == [] then Called(wf, c) else c)
    ensures c.calls == [] ==> wf.steps == []
  {
    var init := Init(wf, job).value.state;
    CountedAll(wf, c.completed);
    CompleteReaches(wf, init, F, c);
    if c.calls == [] {
      CallsFinal(wf, init, F, c);
      CalledFacts(wf, c);
    }
  }

  /** Two steps of the scheduler for each step of the workflow, less the work done; without steps, the one callback. */
  function StepsLeft(wf: Workflow, c: Sched): int {
    2 * |wf.steps| - Work(c) + if wf.steps == [] then 1 else 0
  }

  /** Working on until all steps are completed. */
  lemma WorksOn(wf: Workflow, job: Object, order: seq<string>, F: State, c: Sched)
    returns (more: seq<Sched>, end: Sched)
    requires Scheduled(wf, job, order) && Solution(wf, Init(wf, job).value.state, F) && OnTrack(wf, job, F, c)
    requires Work(c) <= 2 * |wf.steps|
    ensures Continuation(wf, c, more) && EndOf(c, more) == end && OnTrack(wf, job, F, end)
    ensures |end.completed| == |wf.steps| && |more| <= 2 * |wf.steps| - Work(c)
  {
    more, end := [], c;
    while |end.completed| != |wf.steps|
      invariant Continuation(wf, c, more) && EndOf(c, more) == end && OnTrack(wf, job, F, end)
      invariant |more| <= Work(end) - Work(c) && Work(end) <= 2 * |wf.steps|
      decreases 2 * |wf.steps| - Work(end)
    {
      end := OneMoreStep(wf, job, order, F, end);
      OneLonger(wf, c, more, end);
      more := more + [end];
    }
  }

  lemma Finishes(wf: Workflow, job: Object, order: seq<string>, F: State, c: Sched) returns (more: seq<Sched>)
    requires Scheduled(wf, job, order) && Solution(wf, Init(wf, job).value.state, F) && OnTrack(wf, job, F, c)
    requires Work(c) <= 2 * |wf.steps|
    ensures Continuation(wf, c, more) && Complete(wf, F, EndOf(c, more))
    ensures |more| <= StepsLeft(wf, c)
  {
    var end;
    more, end := WorksOn(wf, job, order, F, c);
    AllStepsCompleted(wf, job, F, end);
    if end.calls == [] {
      OneLonger(wf, c, more, Called(wf, end));
      more := more + [Called(wf, end)];
    }
  }

  /** A workflow that is accepted and succeeds never gets stuck, wherever a run of it stands. */
  lemma NeverStuck(wf: Workflow, job: Object, order: seq<string>, run: seq<Sched>) returns (c': Sched)
    requires Succeeding(wf, job, order) && IsRun(wf, job, run) && |run[|run| - 1].completed| < |wf.steps|
    ensures Next(wf, run[|run| - 1], c') && Work(c') > Work(run[|run| - 1])
  {
    var F := SolutionExists(wf, job, order);
    RunFollows(wf, job, F, run, |run| - 1);
    c' := WorkGetsDone(wf, job, order, F, run[|run| - 1]);
  }

  /** A solution is the only one: every complete execution ends in each of them. */
  lemma SolutionsAgree(wf: Workflow, job: Object, order: seq<string>, F: State, G: State)
    requires Scheduled(wf, job, order)
    requires Solution(wf, Init(wf, job).value.state, F) && Solution(wf, Init(wf, job).value.state, G)
    ensures F == G
  {
    var c := Init(wf, job).value;
    InitSound(wf, job);
    InitFollows(wf, job, F);
    InitFollows(wf, job, G);
    WorkBound(wf, c);
    var more := Finishes(wf, job, order, F, c);
    ContinuesOnTrack(wf, job, G, c, more);
    CompleteReaches(wf, c.state, G, EndOf(c, more));
  }

  lemma SolvedRunCompletes(wf: Workflow, job: Object, order: seq<string>, F: State, run: seq<Sched>)
    returns (more: seq<Sched>)
    requires Scheduled(wf, job, order) && IsRun(wf, job, run) && Solution(wf, run[0].state, F)
    ensures Continuation(wf, run[|run| - 1], more) && Complete(wf, F, EndOf(run[|run| - 1], more))
    ensures |more| <= StepsLeft(wf, run[|run| - 1])
  {
    RunFollows(wf, job, F, run, |run| - 1);
    WorkBound(wf, run[|run| - 1]);
    more := Finishes(wf, job, order, F, run[|run| - 1]);
  }

  /**
   On a workflow that the static check accepts and whose steps succeed, every run, wherever it
   stands, can be continued until all `n` steps are completed, in the one solution of the
   dataflow equations, with one call of the final callback; `2n` steps less the work already
   done suffice.
   */
  lemma EveryRunCompletes(wf: Workflow, job: Object, order: seq<string>, run: seq<Sched>)
    returns (F: State, more: seq<Sched>)
    requires Succeeding(wf, job, order) && IsRun(wf, job, run)
    ensures Solution(wf, run[0].state, F) && forall G :: Solution(wf, run[0].state, G) ==> G == F
    ensures Continuation(wf, run[|run| - 1], more) && Complete(wf, F, EndOf(run[|run| - 1], more))
    ensures |more| <= StepsLeft(wf, run[|run| - 1])
  {
    F := SolutionExists(wf, job, order);
    forall G | Solution(wf, run[0].state, G) ensures G == F { SolutionsAgree(wf, job, order, F, G); }
    more := SolvedRunCompletes(wf, job, order, F, run);
  }

  /**
   Confluence of accepted workflows. If each step succeeds on its own, then the dataflow
   equations have exactly one solution, and every run of the workflow, for any order of its steps
   and any interleaving of reports that come once each, agrees with it: nothing fails on the way,
   all runs end in that state, and the final callback is called once, with the same output.
   */
  lemma AcyclicConfluence(wf: Workflow, wf': Workflow, job: Object, order: seq<string>, run: seq<Sched>, i: nat)
    returns (F: State)
    requires Succeeding(wf, job, order) && Shuffled(wf, wf') && IsRun(wf', job, run) && i < |run|
    ensures var init := Init(wf, job).value.state;
            Solution(wf, init, F) && forall G :: Solution(wf, init, G) ==> G == F
    ensures EndsIn(wf, F, run[i])
  {
    var init := Init(wf, job).value.state;
    F := SolutionExists(wf, job, order);
    forall G | Solution(wf, init, G) ensures G == F { SolutionsAgree(wf, job, order, F, G); }
    ShuffledInit(wf, wf', job);
    ShuffledEndsIn(wf, wf', job, F, run, i);
  }
}
