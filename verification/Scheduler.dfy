/**
 The workflow scheduler (`WorkflowJob`): a dataflow machine that submits a step once its
 inputs can be assembled and records its outputs when it reports.

 A tool run is abstracted to `evaluate`: given a step and its assembled inputs, the step
 runs and reports outputs and a status, is skipped because `when` is false, or cannot be
 made into a job. Which steps are tried in which order, and when the running steps report,
 is left open: a run is any sequence of `Next` steps.
 */
module Scheduler {
  import opened Values
  import opened InputAssembly

  datatype Evaluation = Runs(jobout: Object, status: Status) | WhenFalse | CannotMakeJob

  datatype Output = Output(id: string, typ: CwlType)
  datatype Input = Input(id: string, shortId: string, typ: CwlType, default: Option<Value>)

  /** `listsWhenSkipped` marks a loop step that collects all iterations. */
  datatype Step = Step(id: string, inputs: seq<Param>, outputs: seq<Output>, listsWhenSkipped: bool)

  datatype Workflow = Workflow(
    inputs: seq<Input>,
    steps: seq<Step>,
    outputs: seq<Param>,
    multipleInput: bool,
    canAssign: (CwlType, CwlType) -> bool,
    evaluate: (string, Object) -> Evaluation)

  datatype Report = Report(jobout: Object, status: Status)

  /** One call of the final output callback. */
  datatype Call = Call(output: Option<Object>, status: Status)

  /** The scheduler's variables; a step is submitted when it is running or completed. */
  datatype Sched = Sched(
    state: State,
    running: map<string, Report>,
    completed: set<string>,
    status: Status,
    calls: seq<Call>)

  function StepMode(wf: Workflow): Mode {
    Mode(false, wf.multipleInput, false, wf.canAssign)
  }

  function OutputMode(wf: Workflow): Mode {
    Mode(true, wf.multipleInput, true, wf.canAssign)
  }

  predicate Submitted(c: Sched, step: Step) {
    step.id in c.running || step.id in c.completed
  }

  // ---------------------------------------------------------------- the scheduler's operations

  /** The first `k` outputs of a report enter the state; a missing one turns the status. */
  function Recorded(outputs: seq<Output>, k: nat, rep: Report, state: State): (State, Status)
    requires k <= |outputs|
  {
    if k == 0 then (state, rep.status)
    else
      var (st, status) := Recorded(outputs, k - 1, rep, state);
      var o := outputs[k - 1];
      if o.id in rep.jobout then (st[o.id := Some(Item(o.typ, rep.jobout[o.id], status))], status)
      else (st, PermanentFail)
  }

  /** `do_output_callback`. */
  function Called(wf: Workflow, c: Sched): Sched {
    match Assemble(OutputMode(wf), c.state, wf.outputs)
    case Ready(obj) => c.(calls := c.calls + [Call(Some(obj), c.status)])
    case NotReady => c.(calls := c.calls + [Call(None, c.status)])
    case Raises(_) => c.(status := PermanentFail, calls := c.calls + [Call(None, PermanentFail)])
  }

  /** The bookkeeping of `receive_output`, before it looks whether this was the last step. */
  function Absorbed(c: Sched, step: Step, rep: Report): Sched {
    var (state, status) := Recorded(step.outputs, |step.outputs|, rep, c.state);
    Sched(
      state,
      c.running - {step.id},
      c.completed + {step.id},
      if !Usable(status) && c.status != PermanentFail then status else c.status,
      c.calls)
  }

  /** `receive_output`. */
  function Received(wf: Workflow, c: Sched, step: Step, rep: Report): Sched {
    var c' := Absorbed(c, step, rep);
    if |c'.completed| == |wf.steps| then Called(wf, c') else c'
  }

  function SkipReport(step: Step): Report {
    var ids := set o | o in step.outputs :: o.id;
    Report(map k | k in ids :: if step.listsWhenSkipped then Array([]) else Null, Skipped)
  }

  /** What a step with assembled inputs `obj` will report, if it can be made into a job. */
  function ReportOf(wf: Workflow, step: Step, obj: Object): Option<Report> {
    match wf.evaluate(step.id, obj)
    case Runs(jobout, status) => Some(Report(jobout, status))
    case WhenFalse => Some(SkipReport(step))
    case CannotMakeJob => None
  }

  /** `try_make_job`. */
  function Tried(wf: Workflow, c: Sched, step: Step): Sched {
    if Submitted(c, step) then c
    else match Assemble(StepMode(wf), c.state, step.inputs)
      case NotReady => c
      case Raises(_) => c.(status := PermanentFail)
      case Ready(obj) =>
        match wf.evaluate(step.id, obj)
        case CannotMakeJob => c.(status := PermanentFail)
        case WhenFalse => Received(wf, c, step, SkipReport(step))
        case Runs(jobout, status) => c.(running := c.running[step.id := Report(jobout, status)])
  }

  function OutputIds(wf: Workflow): set<string> {
    set s, o | s in wf.steps && o in s.outputs :: o.id
  }

  function InputState(inputs: seq<Input>, k: nat, job: Object): Option<State>
    requires k <= |inputs|
  {
    if k == 0 then Some(map[])
    else
      var before := InputState(inputs, k - 1, job);
      var inp := inputs[k - 1];
      if before.None? then None
      else if inp.shortId in job then Some(before.value[inp.id := Some(Item(inp.typ, job[inp.shortId], Success))])
      else if inp.default.Some? then Some(before.value[inp.id := Some(Item(inp.typ, inp.default.value, Success))])
      else None
  }

  /** The start of `job`; none if a required workflow input is missing. */
  function Init(wf: Workflow, job: Object): Option<Sched> {
    match InputState(wf.inputs, |wf.inputs|, job)
    case None => None
    case Some(given) =>
      Some(Sched(given + (map id | id in OutputIds(wf) :: None), map[], {}, Success, []))
  }

  /** One step of any execution: try a step, let a running step report, or leave the scheduling loop. */
  ghost predicate Next(wf: Workflow, c: Sched, c': Sched) {
    || (c.calls == [] && exists step :: step in wf.steps && c' == Tried(wf, c, step))
    || (exists step :: step in wf.steps && step.id in c.running && c' == Received(wf, c, step, c.running[step.id]))
    || (c.calls == [] && (|c.completed| == |wf.steps| || c.status != Success) && c' == Called(wf, c))
  }

  ghost predicate IsRun(wf: Workflow, job: Object, run: seq<Sched>) {
    && run != [] && Init(wf, job) == Some(run[0])
    && forall i :: 0 <= i < |run| - 1 ==> Next(wf, run[i], run[i + 1])
  }

  lemma Longer(wf: Workflow, job: Object, run: seq<Sched>, c: Sched) returns (longer: seq<Sched>)
    requires IsRun(wf, job, run) && Next(wf, run[|run| - 1], c)
    ensures IsRun(wf, job, longer) && longer[|longer| - 1] == c
  {
    longer := run + [c];
  }

  // ---------------------------------------------------------------- well-formed workflows

  function Ids(steps: seq<Step>): set<string> {
    set s | s in steps :: s.id
  }

  /** Step ids and output ids are unique, and no workflow input is also a step output. */
  ghost predicate ValidWorkflow(wf: Workflow) {
    && |Ids(wf.steps)| == |wf.steps|
    && (forall s, t :: s in wf.steps && t in wf.steps && s.id == t.id ==> s == t)
    && (forall s, t, o, o' :: s in wf.steps && t in wf.steps && o in s.outputs && o' in t.outputs && o.id == o'.id
          ==> s == t && o == o')
    && (forall i :: 0 <= i < |wf.inputs| ==> wf.inputs[i].id !in OutputIds(wf))
  }

  /** Counting completed steps tells when all of them are completed. */
  lemma CountedAll(wf: Workflow, completed: set<string>)
    requires ValidWorkflow(wf) && completed <= Ids(wf.steps)
    ensures |completed| == |wf.steps| <==> completed == Ids(wf.steps)
  {
    var rest := Ids(wf.steps) - completed;
    assert Ids(wf.steps) == completed + rest;
    assert rest == {} <==> completed == Ids(wf.steps);
  }

  lemma CountBound(wf: Workflow, completed: set<string>)
    requires ValidWorkflow(wf) && completed <= Ids(wf.steps)
    ensures |completed| <= |wf.steps|
  {
    assert Ids(wf.steps) == completed + (Ids(wf.steps) - completed);
  }

  // ---------------------------------------------------------------- the dataflow equations

  /** Output `o` stands in `F` as reported. */
  ghost predicate Stands(F: State, o: Output, rep: Report) {
    o.id in rep.jobout && o.id in F && F[o.id] == Some(Item(o.typ, rep.jobout[o.id], rep.status))
  }

  /** Step `s` is settled in `F`: its inputs assemble and its recorded outputs are what it reports on them. */
  ghost predicate Settled(wf: Workflow, F: State, s: Step) {
    var a := Assemble(StepMode(wf), F, s.inputs);
    && a.Ready? && ReportOf(wf, s, a.obj).Some?
    && var rep := ReportOf(wf, s, a.obj).value;
       Usable(rep.status) && forall o :: o in s.outputs ==> Stands(F, o, rep)
  }

  /** `F` solves the dataflow equations of the workflow started in `init`. */
  ghost predicate Solution(wf: Workflow, init: State, F: State) {
    Below(init, F) && forall s :: s in wf.steps ==> Settled(wf, F, s)
  }

  ghost predicate Elsewhere(outputs: seq<Output>, id: string) {
    forall o :: o in outputs ==> o.id != id
  }

  lemma {:induction false} RecordedFrame(outputs: seq<Output>, k: nat, rep: Report, state: State)
    requires k <= |outputs| && forall o :: o in outputs ==> o.id in state
    ensures var st := Recorded(outputs, k, rep, state).0;
            st.Keys == state.Keys && forall id :: id in st && Elsewhere(outputs, id) ==> st[id] == state[id]
  {
    if k > 0 { RecordedFrame(outputs, k - 1, rep, state); }
  }

  lemma {:induction false} RecordedStands(outputs: seq<Output>, k: nat, rep: Report, state: State)
    requires k <= |outputs|
    requires forall o, o' :: o in outputs && o' in outputs && o.id == o'.id ==> o == o'
    ensures var (st, status) := Recorded(outputs, k, rep, state);
            && (Usable(status) ==> status == rep.status)
            && (Usable(status) ==> forall i :: 0 <= i < k ==> Stands(st, outputs[i], rep))
  {
    if k > 0 {
      RecordedStands(outputs, k - 1, rep, state);
      var st, o := Recorded(outputs, k - 1, rep, state).0, outputs[k - 1];
      if Usable(Recorded(outputs, k, rep, state).1) {
        forall i | 0 <= i < k ensures Stands(Recorded(outputs, k, rep, state).0, outputs[i], rep) {
          if outputs[i].id == o.id { assert outputs[i] == o; } else { assert Stands(st, outputs[i], rep); }
        }
      }
    }
  }

  /** A usable report that names every output keeps its status. */
  lemma {:induction false} RecordedUsable(outputs: seq<Output>, k: nat, rep: Report, state: State)
    requires k <= |outputs| && Usable(rep.status)
    requires forall i :: 0 <= i < k ==> outputs[i].id in rep.jobout
    ensures Recorded(outputs, k, rep, state).1 == rep.status
  {
    if k > 0 { RecordedUsable(outputs, k - 1, rep, state); }
  }

  lemma CalledFacts(wf: Workflow, c: Sched)
    ensures var c' := Called(wf, c);
            && c'.state == c.state && c'.running == c.running && c'.completed == c.completed
            && (c'.status == Success ==> c.status == Success)
            && |c'.calls| == |c.calls| + 1
  {}

  lemma AbsorbedFacts(wf: Workflow, c: Sched, s: Step, rep: Report)
    requires ValidWorkflow(wf) && s in wf.steps && OutputIds(wf) <= c.state.Keys
    ensures var c' := Absorbed(c, s, rep);
            && c'.state.Keys == c.state.Keys
            && (forall id :: id in c.state && Elsewhere(s.outputs, id) ==> c'.state[id] == c.state[id])
            && (c'.status == Success ==> c.status == Success && Usable(rep.status))
            && (c'.status == Success ==> forall o :: o in s.outputs ==> Stands(c'.state, o, rep))
  {
    forall o | o in s.outputs ensures o.id in c.state { assert o.id in OutputIds(wf); }
    RecordedFrame(s.outputs, |s.outputs|, rep, c.state);
    RecordedStands(s.outputs, |s.outputs|, rep, c.state);
  }

  // ---------------------------------------------------------------- what every run keeps

  ghost predicate Blank(state: State, s: Step) {
    forall o :: o in s.outputs ==> o.id in state && state[o.id] == None
  }

  /** Running steps hold the report that their assembled inputs determine. */
  ghost predicate RunsAsDetermined(wf: Workflow, c: Sched, s: Step)
    requires s.id in c.running
  {
    var a := Assemble(StepMode(wf), c.state, s.inputs);
    a.Ready? && ReportOf(wf, s, a.obj) == Some(c.running[s.id])
  }

  /** The invariant of every run, failing or not. */
  ghost predicate Sound(wf: Workflow, init: State, c: Sched) {
    && Below(init, c.state) && OutputIds(wf) <= c.state.Keys
    && c.completed <= Ids(wf.steps) && c.running.Keys <= Ids(wf.steps) && c.completed !! c.running.Keys
    && (forall s :: s in wf.steps && s.id !in c.completed ==> Blank(c.state, s))
    && (forall s :: s in wf.steps && s.id in c.running ==> RunsAsDetermined(wf, c, s))
    && (c.status == Success ==> forall s :: s in wf.steps && s.id in c.completed ==> Settled(wf, c.state, s))
  }

  /** Every workflow input has a usable value. */
  ghost predicate Given(inputs: seq<Input>, state: State) {
    forall id :: id in state ==> state[id].Some? && Usable(state[id].value.status)
                                 && exists i :: 0 <= i < |inputs| && inputs[i].id == id
  }

  lemma {:induction false} InputsGiven(inputs: seq<Input>, k: nat, job: Object)
    requires k <= |inputs| && InputState(inputs, k, job).Some?
    ensures Given(inputs, InputState(inputs, k, job).value)
  {
    if k > 0 { InputsGiven(inputs, k - 1, job); }
  }

  lemma InitSound(wf: Workflow, job: Object)
    requires ValidWorkflow(wf) && Init(wf, job).Some?
    ensures Sound(wf, Init(wf, job).value.state, Init(wf, job).value)
  {
    InputsGiven(wf.inputs, |wf.inputs|, job);
    var c := Init(wf, job).value;
    forall s | s in wf.steps ensures Blank(c.state, s) {
      forall o | o in s.outputs ensures o.id in c.state && c.state[o.id] == None {
        assert o.id in OutputIds(wf);
      }
    }
  }

  /** Settled and determined steps stay so while the state grows. */
  lemma SettledGrows(wf: Workflow, F: State, G: State, s: Step)
    requires Below(F, G) && Settled(wf, F, s)
    ensures Settled(wf, G, s)
  {
    AssembleMonotone(StepMode(wf), F, G, s.inputs);
  }

  lemma AbsorbedSound(wf: Workflow, init: State, c: Sched, s: Step, rep: Report)
    requires ValidWorkflow(wf) && Sound(wf, init, c) && s in wf.steps && s.id !in c.completed
    requires var a := Assemble(StepMode(wf), c.state, s.inputs);
             a.Ready? && ReportOf(wf, s, a.obj) == Some(rep)
    ensures Sound(wf, init, Absorbed(c, s, rep))
    ensures Below(c.state, Absorbed(c, s, rep).state)
  {
    var c' := Absorbed(c, s, rep);
    AbsorbedFacts(wf, c, s, rep);
    assert Below(c.state, c'.state) by {
      forall id | id in c.state && c.state[id].Some? ensures c'.state[id] == c.state[id] {
        assert Elsewhere(s.outputs, id);
      }
    }
    AssembleMonotone(StepMode(wf), c.state, c'.state, s.inputs);
    forall t | t in wf.steps && t.id !in c'.completed ensures Blank(c'.state, t) {
      forall o | o in t.outputs ensures c'.state[o.id] == None {
        assert Elsewhere(s.outputs, o.id);
      }
    }
    forall t | t in wf.steps && t.id in c'.running ensures RunsAsDetermined(wf, c', t) {
      assert RunsAsDetermined(wf, c, t);
      AssembleMonotone(StepMode(wf), c.state, c'.state, t.inputs);
    }
    if c'.status == Success {
      forall t | t in wf.steps && t.id in c'.completed ensures Settled(wf, c'.state, t) {
        if t != s { SettledGrows(wf, c.state, c'.state, t); }
      }
    }
  }

  lemma CalledSound(wf: Workflow, init: State, c: Sched)
    requires Sound(wf, init, c)
    ensures Sound(wf, init, Called(wf, c)) && Called(wf, c).state == c.state
  {
    CalledFacts(wf, c);
    var c' := Called(wf, c);
    forall s | s in wf.steps && s.id in c'.running ensures RunsAsDetermined(wf, c', s) {
      assert RunsAsDetermined(wf, c, s);
    }
  }

  lemma ReceivedSound(wf: Workflow, init: State, c: Sched, s: Step, rep: Report)
    requires ValidWorkflow(wf) && Sound(wf, init, c) && s in wf.steps && s.id !in c.completed
    requires var a := Assemble(StepMode(wf), c.state, s.inputs);
             a.Ready? && ReportOf(wf, s, a.obj) == Some(rep)
    ensures Sound(wf, init, Received(wf, c, s, rep))
    ensures Below(c.state, Received(wf, c, s, rep).state)
  {
    AbsorbedSound(wf, init, c, s, rep);
    CalledSound(wf, init, Absorbed(c, s, rep));
  }

  lemma TriedSound(wf: Workflow, init: State, c: Sched, s: Step)
    requires ValidWorkflow(wf) && Sound(wf, init, c) && s in wf.steps
    ensures Sound(wf, init, Tried(wf, c, s)) && Below(c.state, Tried(wf, c, s).state)
  {
    var a := Assemble(StepMode(wf), c.state, s.inputs);
    if !Submitted(c, s) && a.Ready? {
      if wf.evaluate(s.id, a.obj).WhenFalse? {
        ReceivedSound(wf, init, c, s, SkipReport(s));
      } else if wf.evaluate(s.id, a.obj).Runs? {
        var c' := Tried(wf, c, s);
        forall t | t in wf.steps && t.id in c'.running ensures RunsAsDetermined(wf, c', t) {
          assert t != s ==> RunsAsDetermined(wf, c, t);
        }
      }
    }
  }

  lemma NextSound(wf: Workflow, init: State, c: Sched, c': Sched)
    requires ValidWorkflow(wf) && Sound(wf, init, c) && Next(wf, c, c')
    ensures Sound(wf, init, c') && Below(c.state, c'.state)
  {
    if c.calls == [] && exists s :: s in wf.steps && c' == Tried(wf, c, s) {
      var s :| s in wf.steps && c' == Tried(wf, c, s);
      TriedSound(wf, init, c, s);
    } else if s :| s in wf.steps && s.id in c.running && c' == Received(wf, c, s, c.running[s.id]) {
      assert RunsAsDetermined(wf, c, s);
      ReceivedSound(wf, init, c, s, c.running[s.id]);
    } else {
      CalledSound(wf, init, c);
    }
  }

  // ---------------------------------------------------------------- confluence

  /** The one final callback that a solution calls for. */
  ghost function FinalCall(wf: Workflow, F: State): Call {
    Called(wf, Sched(F, map[], {}, Success, [])).calls[0]
  }

  /** Some incomplete step still has to write `id`. */
  ghost predicate Owed(wf: Workflow, c: Sched, id: string) {
    exists s :: s in wf.steps && s.id !in c.completed && !Elsewhere(s.outputs, id)
  }

  /** A run follows the solution `F`: it never contradicts it and never fails. */
  ghost predicate Follows(wf: Workflow, F: State, c: Sched) {
    && Below(c.state, F)
    && (forall id :: id in c.state && c.state[id].None? ==> Owed(wf, c, id))
    && (if c.calls == [] then c.status == Success && (|c.completed| < |wf.steps| || wf.steps == [])
        else |c.completed| == |wf.steps| && c.calls == [FinalCall(wf, F)])
  }

  /** When all steps are completed, a run that follows `F` has reached it. */
  lemma CompleteReaches(wf: Workflow, init: State, F: State, c: Sched)
    requires ValidWorkflow(wf) && Sound(wf, init, c) && |c.completed| == |wf.steps| && Below(c.state, F)
    requires forall id :: id in c.state && c.state[id].None? ==> Owed(wf, c, id)
    ensures c.state == F
  {
    CountedAll(wf, c.completed);
    forall id | id in c.state ensures c.state[id] == F[id] {
      assert !Owed(wf, c, id);
    }
  }

  lemma OwesTheSame(wf: Workflow, c: Sched, c': Sched)
    requires c'.completed == c.completed
    ensures forall id :: Owed(wf, c, id) ==> Owed(wf, c', id)
  {
    forall id | Owed(wf, c, id) ensures Owed(wf, c', id) {
      var s :| s in wf.steps && s.id !in c.completed && !Elsewhere(s.outputs, id);
    }
  }

  /** The first callback is the one that the state calls for. */
  lemma CalledOnce(wf: Workflow, c: Sched)
    requires c.status == Success && c.calls == []
    ensures Called(wf, c).calls == [FinalCall(wf, c.state)]
  {}

  lemma CallsFinal(wf: Workflow, init: State, F: State, c: Sched)
    requires ValidWorkflow(wf) && Sound(wf, init, c) && |c.completed| == |wf.steps| && Below(c.state, F)
    requires forall id :: id in c.state && c.state[id].None? ==> Owed(wf, c, id)
    requires c.status == Success && c.calls == []
    ensures Follows(wf, F, Called(wf, c))
  {
    CompleteReaches(wf, init, F, c);
    CalledFacts(wf, c);
    CalledOnce(wf, c);
    OwesTheSame(wf, c, Called(wf, c));
  }

  /** A step whose inputs agree with the solution reports without failing. */
  lemma AbsorbedSucceeds(wf: Workflow, F: State, c: Sched, s: Step, rep: Report)
    requires ValidWorkflow(wf) && s in wf.steps && Settled(wf, F, s) && Below(c.state, F)
    requires c.status == Success
    requires var a := Assemble(StepMode(wf), c.state, s.inputs);
             a.Ready? && ReportOf(wf, s, a.obj) == Some(rep)
    ensures Absorbed(c, s, rep).status == Success
    ensures forall o :: o in s.outputs ==> Stands(F, o, rep)
  {
    AssembleMonotone(StepMode(wf), c.state, F, s.inputs);
    assert forall i :: 0 <= i < |s.outputs| ==> Stands(F, s.outputs[i], rep);
    RecordedUsable(s.outputs, |s.outputs|, rep, c.state);
  }

  lemma StillOwed(wf: Workflow, c: Sched, s: Step, id: string, c': Sched)
    requires ValidWorkflow(wf) && s in wf.steps && Owed(wf, c, id) && Elsewhere(s.outputs, id)
    requires c'.completed == c.completed + {s.id}
    ensures Owed(wf, c', id)
  {
    var t :| t in wf.steps && t.id !in c.completed && !Elsewhere(t.outputs, id);
    assert t != s;
  }

  /** ... and writes exactly what the solution holds. */
  lemma AbsorbedFollows(wf: Workflow, F: State, c: Sched, s: Step, rep: Report)
    requires ValidWorkflow(wf) && s in wf.steps && OutputIds(wf) <= c.state.Keys && Below(c.state, F)
    requires forall id :: id in c.state && c.state[id].None? ==> Owed(wf, c, id)
    requires Absorbed(c, s, rep).status == Success
    requires forall o :: o in s.outputs ==> Stands(F, o, rep)
    ensures var c' := Absorbed(c, s, rep);
            Below(c'.state, F) && forall id :: id in c'.state && c'.state[id].None? ==> Owed(wf, c', id)
  {
    AbsorbedFacts(wf, c, s, rep);
    var c' := Absorbed(c, s, rep);
    forall id | id in c'.state ensures (c'.state[id].Some? ==> c'.state[id] == F[id])
                                       && (c'.state[id].None? ==> Owed(wf, c', id))
    {
      if Elsewhere(s.outputs, id) {
        assert c'.state[id] == c.state[id];
        if c.state[id].None? { StillOwed(wf, c, s, id, c'); }
      } else {
        var o :| o in s.outputs && o.id == id;
        assert Stands(c'.state, o, rep) && Stands(F, o, rep);
      }
    }
  }

  lemma ReceivedFollows(wf: Workflow, init: State, F: State, c: Sched, s: Step, rep: Report)
    requires ValidWorkflow(wf) && Sound(wf, init, c) && Solution(wf, init, F) && Follows(wf, F, c)
    requires s in wf.steps && s.id !in c.completed
    requires var a := Assemble(StepMode(wf), c.state, s.inputs);
             a.Ready? && ReportOf(wf, s, a.obj) == Some(rep)
    ensures Follows(wf, F, Received(wf, c, s, rep))
  {
    CountedAll(wf, c.completed);
    assert Settled(wf, F, s);
    AbsorbedSucceeds(wf, F, c, s, rep);
    AbsorbedFollows(wf, F, c, s, rep);
    AbsorbedSound(wf, init, c, s, rep);
    var c' := Absorbed(c, s, rep);
    if |c'.completed| == |wf.steps| {
      CallsFinal(wf, init, F, c');
    } else {
      CountedAll(wf, c'.completed);
      CountBound(wf, c'.completed);
    }
  }

  lemma TriedFollows(wf: Workflow, init: State, F: State, c: Sched, s: Step)
    requires ValidWorkflow(wf) && Sound(wf, init, c) && Solution(wf, init, F) && Follows(wf, F, c)
    requires s in wf.steps
    ensures Follows(wf, F, Tried(wf, c, s))
  {
    var a := Assemble(StepMode(wf), c.state, s.inputs);
    if !Submitted(c, s) && a != NotReady {
      AssembleMonotone(StepMode(wf), c.state, F, s.inputs);
      assert Settled(wf, F, s);
      if wf.evaluate(s.id, a.obj).WhenFalse? {
        ReceivedFollows(wf, init, F, c, s, SkipReport(s));
      } else {
        var c' := Tried(wf, c, s);
        forall id | id in c'.state && c'.state[id].None? ensures Owed(wf, c', id) {
          assert Owed(wf, c, id);
        }
      }
    }
  }

  lemma NextFollows(wf: Workflow, init: State, F: State, c: Sched, c': Sched)
    requires ValidWorkflow(wf) && Sound(wf, init, c) && Solution(wf, init, F) && Follows(wf, F, c)
    requires Next(wf, c, c')
    ensures Follows(wf, F, c')
  {
    if c.calls == [] && exists s :: s in wf.steps && c' == Tried(wf, c, s) {
      var s :| s in wf.steps && c' == Tried(wf, c, s);
      TriedFollows(wf, init, F, c, s);
    } else if s :| s in wf.steps && s.id in c.running && c' == Received(wf, c, s, c.running[s.id]) {
      assert RunsAsDetermined(wf, c, s);
      ReceivedFollows(wf, init, F, c, s, c.running[s.id]);
    } else {
      CallsFinal(wf, init, F, c);
    }
  }

  lemma InitOwed(wf: Workflow, job: Object, id: string)
    requires Init(wf, job).Some?
    requires id in Init(wf, job).value.state && Init(wf, job).value.state[id].None?
    ensures Owed(wf, Init(wf, job).value, id)
  {
    InputsGiven(wf.inputs, |wf.inputs|, job);
    var given := InputState(wf.inputs, |wf.inputs|, job).value;
    assert Given(wf.inputs, given);
    assert id in OutputIds(wf);
    var s, o :| s in wf.steps && o in s.outputs && o.id == id;
    assert !Elsewhere(s.outputs, id);
  }

  lemma InitFollows(wf: Workflow, job: Object, F: State)
    requires Init(wf, job).Some? && Below(Init(wf, job).value.state, F)
    ensures Follows(wf, F, Init(wf, job).value)
  {
    var c := Init(wf, job).value;
    forall id | id in c.state && c.state[id].None? ensures Owed(wf, c, id) {
      InitOwed(wf, job, id);
    }
  }

  /** Every run keeps the scheduler sound. */
  lemma {:induction false} RunSound(wf: Workflow, job: Object, run: seq<Sched>, i: nat)
    requires ValidWorkflow(wf) && IsRun(wf, job, run) && i < |run|
    ensures Sound(wf, run[0].state, run[i])
  {
    if i == 0 {
      InitSound(wf, job);
    } else {
      RunSound(wf, job, run, i - 1);
      NextSound(wf, run[0].state, run[i - 1], run[i]);
    }
  }

  /** If the dataflow equations have a solution, every state of every run follows it. */
  lemma {:induction false} RunFollows(wf: Workflow, job: Object, F: State, run: seq<Sched>, i: nat)
    requires ValidWorkflow(wf) && IsRun(wf, job, run) && i < |run| && Solution(wf, run[0].state, F)
    ensures Sound(wf, run[0].state, run[i]) && Follows(wf, F, run[i])
  {
    if i == 0 {
      InitSound(wf, job);
      InitFollows(wf, job, F);
    } else {
      RunFollows(wf, job, F, run, i - 1);
      NextSound(wf, run[0].state, run[i - 1], run[i]);
      NextFollows(wf, run[0].state, F, run[i - 1], run[i]);
    }
  }

  /** The run ended with every step completed and success reported. */
  ghost predicate Succeeds(wf: Workflow, run: seq<Sched>)
    requires run != []
  {
    var last := run[|run| - 1];
    |last.completed| == |wf.steps| && last.status == Success
  }

  /** A successful run ends in a solution of the dataflow equations, and it is the only one. */
  lemma SuccessSolves(wf: Workflow, job: Object, run: seq<Sched>)
    requires ValidWorkflow(wf) && IsRun(wf, job, run) && Succeeds(wf, run)
    ensures var F := run[|run| - 1].state;
            Solution(wf, run[0].state, F) && forall G :: Solution(wf, run[0].state, G) ==> G == F
  {
    var last := run[|run| - 1];
    RunSound(wf, job, run, |run| - 1);
    CountedAll(wf, last.completed);
    forall G | Solution(wf, run[0].state, G) ensures G == last.state {
      RunFollows(wf, job, G, run, |run| - 1);
      CompleteReaches(wf, run[0].state, G, last);
    }
  }

  /** The same workflow with its steps in another order. */
  ghost predicate Shuffled(wf: Workflow, wf': Workflow) {
    wf' == wf.(steps := wf'.steps) && multiset(wf'.steps) == multiset(wf.steps)
  }

  lemma ShuffledSteps(wf: Workflow, wf': Workflow)
    requires Shuffled(wf, wf')
    ensures |wf'.steps| == |wf.steps| && forall s :: s in wf'.steps <==> s in wf.steps
    ensures Ids(wf'.steps) == Ids(wf.steps) && OutputIds(wf') == OutputIds(wf)
  {
    assert forall s :: s in wf'.steps <==> s in multiset(wf'.steps);
    assert |multiset(wf'.steps)| == |wf'.steps| && |multiset(wf.steps)| == |wf.steps|;
  }

  lemma ShuffledSolution(wf: Workflow, wf': Workflow, init: State, F: State)
    requires Shuffled(wf, wf') && Solution(wf, init, F)
    ensures Solution(wf', init, F)
  {
    ShuffledSteps(wf, wf');
    forall s | s in wf'.steps ensures Settled(wf', F, s) {
      assert Settled(wf, F, s);
    }
  }

  lemma ShuffledInit(wf: Workflow, wf': Workflow, job: Object)
    requires Shuffled(wf, wf')
    ensures Init(wf', job) == Init(wf, job) && (ValidWorkflow(wf) ==> ValidWorkflow(wf'))
  {
    ShuffledSteps(wf, wf');
  }

  lemma ShuffledCall(wf: Workflow, wf': Workflow, F: State)
    requires Shuffled(wf, wf')
    ensures FinalCall(wf', F) == FinalCall(wf, F)
  {}

  /**
   A state of a run that ends in `F`: it agrees with `F` and has not failed; once all steps are
   completed it is `F`, and once the final callback was called, that was with its output and once.
   */
  ghost predicate EndsIn(wf: Workflow, F: State, c: Sched) {
    && Below(c.state, F)
    && (c.calls == [] ==> c.status == Success)
    && (c.calls != [] ==> c.state == F && c.calls == [FinalCall(wf, F)])
    && (|c.completed| == |wf.steps| ==> c.state == F)
    && (|c.completed| == |wf.steps| && wf.steps != [] ==> c.calls != [])
  }

  lemma FollowsEndsIn(wf: Workflow, init: State, F: State, c: Sched)
    requires ValidWorkflow(wf) && Sound(wf, init, c) && Follows(wf, F, c)
    ensures EndsIn(wf, F, c)
  {
    if |c.completed| == |wf.steps| { CompleteReaches(wf, init, F, c); }
  }

  /** Runs over any order of the steps end in the solution. */
  lemma ShuffledEndsIn(wf: Workflow, wf': Workflow, job: Object, F: State, run: seq<Sched>, i: nat)
    requires ValidWorkflow(wf) && Shuffled(wf, wf') && IsRun(wf', job, run) && i < |run|
    requires Solution(wf, run[0].state, F)
    ensures EndsIn(wf, F, run[i])
  {
    ShuffledInit(wf, wf', job);
    ShuffledSolution(wf, wf', run[0].state, F);
    RunFollows(wf', job, F, run, i);
    FollowsEndsIn(wf', run[0].state, F, run[i]);
    ShuffledCall(wf, wf', F);
    ShuffledSteps(wf, wf');
  }

  /**
   Confluence, of any workflow. If one run succeeds, then in every other run, whatever the order
   of the steps and the interleaving of their reports, no step fails or raises on the way, and
   once all steps are completed the state is the same and the final callback has been called
   exactly once, with the same output. A step that is running reports once here; for one that
   reports twice see the module `SecondCalls`.
   */
  lemma Confluence(wf: Workflow, wf': Workflow, job: Object, run: seq<Sched>, run': seq<Sched>, i: nat)
    requires ValidWorkflow(wf) && Shuffled(wf, wf')
    requires IsRun(wf, job, run) && Succeeds(wf, run)
    requires IsRun(wf', job, run') && i < |run'|
    ensures EndsIn(wf, run[|run| - 1].state, run'[i])
  {
    SuccessSolves(wf, job, run);
    ShuffledInit(wf, wf', job);
    ShuffledEndsIn(wf, wf', job, run[|run| - 1].state, run', i);
  }
}
