/**
 What the operations of the scheduler do, in plain terms: the initial state, trying a step, its
 report, the final callback, and the values of a solution.
 */
module StepRules {
  import opened Values
  import opened InputAssembly
  import opened Scheduler
  import opened Progress

  // ---------------------------------------------------------------- the start

  /** The input has its value from the job order, and only without one there its default. */
  ghost predicate InputRule(inp: Input, job: Object, state: State) {
    && inp.id in state && state[inp.id].Some?
    && var item := state[inp.id].value;
       && item.typ == inp.typ && item.status == Success
       && (inp.shortId in job ==> item.value == job[inp.shortId])
       && (inp.shortId !in job ==> inp.default.Some? && item.value == inp.default.value)
  }

  /** No later input of the first `k` has the id of input `i`. */
  ghost predicate LastOfId(inputs: seq<Input>, i: nat, k: nat)
    requires i < k <= |inputs|
  {
    forall j :: i < j < k ==> inputs[j].id != inputs[i].id
  }

  ghost predicate HasValue(inp: Input, job: Object) {
    inp.shortId in job || inp.default.Some?
  }

  lemma {:induction false} InputsGivenIff(inputs: seq<Input>, k: nat, job: Object)
    requires k <= |inputs|
    ensures InputState(inputs, k, job).Some? <==> forall i :: 0 <= i < k ==> HasValue(inputs[i], job)
  {
    if k > 0 { InputsGivenIff(inputs, k - 1, job); }
  }

  lemma {:induction false} InputsByRule(inputs: seq<Input>, k: nat, job: Object, i: nat)
    requires i < k <= |inputs| && InputState(inputs, k, job).Some? && LastOfId(inputs, i, k)
    ensures InputRule(inputs[i], job, InputState(inputs, k, job).value)
  {
    if i < k - 1 { InputsByRule(inputs, k - 1, job, i); }
  }

  /** The start fails exactly if an input has neither value nor default; else outputs are blank and nothing has run. */
  lemma StartsByRule(wf: Workflow, job: Object)
    requires ValidWorkflow(wf)
    ensures Init(wf, job).Some? <==> forall i :: 0 <= i < |wf.inputs| ==> HasValue(wf.inputs[i], job)
    ensures Init(wf, job).Some? ==>
              var c := Init(wf, job).value;
              && (forall i :: 0 <= i < |wf.inputs| && LastOfId(wf.inputs, i, |wf.inputs|) ==>
                    InputRule(wf.inputs[i], job, c.state))
              && (forall s, o :: s in wf.steps && o in s.outputs ==> o.id in c.state && c.state[o.id] == None)
              && c.running == map[] && c.completed == {} && c.status == Success && c.calls == []
  {
    InputsGivenIff(wf.inputs, |wf.inputs|, job);
    if Init(wf, job).Some? {
      var c, given := Init(wf, job).value, InputState(wf.inputs, |wf.inputs|, job).value;
      forall s, o | s in wf.steps && o in s.outputs ensures o.id in c.state && c.state[o.id] == None {
        assert o.id in OutputIds(wf);
      }
      forall i | 0 <= i < |wf.inputs| && LastOfId(wf.inputs, i, |wf.inputs|)
        ensures InputRule(wf.inputs[i], job, c.state)
      {
        InputsByRule(wf.inputs, |wf.inputs|, job, i);
        assert c.state[wf.inputs[i].id] == given[wf.inputs[i].id];
      }
    }
  }

  // ---------------------------------------------------------------- a report

  /** An output before `k` is missing in the report. */
  ghost predicate MissingBefore(outputs: seq<Output>, k: nat, jobout: Object)
    requires k <= |outputs|
  {
    exists j :: 0 <= j < k && outputs[j].id !in jobout
  }

  ghost predicate DistinctIds(outputs: seq<Output>) {
    forall i, j :: 0 <= i < j < |outputs| ==> outputs[i].id != outputs[j].id
  }

  /** Output `i` stands as reported, with the status as of then; a missing one stays as it was. */
  ghost predicate RecordRule(outputs: seq<Output>, i: nat, rep: Report, before: State, after: State)
    requires i < |outputs|
  {
    var o := outputs[i];
    if o.id in rep.jobout then
      o.id in after && after[o.id] ==
        Some(Item(o.typ, rep.jobout[o.id], if MissingBefore(outputs, i, rep.jobout) then PermanentFail else rep.status))
    else (o.id in after <==> o.id in before) && (o.id in before ==> after[o.id] == before[o.id])
  }

  /** What stands elsewhere stays. */
  ghost predicate FrameRule(outputs: seq<Output>, k: nat, before: State, after: State)
    requires k <= |outputs|
  {
    forall id :: (forall j :: 0 <= j < k ==> outputs[j].id != id) ==>
      (id in after <==> id in before) && (id in before ==> after[id] == before[id])
  }

  lemma RecordOne(outputs: seq<Output>, k: nat, rep: Report, state: State)
    requires 0 < k <= |outputs| && DistinctIds(outputs)
    requires var (st, status) := Recorded(outputs, k - 1, rep, state);
             && status == (if MissingBefore(outputs, k - 1, rep.jobout) then PermanentFail else rep.status)
             && (forall i :: 0 <= i < k - 1 ==> RecordRule(outputs, i, rep, state, st))
             && FrameRule(outputs, k - 1, state, st)
    ensures var (st, status) := Recorded(outputs, k, rep, state);
            && status == (if MissingBefore(outputs, k, rep.jobout) then PermanentFail else rep.status)
            && (forall i :: 0 <= i < k ==> RecordRule(outputs, i, rep, state, st))
            && FrameRule(outputs, k, state, st)
  {
    var st0 := Recorded(outputs, k - 1, rep, state).0;
    var st := Recorded(outputs, k, rep, state).0;
    forall i | 0 <= i < k ensures RecordRule(outputs, i, rep, state, st) {
      if i < k - 1 { assert RecordRule(outputs, i, rep, state, st0); }
    }
    if MissingBefore(outputs, k - 1, rep.jobout) {
      var j :| 0 <= j < k - 1 && outputs[j].id !in rep.jobout;
      assert MissingBefore(outputs, k, rep.jobout);
    }
  }

  lemma {:induction false} RecordsByRule(outputs: seq<Output>, k: nat, rep: Report, state: State)
    requires k <= |outputs| && DistinctIds(outputs)
    ensures var (st, status) := Recorded(outputs, k, rep, state);
            && status == (if MissingBefore(outputs, k, rep.jobout) then PermanentFail else rep.status)
            && (forall i :: 0 <= i < k ==> RecordRule(outputs, i, rep, state, st))
            && FrameRule(outputs, k, state, st)
  {
    if k > 0 {
      RecordsByRule(outputs, k - 1, rep, state);
      RecordOne(outputs, k, rep, state);
    }
  }

  /** What the report of step `s` amounts to. */
  ghost function Effective(s: Step, rep: Report): Status {
    if MissingBefore(s.outputs, |s.outputs|, rep.jobout) then PermanentFail else rep.status
  }

  ghost predicate Good(status: Status) {
    status == Success || status == Skipped
  }

  /** The first failure sets the workflow's status, a permanent one for good. */
  ghost predicate StatusRule(before: Status, reported: Status, after: Status) {
    after == if Good(reported) || before == PermanentFail then before else reported
  }

  /** The report of a step: outputs recorded, the step completed, the status as of the report. */
  lemma ReportsByRule(wf: Workflow, c: Sched, s: Step, rep: Report)
    requires DistinctIds(s.outputs)
    ensures var c' := Received(wf, c, s, rep);
            && (forall i :: 0 <= i < |s.outputs| ==> RecordRule(s.outputs, i, rep, c.state, c'.state))
            && FrameRule(s.outputs, |s.outputs|, c.state, c'.state)
            && c'.completed == c.completed + {s.id} && c'.running == c.running - {s.id}
    ensures var c' := Received(wf, c, s, rep);
            if |c'.completed| == |wf.steps| then
              exists mid: Sched :: StatusRule(c.status, Effective(s, rep), mid.status) && mid.calls == c.calls
                                   && mid.state == c'.state && c' == Called(wf, mid)
            else StatusRule(c.status, Effective(s, rep), c'.status) && c'.calls == c.calls
  {
    RecordsByRule(s.outputs, |s.outputs|, rep, c.state);
    CalledFacts(wf, Absorbed(c, s, rep));
  }

  // ---------------------------------------------------------------- trying a step

  ghost predicate Idle(c: Sched, s: Step) {
    s.id !in c.running && s.id !in c.completed
  }

  /** The mode in which the inputs of a step are assembled: full ids, nothing left out. */
  ghost predicate StepModeRule(wf: Workflow, m: Mode) {
    m == Mode(false, wf.multipleInput, false, wf.canAssign)
  }

  /** A submitted step, or one whose inputs are awaited, is left alone. */
  lemma TriesNothing(wf: Workflow, c: Sched, s: Step, m: Mode)
    requires StepModeRule(wf, m)
    requires !Idle(c, s) || Assemble(m, c.state, s.inputs) == NotReady
    ensures Tried(wf, c, s) == c
  {}

  /** A step that cannot be made into a job only fails the workflow; it may be tried again. */
  lemma TriesInVain(wf: Workflow, c: Sched, s: Step, m: Mode)
    requires StepModeRule(wf, m) && Idle(c, s)
    requires var a := Assemble(m, c.state, s.inputs);
             a.Raises? || (a.Ready? && wf.evaluate(s.id, a.obj) == CannotMakeJob)
    ensures Tried(wf, c, s) == c.(status := PermanentFail)
  {}

  /** A step that runs will report what its evaluation gives, and nothing else changes. */
  lemma TriesToRun(wf: Workflow, c: Sched, s: Step, m: Mode, obj: Object, jobout: Object, status: Status)
    requires StepModeRule(wf, m) && Idle(c, s)
    requires Assemble(m, c.state, s.inputs) == Ready(obj) && wf.evaluate(s.id, obj) == Runs(jobout, status)
    ensures Tried(wf, c, s) == c.(running := c.running[s.id := Report(jobout, status)])
  {}

  /** An output of a skipped step is null, or the empty list exactly for a step that lists when skipped. */
  ghost predicate SkippedOutput(s: Step, o: Output, state: State) {
    && o.id in state && state[o.id].Some?
    && var item := state[o.id].value;
       && item.typ == o.typ && item.status == Skipped
       && (s.listsWhenSkipped ==> item.value == Array([]))
       && (!s.listsWhenSkipped ==> item.value == Null)
  }

  lemma SkipReports(s: Step)
    ensures SkipReport(s).status == Skipped
    ensures forall o :: o in s.outputs ==>
              && o.id in SkipReport(s).jobout
              && SkipReport(s).jobout[o.id] == if s.listsWhenSkipped then Array([]) else Null
  {}

  /** A step whose `when` is false is completed at once, with null outputs, and fails nothing. */
  lemma SkipsByRule(wf: Workflow, c: Sched, s: Step, m: Mode, obj: Object)
    requires StepModeRule(wf, m) && Idle(c, s) && DistinctIds(s.outputs)
    requires Assemble(m, c.state, s.inputs) == Ready(obj) && wf.evaluate(s.id, obj) == WhenFalse
    ensures var c' := Tried(wf, c, s);
            && c'.completed == c.completed + {s.id} && c'.running == c.running
            && (forall o :: o in s.outputs ==> SkippedOutput(s, o, c'.state))
            && FrameRule(s.outputs, |s.outputs|, c.state, c'.state)
            && (|c'.completed| != |wf.steps| ==> c'.status == c.status && c'.calls == c.calls)
  {
    SkipReports(s);
    ReportsByRule(wf, c, s, SkipReport(s));
    var c' := Tried(wf, c, s);
    assert c.running - {s.id} == c.running;
    forall o | o in s.outputs ensures SkippedOutput(s, o, c'.state) {
      var i :| 0 <= i < |s.outputs| && s.outputs[i] == o;
      assert RecordRule(s.outputs, i, SkipReport(s), c.state, c'.state);
    }
  }

  // ---------------------------------------------------------------- the final callback

  /** The mode in which the workflow's outputs are collected: short names, from whatever is there. */
  ghost predicate OutputModeRule(wf: Workflow, m: Mode) {
    m == Mode(true, wf.multipleInput, true, wf.canAssign)
  }

  /** The callback gets the collected outputs and the status, or no outputs and a permanent failure. */
  ghost predicate CallRule(wf: Workflow, m: Mode, state: State, status: Status, call: Call, status': Status) {
    var a := Assemble(m, state, wf.outputs);
    && (a.Ready? ==> call == Call(Some(a.obj), status) && status' == status)
    && (a.Raises? ==> call == Call(None, PermanentFail) && status' == PermanentFail)
    && a != NotReady
  }

  lemma CallsByRule(wf: Workflow, c: Sched, m: Mode)
    requires OutputModeRule(wf, m)
    ensures var c' := Called(wf, c);
            && |c'.calls| == |c.calls| + 1 && c'.calls[..|c.calls|] == c.calls
            && CallRule(wf, m, c.state, c.status, c'.calls[|c.calls|], c'.status)
            && c'.state == c.state && c'.running == c.running && c'.completed == c.completed
  {
    NeverNotReady(m, c.state, wf.outputs, |wf.outputs|);
  }

  /** The one callback of a run that ends in `F`. */
  lemma FinalCallByRule(wf: Workflow, F: State, m: Mode) returns (status: Status)
    requires OutputModeRule(wf, m)
    ensures CallRule(wf, m, F, Success, FinalCall(wf, F), status)
  {
    var c := Sched(F, map[], {}, Success, []);
    CallsByRule(wf, c, m);
    status := Called(wf, c).status;
  }

  /** A pick of one value has one to pick: some that is not null, and for the only one no second. */
  ghost predicate Pickable(m: Mode, F: State, p: Param)
    requires KnownSources(m, F, p)
  {
    forall list :: LinkRule(p, Present(F, p.sources.value, |p.sources.value|), Array(list)) ==>
      && (p.pickValue == Some(FirstNonNull) || p.pickValue == Some(TheOnlyNonNull) ==> !AllNulls(list))
      && (p.pickValue == Some(TheOnlyNonNull) ==> !TwoNonNull(list))
  }

  /** The workflow's outputs have distinct names, and their sources are known, fit and can be picked from. */
  ghost predicate Collectable(wf: Workflow, F: State, m: Mode) {
    DistinctKeys(m, wf.outputs) && forall p :: p in wf.outputs ==> KnownSources(m, F, p) && Pickable(m, F, p)
  }

  /** The output's value: what the values that are there are linked to, then the pick and the default. */
  ghost predicate OutputRule(m: Mode, F: State, p: Param, v: Value)
    requires KnownSources(m, F, p)
  {
    var vals := Present(F, p.sources.value, |p.sources.value|);
    exists linked: Option<Value> ::
      && (linked.Some? <==> vals != []) && (linked.Some? ==> LinkRule(p, vals, linked.value))
      && SettleRule(m, p, linked, Set(v))
  }

  lemma OutputSlot(m: Mode, F: State, p: Param) returns (v: Value)
    requires m.incomplete && KnownSources(m, F, p) && Pickable(m, F, p)
    ensures ParamSlot(m, F, p) == Set(v) && OutputRule(m, F, p, v)
  {
    var linked := IncompleteSlot(m, F, p);
    assert ParamSlot(m, F, p).Set?;
    v := ParamSlot(m, F, p).value;
    assert SettleRule(m, p, linked, Set(v));
  }

  lemma AllOutputs(wf: Workflow, F: State, m: Mode)
    requires OutputModeRule(wf, m) && Collectable(wf, F, m)
    ensures Assemble(m, F, wf.outputs).Ready?
  {
    forall i | 0 <= i < |wf.outputs| ensures ParamSlot(m, F, wf.outputs[i]).Set? {
      var v := OutputSlot(m, F, wf.outputs[i]);
    }
    AssembleExact(m, F, wf.outputs);
  }

  lemma OneOutput(wf: Workflow, F: State, m: Mode, p: Param)
    requires OutputModeRule(wf, m) && Collectable(wf, F, m) && p in wf.outputs && Assemble(m, F, wf.outputs).Ready?
    ensures var obj := Assemble(m, F, wf.outputs).obj; p.shortId in obj && OutputRule(m, F, p, obj[p.shortId])
  {
    var i :| 0 <= i < |wf.outputs| && wf.outputs[i] == p;
    AssembledValues(m, F, wf.outputs, i, p.shortId);
    var v := OutputSlot(m, F, p);
  }

  lemma OutputNames(wf: Workflow, F: State, m: Mode)
    requires OutputModeRule(wf, m) && Collectable(wf, F, m) && Assemble(m, F, wf.outputs).Ready?
    ensures Assemble(m, F, wf.outputs).obj.Keys == set p | p in wf.outputs :: p.shortId
  {
    AssembleExact(m, F, wf.outputs);
    var obj := Assemble(m, F, wf.outputs).obj;
    forall k | k in obj ensures exists p :: p in wf.outputs && p.shortId == k {
      var j :| 0 <= j < |wf.outputs| && Key(m, wf.outputs[j]) == k;
      assert wf.outputs[j] in wf.outputs;
    }
    forall p | p in wf.outputs ensures p.shortId in obj { OneOutput(wf, F, m, p); }
  }

  /** Then the callback gets an object with exactly the outputs' short names, each with what its sources give. */
  lemma OutputsCollected(wf: Workflow, F: State, m: Mode) returns (obj: Object)
    requires OutputModeRule(wf, m) && Collectable(wf, F, m)
    ensures FinalCall(wf, F) == Call(Some(obj), Success)
    ensures obj.Keys == set p | p in wf.outputs :: p.shortId
    ensures forall p :: p in wf.outputs ==> p.shortId in obj && OutputRule(m, F, p, obj[p.shortId])
  {
    var status := FinalCallByRule(wf, F, m);
    AllOutputs(wf, F, m);
    OutputNames(wf, F, m);
    obj := Assemble(m, F, wf.outputs).obj;
    forall p | p in wf.outputs ensures p.shortId in obj && OutputRule(m, F, p, obj[p.shortId]) {
      OneOutput(wf, F, m, p);
    }
  }

  /** An output with one source has its value in `F`, whatever its default is, unless that is null. */
  lemma SingleOutput(wf: Workflow, F: State, m: Mode, p: Param, src: string)
    requires OutputModeRule(wf, m) && Collectable(wf, F, m) && p in wf.outputs
    requires p.sources == Some([src]) && p.linkMerge.None? && p.pickValue.None? && src in F && F[src].Some?
    ensures FinalCall(wf, F).status == Success && FinalCall(wf, F).output.Some?
    ensures var obj, v := FinalCall(wf, F).output.value, F[src].value.value;
            p.shortId in obj && obj[p.shortId] == if v == Null && p.default.Some? then p.default.value else v
  {
    var obj := OutputsCollected(wf, F, m);
    OneSource(m, F, p, src);
    var i :| 0 <= i < |wf.outputs| && wf.outputs[i] == p;
    var status := FinalCallByRule(wf, F, m);
    AssembledValues(m, F, wf.outputs, i, p.shortId);
  }

  /** An output that raises leaves the callback without outputs, and fails. */
  lemma FailedOutput(wf: Workflow, F: State, m: Mode, k: nat)
    requires OutputModeRule(wf, m) && k < |wf.outputs| && ParamSlot(m, F, wf.outputs[k]).Bad?
    requires forall i :: 0 <= i < k ==> ParamSlot(m, F, wf.outputs[i]).Set?
    ensures FinalCall(wf, F) == Call(None, PermanentFail)
  {
    FirstBad(m, F, wf.outputs, k, |wf.outputs|);
    var status := FinalCallByRule(wf, F, m);
  }

  /** A complete run has called back once, with those outputs. */
  lemma CompleteOutputs(wf: Workflow, F: State, c: Sched, m: Mode) returns (obj: Object)
    requires OutputModeRule(wf, m) && Collectable(wf, F, m) && Complete(wf, F, c)
    ensures c.calls == [Call(Some(obj), Success)] && obj.Keys == set p | p in wf.outputs :: p.shortId
    ensures forall p :: p in wf.outputs ==> p.shortId in obj && OutputRule(m, c.state, p, obj[p.shortId])
  {
    obj := OutputsCollected(wf, F, m);
  }

  // ---------------------------------------------------------------- the values of a solution

  /** In a solution every step has what it reports on its inputs; null or the empty list if it is skipped. */
  lemma SolutionValues(wf: Workflow, init: State, F: State, s: Step, m: Mode) returns (obj: Object)
    requires StepModeRule(wf, m) && Solution(wf, init, F) && s in wf.steps
    ensures Assemble(m, F, s.inputs) == Ready(obj) && wf.evaluate(s.id, obj) != CannotMakeJob
    ensures wf.evaluate(s.id, obj) == WhenFalse ==> forall o :: o in s.outputs ==> SkippedOutput(s, o, F)
    ensures forall jobout, status :: wf.evaluate(s.id, obj) == Runs(jobout, status) ==>
              Good(status) && forall o :: o in s.outputs ==>
                o.id in jobout && o.id in F && F[o.id] == Some(Item(o.typ, jobout[o.id], status))
  {
    assert Settled(wf, F, s);
    obj := Assemble(m, F, s.inputs).obj;
    SkipReports(s);
    forall o | o in s.outputs ensures Stands(F, o, ReportOf(wf, s, obj).value) {}
  }
}
