/**
 The scheduling loop of `WorkflowJob.job` as the single-job executor drives it: every job is
 run, and its report received, before the next step is tried.
 */
module WorkflowJobs {
  import opened Values
  import opened InputAssembly
  import opened Scheduler
  import opened Progress

  /** Trying a step and, if that starts it, receiving its report at once. */
  function Turn(wf: Workflow, c: Sched, step: Step): Sched {
    var c' := Tried(wf, c, step);
    if step.id in c'.running then Received(wf, c', step, c'.running[step.id]) else c'
  }

  /** Every state but the first is the one before it, after the turn of the next step in order. */
  ghost predicate TurnsInOrder(wf: Workflow, cs: seq<Sched>) {
    0 < |cs| <= |wf.steps| + 1 && forall k :: 0 <= k < |cs| - 1 ==> cs[k + 1] == Turn(wf, cs[k], wf.steps[k])
  }

  ghost predicate StopsThere(wf: Workflow, stop: bool, cs: seq<Sched>)
    requires cs != []
  {
    && (stop ==> forall k :: 0 <= k < |cs| - 1 ==> cs[k].status == Success)
    && (|cs| == |wf.steps| + 1 || (stop && cs[|cs| - 1].status != Success))
  }

  /** All steps get their turn, or `on_error: stop` ends the pass at the first state that is no success. */
  ghost predicate PassRule(wf: Workflow, stop: bool, before: Sched, after: Sched) {
    exists cs :: TurnsInOrder(wf, cs) && cs[0] == before && cs[|cs| - 1] == after && StopsThere(wf, stop, cs)
  }

  /** The first `i` turns of a pass. */
  ghost predicate PassUpTo(wf: Workflow, stop: bool, before: Sched, after: Sched, i: nat) {
    exists cs: seq<Sched> :: TurnsInOrder(wf, cs) && cs[0] == before && cs[|cs| - 1] == after && |cs| == i + 1
                 && (stop ==> forall k :: 0 <= k < i ==> cs[k].status == Success)
  }

  lemma NoTurnYet(wf: Workflow, stop: bool, c: Sched)
    ensures PassUpTo(wf, stop, c, c, 0)
  {
    assert TurnsInOrder(wf, [c]);
  }

  lemma TurnAppended(wf: Workflow, cs: seq<Sched>, next: Sched)
    requires TurnsInOrder(wf, cs) && |cs| <= |wf.steps| && next == Turn(wf, cs[|cs| - 1], wf.steps[|cs| - 1])
    ensures TurnsInOrder(wf, cs + [next])
  {
    var longer := cs + [next];
    forall k | 0 <= k < |cs| ensures longer[k + 1] == Turn(wf, longer[k], wf.steps[k]) {
      assert longer[k] == cs[k];
      assert k < |cs| - 1 ==> longer[k + 1] == cs[k + 1];
    }
  }

  lemma NextTurn(wf: Workflow, stop: bool, before: Sched, after: Sched, i: nat)
    requires i < |wf.steps| && PassUpTo(wf, stop, before, after, i) && (stop ==> after.status == Success)
    ensures PassUpTo(wf, stop, before, Turn(wf, after, wf.steps[i]), i + 1)
  {
    var cs: seq<Sched> :| TurnsInOrder(wf, cs) && cs[0] == before && cs[|cs| - 1] == after && |cs| == i + 1
              && (stop ==> forall k :: 0 <= k < i ==> cs[k].status == Success);
    var next := Turn(wf, after, wf.steps[i]);
    TurnAppended(wf, cs, next);
    assert (cs + [next])[..i + 1] == cs;
    assert forall k :: 0 <= k <= i ==> (cs + [next])[k] == cs[k];
  }

  lemma PassOver(wf: Workflow, stop: bool, before: Sched, after: Sched, i: nat)
    requires i <= |wf.steps| && PassUpTo(wf, stop, before, after, i)
    requires i == |wf.steps| || (stop && after.status != Success)
    ensures PassRule(wf, stop, before, after)
  {
    var cs: seq<Sched> :| TurnsInOrder(wf, cs) && cs[0] == before && cs[|cs| - 1] == after && |cs| == i + 1
              && (stop ==> forall k :: 0 <= k < i ==> cs[k].status == Success);
    assert StopsThere(wf, stop, cs);
  }

  /** Between two turns of a sequential execution no step is running. */
  ghost predicate Between(wf: Workflow, job: Object, c: Sched) {
    && Init(wf, job).Some? && Sound(wf, Init(wf, job).value.state, c) && c.running == map[]
    && |c.calls| == if |c.completed| == |wf.steps| && wf.steps != [] then 1 else 0
  }

  /** Each of the first `k` steps is completed or still waits for a source. */
  ghost predicate AllWaiting(wf: Workflow, c: Sched, k: nat)
    requires k <= |wf.steps|
  {
    forall j :: 0 <= j < k ==>
      wf.steps[j].id in c.completed || Assemble(StepMode(wf), c.state, wf.steps[j].inputs) == NotReady
  }

  lemma NotAllWaiting(wf: Workflow, job: Object, c: Sched, order: seq<string>)
    requires Scheduled(wf, job, order) && Between(wf, job, c)
    requires c.status == Success && |c.completed| < |wf.steps|
    ensures !AllWaiting(wf, c, |wf.steps|)
  {
    var t := NoDeadlock(wf, job, c, order);
    var j :| 0 <= j < |wf.steps| && wf.steps[j] == t;
  }

  /** The one running step reports: still between turns, with that step completed. */
  lemma ReceivedBetween(wf: Workflow, job: Object, c: Sched, step: Step, rep: Report)
    requires ValidWorkflow(wf) && Init(wf, job).Some? && Sound(wf, Init(wf, job).value.state, c)
    requires step in wf.steps && step.id !in c.completed && c.running.Keys <= {step.id} && c.calls == []
    requires var a := Assemble(StepMode(wf), c.state, step.inputs);
             a.Ready? && ReportOf(wf, step, a.obj) == Some(rep)
    ensures Between(wf, job, Received(wf, c, step, rep))
    ensures Received(wf, c, step, rep).completed == c.completed + {step.id}
  {
    ReceivedSound(wf, Init(wf, job).value.state, c, step, rep);
    CalledFacts(wf, Absorbed(c, step, rep));
  }

  /** A turn completes its step ... */
  lemma TurnBetween(wf: Workflow, job: Object, c: Sched, step: Step)
    requires ValidWorkflow(wf) && Between(wf, job, c) && step in wf.steps
    ensures var c' := Turn(wf, c, step);
            Between(wf, job, c') && (c'.completed == c.completed || c'.completed == c.completed + {step.id})
  {
    var init := Init(wf, job).value.state;
    var a := Assemble(StepMode(wf), c.state, step.inputs);
    CountedAll(wf, c.completed);
    TriedSound(wf, init, c, step);
    if !Submitted(c, step) && a.Ready? && wf.evaluate(step.id, a.obj) != CannotMakeJob {
      var c' := if wf.evaluate(step.id, a.obj).WhenFalse? then c else Tried(wf, c, step);
      ReceivedBetween(wf, job, c', step, ReportOf(wf, step, a.obj).value);
    }
  }

  /** The step cannot be started in this state: its inputs are not assembled, or no job can be made of them. */
  ghost predicate Stuck(wf: Workflow, state: State, step: Step) {
    var a := Assemble(StepMode(wf), state, step.inputs);
    !a.Ready? || wf.evaluate(step.id, a.obj) == CannotMakeJob
  }

  /** Each of the first `k` steps is completed or stuck. */
  ghost predicate AllStuck(wf: Workflow, c: Sched, k: nat)
    requires k <= |wf.steps|
  {
    forall j :: 0 <= j < k ==> wf.steps[j].id in c.completed || Stuck(wf, c.state, wf.steps[j])
  }

  /** ... or changes nothing but the status. */
  lemma TurnWaits(wf: Workflow, c: Sched, step: Step)
    requires c.running == map[]
    ensures var c' := Turn(wf, c, step);
            c'.completed == c.completed ==>
              && c'.state == c.state && (step.id in c.completed || Stuck(wf, c.state, step))
              && (c'.status == Success ==> c.status == Success)
              && (c'.status == Success && step.id !in c.completed ==>
                    Assemble(StepMode(wf), c.state, step.inputs) == NotReady)
  {
    var a := Assemble(StepMode(wf), c.state, step.inputs);
    if !Submitted(c, step) && a.Ready? && wf.evaluate(step.id, a.obj) != CannotMakeJob {
      var c' := if wf.evaluate(step.id, a.obj).WhenFalse? then c else Tried(wf, c, step);
      CalledFacts(wf, Absorbed(c', step, ReportOf(wf, step, a.obj).value));
      assert step.id in Turn(wf, c, step).completed;
    }
  }

  /** A turn is made of steps of the state machine. */
  lemma TurnReaches(wf: Workflow, job: Object, c: Sched, step: Step)
    requires ValidWorkflow(wf) && Between(wf, job, c) && step in wf.steps
    ensures Reaches(wf, c, Turn(wf, c, step))
  {
    ReachesItself(wf, c);
    CountedAll(wf, c.completed);
    var tried := Tried(wf, c, step);
    if !Submitted(c, step) {
      assert Next(wf, c, tried);
      ReachesNext(wf, c, c, tried);
      if step.id in tried.running { ReachesNext(wf, c, tried, Turn(wf, c, step)); }
    }
  }

  /** Where a pass that began at `c0` stands before its turn `i`. */
  ghost predicate PassAt(wf: Workflow, job: Object, c0: Sched, c: Sched, made: bool, i: nat)
    requires i <= |wf.steps|
  {
    && Between(wf, job, c) && c0.completed <= c.completed && (made <==> c.completed != c0.completed)
    && (!made ==> AllStuck(wf, c, i))
    && (!made && c.status == Success ==> AllWaiting(wf, c, i))
  }

  lemma TurnFacts(wf: Workflow, job: Object, c0: Sched, c: Sched, made: bool, i: nat)
    requires ValidWorkflow(wf) && i < |wf.steps| && PassAt(wf, job, c0, c, made, i)
    ensures var c' := Turn(wf, c, wf.steps[i]);
            PassAt(wf, job, c0, c', made || c'.completed != c.completed, i + 1)
  {
    TurnBetween(wf, job, c, wf.steps[i]);
    TurnWaits(wf, c, wf.steps[i]);
  }

  /** A pass of an accepted workflow makes progress unless something has failed. */
  lemma PassProgress(wf: Workflow, job: Object, order: seq<string>, c0: Sched, c: Sched, made: bool)
    requires Scheduled(wf, job, order) && PassAt(wf, job, c0, c, made, |wf.steps|) && |c0.completed| < |wf.steps|
    ensures c.status == Success ==> made
  {
    if c.status == Success && !made { NotAllWaiting(wf, job, c, order); }
  }

  /** Where the dataflow equations have a solution, nothing fails on the way and more steps are completed. */
  ghost predicate Advances(wf: Workflow, job: Object, c: Sched, c': Sched)
    requires Init(wf, job).Some?
  {
    forall F :: Solution(wf, Init(wf, job).value.state, F) && OnTrack(wf, job, F, c) ==>
      OnTrack(wf, job, F, c') && c.completed < c'.completed
  }

  lemma OnTrackCompletesMore(wf: Workflow, job: Object, F: State, c: Sched, c': Sched)
    requires Init(wf, job).Some? && OnTrack(wf, job, F, c') && |c.completed| < |wf.steps|
    requires c.completed <= c'.completed && (c'.status == Success ==> c'.completed != c.completed)
    ensures c.completed < c'.completed
  {
    assert c'.status == Success || |c'.completed| == |wf.steps|;
    assert c'.completed != c.completed;
  }

  lemma PassAdvances(wf: Workflow, job: Object, c: Sched, c': Sched)
    requires ValidWorkflow(wf) && Init(wf, job).Some? && Reaches(wf, c, c') && |c.completed| < |wf.steps|
    requires c.completed <= c'.completed && (c'.status == Success ==> c'.completed != c.completed)
    ensures Advances(wf, job, c, c')
  {
    forall F | Solution(wf, Init(wf, job).value.state, F) && OnTrack(wf, job, F, c)
      ensures OnTrack(wf, job, F, c') && c.completed < c'.completed
    {
      ReachesOnTrack(wf, job, F, c, c');
      OnTrackCompletesMore(wf, job, F, c, c');
    }
  }

  lemma MoreCompleted(a: set<string>, b: set<string>)
    requires a <= b
    ensures |a| <= |b| && (a != b ==> |a| < |b|)
  {
    assert b == a + (b - a);
  }

  /** The loop invariant of a pass. */
  ghost predicate Passing(wf: Workflow, job: Object, stop: bool, c0: Sched, c: Sched, made: bool, i: nat)
    requires i <= |wf.steps|
  {
    PassAt(wf, job, c0, c, made, i) && Reaches(wf, c0, c) && PassUpTo(wf, stop, c0, c, i)
  }

  lemma PassBegins(wf: Workflow, job: Object, stop: bool, c: Sched)
    requires Between(wf, job, c)
    ensures Passing(wf, job, stop, c, c, false, 0)
  {
    NoTurnYet(wf, stop, c);
    ReachesItself(wf, c);
  }

  lemma PassGoesOn(wf: Workflow, job: Object, stop: bool, c0: Sched, c: Sched, made: bool, i: nat)
    requires ValidWorkflow(wf) && i < |wf.steps| && Passing(wf, job, stop, c0, c, made, i)
    requires stop ==> c.status == Success
    ensures var c' := Turn(wf, c, wf.steps[i]);
            Passing(wf, job, stop, c0, c', made || c'.completed != c.completed, i + 1)
  {
    NextTurn(wf, stop, c0, c, i);
    TurnFacts(wf, job, c0, c, made, i);
    TurnReaches(wf, job, c, wf.steps[i]);
    ReachesAll(wf, c0, c, Turn(wf, c, wf.steps[i]));
  }

  lemma PassEnds(wf: Workflow, job: Object, stop: bool, order: seq<string>, c0: Sched, c: Sched, made: bool, i: nat)
    requires Scheduled(wf, job, order) && i <= |wf.steps| && Passing(wf, job, stop, c0, c, made, i)
    requires |c0.completed| < |wf.steps| && (i == |wf.steps| || (stop && c.status != Success))
    ensures Advances(wf, job, c0, c) && PassRule(wf, stop, c0, c)
    ensures c.status == Success ==> made
  {
    PassOver(wf, stop, c0, c, i);
    if i == |wf.steps| { PassProgress(wf, job, order, c0, c, made); }
    PassAdvances(wf, job, c0, c);
  }

  function Blanked(state: State, ids: set<string>): State {
    state + map id | id in ids :: None
  }

  function IdsOf(outputs: seq<Output>): set<string> {
    set o | o in outputs :: o.id
  }

  function IdsOfSteps(steps: seq<Step>): set<string> {
    set s, o | s in steps && o in s.outputs :: o.id
  }

  lemma BlankedTwice(state: State, a: set<string>, b: set<string>)
    ensures Blanked(Blanked(state, a), b) == Blanked(state, a + b)
  {}

  lemma BlankOne(state: State, ids: set<string>, id: string)
    ensures Blanked(state, ids)[id := None] == Blanked(state, ids + {id})
  {}

  lemma OneMoreId(outputs: seq<Output>, j: nat)
    requires j < |outputs|
    ensures IdsOf(outputs[..j + 1]) == IdsOf(outputs[..j]) + {outputs[j].id}
  {
    assert outputs[..j + 1] == outputs[..j] + [outputs[j]];
  }

  lemma OneMoreStepIds(steps: seq<Step>, i: nat)
    requires i < |steps|
    ensures IdsOfSteps(steps[..i + 1]) == IdsOfSteps(steps[..i]) + IdsOf(steps[i].outputs)
  {
    assert steps[..i + 1] == steps[..i] + [steps[i]];
  }

  lemma MissingInput(inputs: seq<Input>, k: nat, job: Object)
    requires k <= |inputs| && InputState(inputs, k, job).None?
    ensures InputState(inputs, |inputs|, job).None?
    decreases |inputs| - k
  {
    if k < |inputs| { MissingInput(inputs, k + 1, job); }
  }

  lemma StartsBetween(wf: Workflow, job: Object)
    requires ValidWorkflow(wf) && Init(wf, job).Some?
    ensures var c := Init(wf, job).value;
            c == Sched(c.state, map[], {}, Success, []) && Between(wf, job, c)
  {
    InitSound(wf, job);
  }

  /** What holds when the loop is left, and after the callback that a run left early still makes. */
  lemma AtTheEnd(wf: Workflow, job: Object, c: Sched)
    requires ValidWorkflow(wf) && Between(wf, job, c)
    ensures |c.completed| <= |wf.steps| && (|c.completed| == |wf.steps| <==> c.completed == Ids(wf.steps))
    ensures |c.calls| <= 1 && (c.calls == [] ==> |Called(wf, c).calls| == 1)
    ensures c.completed == Ids(wf.steps) && c.status == Success ==> Solution(wf, Init(wf, job).value.state, c.state)
    ensures Called(wf, c).state == c.state && Called(wf, c).completed == c.completed
    ensures Called(wf, c).status == Success ==> c.status == Success
  {
    CountedAll(wf, c.completed);
    CountBound(wf, c.completed);
    CalledFacts(wf, c);
  }

  /** Where the equations have a solution, the passes end with all steps completed. */
  lemma NobodyGivesUp(wf: Workflow, job: Object, c0: Sched, c: Sched)
    requires ValidWorkflow(wf) && Init(wf, job).Some? && Reaches(wf, c0, c) && Between(wf, job, c)
    ensures forall F :: Solution(wf, Init(wf, job).value.state, F) && OnTrack(wf, job, F, c0) ==> OnTrack(wf, job, F, c)
  {
    forall F | Solution(wf, Init(wf, job).value.state, F) && OnTrack(wf, job, F, c0) ensures OnTrack(wf, job, F, c) {
      ReachesOnTrack(wf, job, F, c0, c);
    }
  }

  /** The callback after the loop is a step of the state machine. */
  lemma CallReaches(wf: Workflow, c0: Sched, c: Sched)
    requires Reaches(wf, c0, c) && c.calls == [] && (|c.completed| == |wf.steps| || c.status != Success)
    ensures Reaches(wf, c0, Called(wf, c))
  {
    ReachesNext(wf, c0, c, Called(wf, c));
  }

  /** What the run has come to once the callback was called, if the equations have a solution. */
  lemma EndsComplete(wf: Workflow, job: Object, c0: Sched, c: Sched, end: Sched)
    requires ValidWorkflow(wf) && Init(wf, job) == Some(c0) && Reaches(wf, c0, end) && end.calls != []
    ensures forall F :: Solution(wf, c0.state, F) ==> Complete(wf, F, end)
  {
    InitSound(wf, job);
    forall F | Solution(wf, c0.state, F) ensures Complete(wf, F, end) {
      InitFollows(wf, job, F);
      ReachesOnTrack(wf, job, F, c0, end);
      AllStepsCompleted(wf, job, F, end);
    }
  }

  // ---------------------------------------------------------------- the scheduling loop

  /** How the scheduling loop ended; `Stalled` is the `yield None` with nothing left to run. */
  datatype Outcome = InputMissing | AllCompleted | GaveUp | Stalled

  class WorkflowJob {
    const wf: Workflow
    var state: State
    var running: map<string, Report>
    var submitted: set<string>
    var completed: set<string>
    var processStatus: Status
    var calls: seq<Call>
    var madeProgress: bool

    constructor (wf: Workflow)
      ensures this.wf == wf
    {
      this.wf := wf;
      state, running, submitted, completed := map[], map[], {}, {};
      processStatus, calls, madeProgress := Success, [], false;
    }

    ghost function Snapshot(): Sched
      reads this
    {
      Sched(state, running, completed, processStatus, calls)
    }

    ghost predicate Consistent()
      reads this
    {
      submitted == running.Keys + completed
    }

    method DoOutputCallback()
      requires Consistent()
      modifies this
      ensures Snapshot() == Called(wf, old(Snapshot())) && Consistent()
      ensures completed == old(completed) && madeProgress == old(madeProgress)
    {
      match Assemble(OutputMode(wf), state, wf.outputs)
      case Ready(obj) => calls := calls + [Call(Some(obj), processStatus)];
      case NotReady => calls := calls + [Call(None, processStatus)];
      case Raises(_) =>
        processStatus := PermanentFail;
        calls := calls + [Call(None, processStatus)];
    }

    method RecordOutputs(step: Step, rep: Report) returns (status: Status)
      modifies `state
      ensures (state, status) == Recorded(step.outputs, |step.outputs|, rep, old(state))
    {
      status := rep.status;
      for i := 0 to |step.outputs|
        invariant (state, status) == Recorded(step.outputs, i, rep, old(state))
      {
        var o := step.outputs[i];
        if o.id in rep.jobout {
          state := state[o.id := Some(Item(o.typ, rep.jobout[o.id], status))];
        } else {
          status := PermanentFail;
        }
      }
    }

    method Absorb(step: Step, rep: Report)
      requires Consistent()
      modifies this
      ensures Snapshot() == Absorbed(old(Snapshot()), step, rep)
      ensures Consistent() && completed == old(completed) + {step.id} && madeProgress
    {
      var status := RecordOutputs(step, rep);
      if !Usable(status) && processStatus != PermanentFail {
        processStatus := status;
      }
      running := running - {step.id};
      completed := completed + {step.id};
      submitted := submitted + {step.id};
      madeProgress := true;
    }

    method ReceiveOutput(step: Step, rep: Report)
      requires Consistent()
      modifies this
      ensures Snapshot() == Received(wf, old(Snapshot()), step, rep)
      ensures Consistent() && completed == old(completed) + {step.id} && madeProgress
    {
      Absorb(step, rep);
      if |completed| == |wf.steps| { DoOutputCallback(); }
    }

    method TryMakeJob(step: Step)
      requires Consistent()
      modifies this
      ensures Snapshot() == Tried(wf, old(Snapshot()), step) && Consistent()
      ensures madeProgress <==> old(madeProgress) || completed != old(completed)
    {
      if step.id in submitted { return; }
      match Assemble(StepMode(wf), state, step.inputs)
      case NotReady => return;
      case Raises(_) => processStatus := PermanentFail;
      case Ready(obj) =>
        match wf.evaluate(step.id, obj)
        case CannotMakeJob => processStatus := PermanentFail;
        case WhenFalse => ReceiveOutput(step, SkipReport(step));
        case Runs(jobout, status) =>
          running := running[step.id := Report(jobout, status)];
          submitted := submitted + {step.id};
    }

    /** One turn of the scheduling loop: try the step, run the job it yields, receive its report. */
    method RunStep(step: Step)
      requires Consistent() && running == map[]
      modifies this
      ensures Snapshot() == Turn(wf, old(Snapshot()), step) && Consistent()
      ensures madeProgress <==> old(madeProgress) || completed != old(completed)
    {
      TryMakeJob(step);
      if step.id in running {
        assert step.id !in old(completed);
        ReceiveOutput(step, running[step.id]);
      }
    }

    /**
     One pass over the steps. It completes at least one more step whenever the dataflow equations
     have a solution, and in any case unless something has failed; a full pass without progress
     leaves every incomplete step stuck.
     */
    method RunPass(job: Object, onErrorStop: bool, ghost order: seq<string>)
      requires Scheduled(wf, job, order) && Between(wf, job, Snapshot()) && Consistent()
      requires |completed| < |wf.steps|
      modifies this
      ensures Between(wf, job, Snapshot()) && Consistent() && Reaches(wf, old(Snapshot()), Snapshot())
      ensures old(completed) <= completed && (madeProgress <==> completed != old(completed))
      ensures processStatus == Success ==> madeProgress
      ensures Advances(wf, job, old(Snapshot()), Snapshot())
      ensures !madeProgress && !onErrorStop ==> AllStuck(wf, Snapshot(), |wf.steps|)
      ensures PassRule(wf, onErrorStop, old(Snapshot()), Snapshot())
    {
      ghost var c0 := Snapshot();
      madeProgress := false;
      PassBegins(wf, job, onErrorStop, c0);
      var i := 0;
      while i < |wf.steps| && !(onErrorStop && processStatus != Success)
        invariant i <= |wf.steps| && Passing(wf, job, onErrorStop, c0, Snapshot(), madeProgress, i) && Consistent()
      {
        PassGoesOn(wf, job, onErrorStop, c0, Snapshot(), madeProgress, i);
        RunStep(wf.steps[i]);
        i := i + 1;
      }
      PassEnds(wf, job, onErrorStop, order, c0, Snapshot(), madeProgress, i);
    }

    /**
     The passes, until all steps are completed or one makes no progress. Giving up takes a
     failure; with `onErrorStop` off it also takes that no incomplete step can be started.
     */
    method RunPasses(job: Object, onErrorStop: bool, ghost order: seq<string>) returns (outcome: Outcome, passes: nat)
      requires Scheduled(wf, job, order) && Between(wf, job, Snapshot()) && Consistent()
      modifies this
      ensures Between(wf, job, Snapshot()) && Consistent() && Reaches(wf, old(Snapshot()), Snapshot())
      ensures passes <= |completed| + if outcome == GaveUp then 1 else 0
      ensures outcome == if |completed| < |wf.steps| then GaveUp else AllCompleted
      ensures outcome == GaveUp ==> processStatus != Success
      ensures outcome == GaveUp && !onErrorStop ==> AllStuck(wf, Snapshot(), |wf.steps|)
      ensures forall F :: Solution(wf, Init(wf, job).value.state, F) && OnTrack(wf, job, F, old(Snapshot())) ==>
                outcome == AllCompleted && OnTrack(wf, job, F, Snapshot())
    {
      passes := 0;
      ghost var c0 := Snapshot();
      ReachesItself(wf, c0);
      while |completed| < |wf.steps|
        invariant Between(wf, job, Snapshot()) && Consistent() && Reaches(wf, c0, Snapshot())
        invariant passes <= |completed|
        decreases |wf.steps| - |completed|
      {
        ghost var c := Snapshot();
        RunPass(job, onErrorStop, order);
        ReachesAll(wf, c0, c, Snapshot());
        MoreCompleted(c.completed, completed);
        passes := passes + 1;
        if !madeProgress && |completed| < |wf.steps| {
          outcome := if processStatus != Success then GaveUp else Stalled;
          NobodyGivesUp(wf, job, c0, Snapshot());
          return;
        }
      }
      outcome := AllCompleted;
      NobodyGivesUp(wf, job, c0, Snapshot());
    }

    method BlankStep(outputs: seq<Output>)
      modifies `state
      ensures state == Blanked(old(state), IdsOf(outputs))
    {
      for j := 0 to |outputs|
        invariant state == Blanked(old(state), IdsOf(outputs[..j]))
      {
        BlankOne(old(state), IdsOf(outputs[..j]), outputs[j].id);
        OneMoreId(outputs, j);
        state := state[outputs[j].id := None];
      }
      assert outputs[..|outputs|] == outputs;
    }

    /** Every step output starts without a value. */
    method BlankOutputs()
      modifies `state
      ensures state == Blanked(old(state), OutputIds(wf))
    {
      for i := 0 to |wf.steps|
        invariant state == Blanked(old(state), IdsOfSteps(wf.steps[..i]))
      {
        BlankStep(wf.steps[i].outputs);
        BlankedTwice(old(state), IdsOfSteps(wf.steps[..i]), IdsOf(wf.steps[i].outputs));
        OneMoreStepIds(wf.steps, i);
      }
      assert wf.steps[..|wf.steps|] == wf.steps;
    }

    /** The workflow inputs: from the job order, else by default, else an error. */
    method GivenInputs(job: Object) returns (ok: bool, given: State)
      ensures ok <==> InputState(wf.inputs, |wf.inputs|, job).Some?
      ensures ok ==> InputState(wf.inputs, |wf.inputs|, job) == Some(given)
    {
      given := map[];
      for i := 0 to |wf.inputs|
        invariant InputState(wf.inputs, i, job) == Some(given)
      {
        var inp := wf.inputs[i];
        if inp.shortId in job {
          given := given[inp.id := Some(Item(inp.typ, job[inp.shortId], Success))];
        } else if inp.default.Some? {
          given := given[inp.id := Some(Item(inp.typ, inp.default.value, Success))];
        } else {
          MissingInput(wf.inputs, i + 1, job);
          return false, given;
        }
      }
      ok := true;
    }

    /** The start: the given inputs and blank outputs, unless a required input is missing. */
    method Start(job: Object) returns (ok: bool)
      requires ValidWorkflow(wf)
      modifies this
      ensures ok <==> Init(wf, job).Some?
      ensures ok ==> Snapshot() == Init(wf, job).value && Between(wf, job, Snapshot()) && Consistent()
    {
      var given;
      ok, given := GivenInputs(job);
      if !ok { return; }
      state, running, submitted, completed, processStatus, calls := given, map[], {}, {}, Success, [];
      BlankOutputs();
      StartsBetween(wf, job);
    }

    /**
     The scheduling loop. On an accepted workflow it never stalls, needs at most one pass per step,
     calls the final callback exactly once, and ends in a state that the state machine can reach.
     If the dataflow equations have a solution `F`, as they have when the steps succeed, it
     completes all steps, in `F`, with the output of `F`.
     */
    method Job(job: Object, onErrorStop: bool, ghost order: seq<string>) returns (outcome: Outcome, passes: nat)
      requires ValidWorkflow(wf) && NamedByStep(wf) && Accepted(wf, order)
      modifies this
      ensures outcome == InputMissing <==> Init(wf, job).None?
      ensures outcome != Stalled && passes <= |wf.steps|
      ensures outcome != InputMissing ==> |calls| == 1 && Reaches(wf, Init(wf, job).value, Snapshot())
      ensures outcome == AllCompleted ==> completed == Ids(wf.steps)
      ensures outcome == AllCompleted && processStatus == Success ==> Solution(wf, Init(wf, job).value.state, state)
      ensures outcome == GaveUp ==> processStatus != Success && |completed| < |wf.steps|
      ensures outcome == GaveUp && !onErrorStop ==> AllStuck(wf, Snapshot(), |wf.steps|)
      ensures forall F :: Init(wf, job).Some? && Solution(wf, Init(wf, job).value.state, F) ==>
                outcome == AllCompleted && Complete(wf, F, Snapshot())
      ensures Succeeding(wf, job, order) ==>
                && outcome == AllCompleted && Solution(wf, Init(wf, job).value.state, state)
                && completed == Ids(wf.steps) && calls == [FinalCall(wf, state)]
    {
      var ok := Start(job);
      if !ok { return InputMissing, 0; }
      ghost var c0 := Snapshot();
      outcome, passes := RunPasses(job, onErrorStop, order);
      ghost var c := Snapshot();
      AtTheEnd(wf, job, c);
      if calls == [] {
        DoOutputCallback();
        CallReaches(wf, c0, c);
      }
      EndsComplete(wf, job, c0, c, Snapshot());
      if Succeeding(wf, job, order) { var F := SolutionExists(wf, job, order); }
    }
  }
}
