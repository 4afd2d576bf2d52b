/**
 Where "the final callback is called exactly once" ends: steps that report twice, and failing
 runs of parallel jobs.
 */
module SecondCalls {
  import opened Values
  import opened InputAssembly
  import opened Scheduler

  // ---------------------------------------------------------------- a step that reports twice

  lemma {:induction false} RecordedAt(outputs: seq<Output>, j: nat, k: nat, rep: Report, state: State)
    requires j < k <= |outputs|
    requires forall i, i' :: 0 <= i < i' < |outputs| ==> outputs[i].id != outputs[i'].id
    ensures var o := outputs[j]; var st := Recorded(outputs, k, rep, state).0;
            o.id in rep.jobout ==>
              o.id in st && st[o.id] == Some(Item(o.typ, rep.jobout[o.id], Recorded(outputs, j, rep, state).1))
  {
    if j < k - 1 { RecordedAt(outputs, j, k - 1, rep, state); }
  }

  /** Recording the first `j` outputs again, over a state that already holds the first `k`. */
  lemma {:induction false} RecordedOver(outputs: seq<Output>, j: nat, k: nat, rep: Report, state: State)
    requires j <= k <= |outputs|
    requires forall i, i' :: 0 <= i < i' < |outputs| ==> outputs[i].id != outputs[i'].id
    ensures var st := Recorded(outputs, k, rep, state).0;
            Recorded(outputs, j, rep, st) == (st, Recorded(outputs, j, rep, state).1)
  {
    if j > 0 {
      RecordedOver(outputs, j - 1, k, rep, state);
      RecordedAt(outputs, j - 1, k, rep, state);
      var o, st := outputs[j - 1], Recorded(outputs, k, rep, state).0;
      assert o.id in rep.jobout ==> st[o.id := st[o.id]] == st;
    }
  }

  /**
   A step that reports twice, as a scatter whose items were all skipped does, changes nothing
   the second time, except that the final callback is called again exactly when all steps
   are completed.
   */
  lemma SecondReport(wf: Workflow, c: Sched, s: Step, rep: Report)
    requires forall i, j :: 0 <= i < j < |s.outputs| ==> s.outputs[i].id != s.outputs[j].id
    ensures var c1 := Received(wf, c, s, rep);
            var c2 := Received(wf, c1, s, rep);
            && c2.state == c1.state && c2.completed == c1.completed && c2.running == c1.running
            && |c2.calls| == |c1.calls| + if |c1.completed| == |wf.steps| then 1 else 0
  {
    RecordedOver(s.outputs, |s.outputs|, |s.outputs|, rep, c.state);
    var c1 := Absorbed(c, s, rep);
    CalledFacts(wf, c1);
    var c1' := Received(wf, c, s, rep);
    var c2 := Absorbed(c1', s, rep);
    assert c2.state == c1'.state && c2.completed == c1'.completed;
    CalledFacts(wf, c2);
  }

  // ---------------------------------------------------------------- runs in which steps report twice

  /** The report of a step, followed at once by the same report if the step is one of `twice`. */
  function Reported(wf: Workflow, twice: set<string>, c: Sched, step: Step, rep: Report): Sched {
    var c1 := Received(wf, c, step, rep);
    if step.id in twice then Received(wf, c1, step, rep) else c1
  }

  function TriedAs(wf: Workflow, twice: set<string>, c: Sched, step: Step): Sched {
    var a := Assemble(StepMode(wf), c.state, step.inputs);
    if !Submitted(c, step) && a.Ready? && wf.evaluate(step.id, a.obj).WhenFalse? then
      Reported(wf, twice, c, step, SkipReport(step))
    else Tried(wf, c, step)
  }

  /** `Next`, with the steps of `twice` reporting twice. */
  ghost predicate NextAs(wf: Workflow, twice: set<string>, c: Sched, c': Sched) {
    || (c.calls == [] && exists step :: step in wf.steps && c' == TriedAs(wf, twice, c, step))
    || (exists step :: step in wf.steps && step.id in c.running
                       && c' == Reported(wf, twice, c, step, c.running[step.id]))
    || (c.calls == [] && (|c.completed| == |wf.steps| || c.status != Success) && c' == Called(wf, c))
  }

  ghost predicate IsRunAs(wf: Workflow, twice: set<string>, job: Object, run: seq<Sched>) {
    && run != [] && Init(wf, job) == Some(run[0])
    && forall i :: 0 <= i < |run| - 1 ==> NextAs(wf, twice, run[i], run[i + 1])
  }

  /** Recording the outputs of a usable report that stands already changes nothing. */
  lemma {:induction false} RecordedAgain(outputs: seq<Output>, k: nat, rep: Report, state: State)
    requires k <= |outputs| && forall i :: 0 <= i < k ==> Stands(state, outputs[i], rep)
    ensures Recorded(outputs, k, rep, state) == (state, rep.status)
  {
    if k > 0 {
      RecordedAgain(outputs, k - 1, rep, state);
      var o := outputs[k - 1];
      assert Stands(state, o, rep);
      assert state[o.id := state[o.id]] == state;
    }
  }

  lemma AbsorbedAgain(c: Sched, s: Step, rep: Report)
    requires Usable(rep.status) && s.id in c.completed && s.id !in c.running
    requires forall o :: o in s.outputs ==> Stands(c.state, o, rep)
    ensures Absorbed(c, s, rep) == c && Usable(Recorded(s.outputs, |s.outputs|, rep, c.state).1)
  {
    RecordedAgain(s.outputs, |s.outputs|, rep, c.state);
    assert c.running - {s.id} == c.running && c.completed + {s.id} == c.completed;
  }

  /** The callback says the same when it is called again. */
  lemma CalledAgain(wf: Workflow, c: Sched)
    requires c.status == Success && c.calls == []
    ensures Called(wf, c).calls == [FinalCall(wf, c.state)]
    ensures Called(wf, Called(wf, c)) == Called(wf, c).(calls := [FinalCall(wf, c.state), FinalCall(wf, c.state)])
  {}

  /** The calls after the last step's report, or its two reports. */
  ghost function LastCalls(wf: Workflow, F: State, twice: bool): seq<Call> {
    if twice then [FinalCall(wf, F), FinalCall(wf, F)] else [FinalCall(wf, F)]
  }

  /** The step's first report, in a run that follows `F`. */
  ghost predicate Reports(wf: Workflow, init: State, F: State, c: Sched, s: Step, rep: Report) {
    && ValidWorkflow(wf) && Sound(wf, init, c) && Solution(wf, init, F) && Follows(wf, F, c) && c.calls == []
    && s in wf.steps && s.id !in c.completed
    && var a := Assemble(StepMode(wf), c.state, s.inputs); a.Ready? && ReportOf(wf, s, a.obj) == Some(rep)
  }

  lemma AbsorbedStands(wf: Workflow, init: State, F: State, c: Sched, s: Step, rep: Report)
    requires Reports(wf, init, F, c, s, rep)
    ensures var a := Absorbed(c, s, rep);
            && a.status == Success && Usable(rep.status) && a.calls == []
            && forall o :: o in s.outputs ==> Stands(a.state, o, rep)
  {
    assert Settled(wf, F, s);
    AbsorbedSucceeds(wf, F, c, s, rep);
    AbsorbedFacts(wf, c, s, rep);
  }

  lemma AbsorbedEnds(wf: Workflow, init: State, F: State, c: Sched, s: Step, rep: Report)
    requires Reports(wf, init, F, c, s, rep)
    ensures var a := Absorbed(c, s, rep); |a.completed| == |wf.steps| ==> a.state == F
  {
    var a := Absorbed(c, s, rep);
    assert Settled(wf, F, s);
    AbsorbedSucceeds(wf, F, c, s, rep);
    AbsorbedFollows(wf, F, c, s, rep);
    AbsorbedSound(wf, init, c, s, rep);
    if |a.completed| == |wf.steps| { CompleteReaches(wf, init, F, a); }
  }

  /** Absorbing does not look at the calls, nor at a status that cannot get worse. */
  lemma AbsorbedCalled(a: Sched, b: Sched, s: Step, rep: Report)
    requires Absorbed(a, s, rep) == a && b.state == a.state && b.running == a.running && b.completed == a.completed
    requires Usable(Recorded(s.outputs, |s.outputs|, rep, a.state).1)
    ensures Absorbed(b, s, rep) == b
  {}

  /** In a run that follows `F`, a second report adds a second call if the step was the last one, and nothing else. */
  lemma ReportedTwice(wf: Workflow, init: State, F: State, twice: set<string>, c: Sched, s: Step, rep: Report)
    requires Reports(wf, init, F, c, s, rep)
    ensures var c1, c' := Received(wf, c, s, rep), Reported(wf, twice, c, s, rep);
            && c' == c1.(calls := c'.calls) && c1.completed == c.completed + {s.id}
            && c'.calls == if |c1.completed| == |wf.steps| then LastCalls(wf, F, s.id in twice) else []
  {
    var a := Absorbed(c, s, rep);
    AbsorbedStands(wf, init, F, c, s, rep);
    AbsorbedEnds(wf, init, F, c, s, rep);
    AbsorbedAgain(a, s, rep);
    CalledFacts(wf, a);
    CalledAgain(wf, a);
    AbsorbedCalled(a, Called(wf, a), s, rep);
  }

  /** The same state after the first call of the final callback. */
  function Once(c: Sched): Sched {
    c.(calls := if c.calls == [] then [] else [c.calls[0]])
  }

  /** The step `s` completes last, with its calls. */
  ghost predicate CompletesLast(wf: Workflow, F: State, twice: set<string>, c: Sched, c': Sched, s: Step) {
    && s in wf.steps && s.id !in c.completed && c'.completed == c.completed + {s.id} == Ids(wf.steps)
    && c'.calls == LastCalls(wf, F, s.id in twice)
  }

  ghost predicate SomeLast(wf: Workflow, F: State, twice: set<string>, c: Sched, c': Sched) {
    exists s :: CompletesLast(wf, F, twice, c, c', s)
  }

  ghost predicate GoesOn(wf: Workflow, init: State, F: State, twice: set<string>, c: Sched, c': Sched) {
    && Sound(wf, init, Once(c')) && Follows(wf, F, Once(c'))
    && (c'.calls == [] || SomeLast(wf, F, twice, c, c'))
  }

  lemma ReportedGoesOn(wf: Workflow, init: State, F: State, twice: set<string>, c: Sched, s: Step, rep: Report)
    requires Reports(wf, init, F, c, s, rep)
    ensures GoesOn(wf, init, F, twice, c, Reported(wf, twice, c, s, rep))
  {
    var c1, c' := Received(wf, c, s, rep), Reported(wf, twice, c, s, rep);
    ReportedTwice(wf, init, F, twice, c, s, rep);
    ReportedTwice(wf, init, F, {}, c, s, rep);
    ReceivedSound(wf, init, c, s, rep);
    ReceivedFollows(wf, init, F, c, s, rep);
    assert Once(c') == c1;
    CountedAll(wf, c1.completed);
    if c'.calls != [] { assert CompletesLast(wf, F, twice, c, c', s); }
  }

  /** Trying a step that is not skipped calls nothing. */
  lemma TriedQuietly(wf: Workflow, c: Sched, step: Step)
    requires var a := Assemble(StepMode(wf), c.state, step.inputs);
             Submitted(c, step) || !a.Ready? || !wf.evaluate(step.id, a.obj).WhenFalse?
    ensures Tried(wf, c, step).calls == c.calls
  {}

  lemma StepGoesOn(wf: Workflow, init: State, F: State, twice: set<string>, c: Sched, c': Sched)
    requires ValidWorkflow(wf) && Sound(wf, init, c) && Solution(wf, init, F) && Follows(wf, F, c)
    requires c.calls == [] && wf.steps != [] && NextAs(wf, twice, c, c')
    ensures GoesOn(wf, init, F, twice, c, c')
  {
    if step :| step in wf.steps && c' == TriedAs(wf, twice, c, step) {
      var a := Assemble(StepMode(wf), c.state, step.inputs);
      if !Submitted(c, step) && a.Ready? && wf.evaluate(step.id, a.obj).WhenFalse? {
        ReportedGoesOn(wf, init, F, twice, c, step, SkipReport(step));
      } else {
        TriedSound(wf, init, c, step);
        TriedFollows(wf, init, F, c, step);
        TriedQuietly(wf, c, step);
        assert Once(c') == c';
      }
    } else {
      var step :| step in wf.steps && step.id in c.running && c' == Reported(wf, twice, c, step, c.running[step.id]);
      assert RunsAsDetermined(wf, c, step);
      ReportedGoesOn(wf, init, F, twice, c, step, c.running[step.id]);
    }
  }

  /** Once all steps are completed and the callback was called, nothing more happens. */
  lemma NothingAfter(wf: Workflow, init: State, twice: set<string>, c: Sched, c': Sched)
    requires Sound(wf, init, Once(c)) && c.calls != [] && c.completed == Ids(wf.steps)
    ensures !NextAs(wf, twice, c, c')
  {
    assert Once(c).running == c.running && Once(c).completed == c.completed;
  }

  lemma {:induction false} RunGoesOn(wf: Workflow, job: Object, F: State, twice: set<string>, run: seq<Sched>, i: nat)
    requires ValidWorkflow(wf) && IsRunAs(wf, twice, job, run) && Solution(wf, run[0].state, F) && wf.steps != []
    requires i < |run|
    ensures Sound(wf, run[0].state, Once(run[i])) && Follows(wf, F, Once(run[i]))
    ensures run[i].calls != [] ==> i == |run| - 1 && i > 0 && SomeLast(wf, F, twice, run[i - 1], run[i])
  {
    if i == 0 {
      InitSound(wf, job);
      InitFollows(wf, job, F);
      assert Once(run[0]) == run[0];
    } else {
      RunGoesOn(wf, job, F, twice, run, i - 1);
      assert Once(run[i - 1]) == run[i - 1];
      StepGoesOn(wf, run[0].state, F, twice, run[i - 1], run[i]);
      if run[i].calls != [] && i < |run| - 1 {
        NothingAfter(wf, run[0].state, twice, run[i], run[i + 1]);
      }
    }
  }

  /**
   In a workflow with a solution, every run that completes all steps ends with the step that
   completes last, and calls the final callback twice if that step reports twice, else once.
   Earlier double reports leave no trace.
   */
  lemma LastReportDecides(wf: Workflow, job: Object, F: State, twice: set<string>, run: seq<Sched>)
    returns (last: Step)
    requires ValidWorkflow(wf) && IsRunAs(wf, twice, job, run) && Solution(wf, run[0].state, F) && wf.steps != []
    requires |run[|run| - 1].completed| == |wf.steps|
    ensures |run| > 1 && CompletesLast(wf, F, twice, run[|run| - 2], run[|run| - 1], last)
    ensures forall i :: 0 <= i < |run| - 1 ==> run[i].calls == []
    ensures run[|run| - 1].state == F
  {
    var n := |run| - 1;
    RunGoesOn(wf, job, F, twice, run, n);
    forall i | 0 <= i < n ensures run[i].calls == [] { RunGoesOn(wf, job, F, twice, run, i); }
    CompleteReaches(wf, run[0].state, F, Once(run[n]));
    last :| CompletesLast(wf, F, twice, run[n - 1], run[n], last);
  }

  lemma NobodyTwiceStep(wf: Workflow, c: Sched, c': Sched)
    ensures NextAs(wf, {}, c, c') <==> Next(wf, c, c')
  {
    forall step ensures TriedAs(wf, {}, c, step) == Tried(wf, c, step) {}
  }

  /** Without steps that report twice these are the runs of the scheduler. */
  lemma NobodyTwice(wf: Workflow, job: Object, run: seq<Sched>)
    ensures IsRunAs(wf, {}, job, run) <==> IsRun(wf, job, run)
  {
    forall c, c' ensures NextAs(wf, {}, c, c') <==> Next(wf, c, c') { NobodyTwiceStep(wf, c, c'); }
  }

  // ---------------------------------------------------------------- failing runs of parallel jobs

  const A := Step("#w/a", [], [], false)
  const B := Step("#w/b", [], [], false)

  /** Two steps without inputs or outputs; the first one fails. */
  function TwoSteps(): Workflow {
    Workflow([], [A, B], [], false, (_, _) => true,
             (id, _) => Runs(map[], if id == A.id then PermanentFail else Success))
  }

  /** Both steps are tried. */
  lemma BothTried(job: Object) returns (c0: Sched, c1: Sched, c2: Sched)
    ensures var wf := TwoSteps(); Init(wf, job) == Some(c0) && Next(wf, c0, c1) && Next(wf, c1, c2)
    ensures var reports := map[A.id := Report(map[], PermanentFail), B.id := Report(map[], Success)];
            c2 == Sched(map[], reports, {}, Success, [])
  {
    var wf := TwoSteps();
    assert OutputIds(wf) == {};
    c0 := Init(wf, job).value;
    assert c0 == Sched(map[], map[], {}, Success, []);
    c1 := Tried(wf, c0, A);
    c2 := Tried(wf, c1, B);
    assert A in wf.steps && B in wf.steps;
  }

  /** The first one fails, and the loop gives up. */
  lemma FirstFails(c2: Sched) returns (c3: Sched, c4: Sched)
    requires c2.running == map[A.id := Report(map[], PermanentFail), B.id := Report(map[], Success)]
    requires c2 == Sched(map[], c2.running, {}, Success, [])
    ensures var wf := TwoSteps(); Next(wf, c2, c3) && Next(wf, c3, c4)
    ensures c4.running == map[B.id := Report(map[], Success)] && c4.completed == {A.id} && |c4.calls| == 1
  {
    var wf := TwoSteps();
    assert A in wf.steps && c2.running - {A.id} == map[B.id := Report(map[], Success)];
    c3 := Received(wf, c2, A, c2.running[A.id]);
    c4 := Called(wf, c3);
    CalledFacts(wf, c3);
  }

  /** The other one reports. */
  lemma LastReports(c4: Sched) returns (c5: Sched)
    requires c4.running == map[B.id := Report(map[], Success)] && c4.completed == {A.id}
    ensures Next(TwoSteps(), c4, c5) && |c5.calls| == |c4.calls| + 1
  {
    var wf := TwoSteps();
    assert B in wf.steps;
    c5 := Received(wf, c4, B, c4.running[B.id]);
    var c := Absorbed(c4, B, c4.running[B.id]);
    assert c.completed == {A.id, B.id};
    CalledFacts(wf, c);
  }

  /**
   In a failing run the final callback can be called twice: the loop gives up and calls it
   while the other step is still running, and that step's report calls it again.
   */
  lemma FailingRunCallsTwice(job: Object) returns (run: seq<Sched>)
    ensures IsRun(TwoSteps(), job, run) && |run[|run| - 1].calls| == 2
  {
    var c0, c1, c2 := BothTried(job);
    var c3, c4 := FirstFails(c2);
    var c5 := LastReports(c4);
    run := [c0];
    run := Longer(TwoSteps(), job, run, c1);
    run := Longer(TwoSteps(), job, run, c2);
    run := Longer(TwoSteps(), job, run, c3);
    run := Longer(TwoSteps(), job, run, c4);
    run := Longer(TwoSteps(), job, run, c5);
  }

  ghost predicate Tidy(wf: Workflow, c: Sched) {
    c.completed <= Ids(wf.steps) && c.running.Keys <= Ids(wf.steps) && c.completed !! c.running.Keys
  }

  /** The loop was left, and the callback called, before all steps were completed. */
  ghost predicate LeftEarly(wf: Workflow, c: Sched) {
    Tidy(wf, c) && |c.calls| == 1 && |c.completed| < |wf.steps|
  }

  ghost predicate Continues(wf: Workflow, run: seq<Sched>) {
    |run| > 1 ==> Next(wf, run[0], run[1]) && Continues(wf, run[1..])
  }

  ghost predicate EndsInSecondCall(wf: Workflow, c: Sched, run: seq<Sched>) {
    run != [] && run[0] == c && Continues(wf, run) && |run[|run| - 1].calls| == 2
  }

  /** `c'` is `c` after step `id` has reported. */
  ghost predicate Moved(wf: Workflow, c: Sched, c': Sched, id: string) {
    && id in c.running && c'.running == c.running - {id} && c'.completed == c.completed + {id}
    && |c'.calls| == |c.calls| + if |c'.completed| == |wf.steps| then 1 else 0
  }

  lemma ReceivedMoves(wf: Workflow, c: Sched, s: Step)
    requires s.id in c.running
    ensures Moved(wf, c, Received(wf, c, s, c.running[s.id]), s.id)
  {
    CalledFacts(wf, Absorbed(c, s, c.running[s.id]));
  }

  /** After the callback, only running steps still report. */
  lemma LaterStep(wf: Workflow, c: Sched, c': Sched) returns (id: string)
    requires c.calls != [] && Next(wf, c, c')
    ensures id in Ids(wf.steps) && Moved(wf, c, c', id)
  {
    var s :| s in wf.steps && s.id in c.running && c' == Received(wf, c, s, c.running[s.id]);
    ReceivedMoves(wf, c, s);
    id := s.id;
  }

  lemma MovedSets(wf: Workflow, c: Sched, c': Sched, id: string)
    requires Tidy(wf, c) && Moved(wf, c, c', id)
    ensures Tidy(wf, c') && id in Ids(wf.steps) && id !in c.completed
    ensures c'.running.Keys + c'.completed == c.running.Keys + c.completed
  {}

  lemma BelowAll(wf: Workflow, completed: set<string>, id: string)
    requires ValidWorkflow(wf) && completed <= Ids(wf.steps) && id in Ids(wf.steps) && id !in completed
    ensures |completed| < |wf.steps|
  {
    CountedAll(wf, completed);
    CountBound(wf, completed);
  }

  lemma MovedTidy(wf: Workflow, c: Sched, c': Sched, id: string)
    requires ValidWorkflow(wf) && Tidy(wf, c) && Moved(wf, c, c', id)
    ensures Tidy(wf, c') && |c.completed| < |wf.steps| && |c'.completed| <= |wf.steps|
    ensures c'.running.Keys + c'.completed == c.running.Keys + c.completed
  {
    MovedSets(wf, c, c', id);
    BelowAll(wf, c.completed, id);
    CountBound(wf, c'.completed);
  }

  /** One early call, and a second one once all steps are completed. */
  ghost predicate CalledAsCounted(wf: Workflow, c: Sched) {
    Tidy(wf, c) && |c.calls| == if |c.completed| == |wf.steps| then 2 else 1
  }

  lemma LaterCounted(wf: Workflow, c: Sched, c': Sched)
    requires ValidWorkflow(wf) && CalledAsCounted(wf, c) && Next(wf, c, c')
    ensures CalledAsCounted(wf, c') && c'.running.Keys + c'.completed == c.running.Keys + c.completed
  {
    var id := LaterStep(wf, c, c');
    MovedTidy(wf, c, c', id);
  }

  lemma {:induction false} AfterLeaving(wf: Workflow, run: seq<Sched>)
    requires ValidWorkflow(wf) && run != [] && Continues(wf, run) && CalledAsCounted(wf, run[0])
    ensures var last := run[|run| - 1];
            && CalledAsCounted(wf, last)
            && last.running.Keys + last.completed == run[0].running.Keys + run[0].completed
  {
    if |run| > 1 {
      LaterCounted(wf, run[0], run[1]);
      AfterLeaving(wf, run[1..]);
    }
  }

  lemma ReportOne(wf: Workflow, c: Sched) returns (c': Sched, id: string)
    requires c.running != map[] && Tidy(wf, c)
    ensures Next(wf, c, c') && Moved(wf, c, c', id)
  {
    id :| id in c.running.Keys;
    assert id in Ids(wf.steps);
    var s :| s in wf.steps && s.id == id;
    c' := Received(wf, c, s, c.running[id]);
    ReceivedMoves(wf, c, s);
  }

  lemma {:induction false} DrainRunning(wf: Workflow, c: Sched) returns (run: seq<Sched>)
    requires ValidWorkflow(wf) && LeftEarly(wf, c) && c.running.Keys + c.completed == Ids(wf.steps)
    ensures EndsInSecondCall(wf, c, run)
    decreases c.running.Keys
  {
    CountedAll(wf, c.completed);
    var c', id := ReportOne(wf, c);
    MovedTidy(wf, c, c', id);
    if |c'.completed| == |wf.steps| {
      run := [c, c'];
    } else {
      var rest := DrainRunning(wf, c');
      run := [c] + rest;
      assert run[1..] == rest;
    }
  }

  /**
   Exactly when a second final callback can follow an early one: when every incomplete step
   was already running at the time the loop was left.
   */
  lemma SecondCallIff(wf: Workflow, c: Sched)
    requires ValidWorkflow(wf) && LeftEarly(wf, c)
    ensures (exists run :: EndsInSecondCall(wf, c, run)) <==> c.running.Keys + c.completed == Ids(wf.steps)
  {
    forall run: seq<Sched> | EndsInSecondCall(wf, c, run) ensures c.running.Keys + c.completed == Ids(wf.steps) {
      AfterLeaving(wf, run);
      CountedAll(wf, run[|run| - 1].completed);
    }
    if c.running.Keys + c.completed == Ids(wf.steps) {
      var run := DrainRunning(wf, c);
    }
  }
}
