/**
 Loop steps (`WorkflowJobLoopStep`): the step is run again and again, its outputs feeding the
 next job order, until `when` becomes false. The imperative callback loop is shown to refine a
 fold over job orders.
 */
module LoopStep {
  import opened Values
  import opened InputAssembly

  datatype Condition = Holds | Fails | NotBoolean
  datatype Report = Report(jobout: Object, status: Status)
  datatype Output = Output(id: string, typ: CwlType)

  /**
   The loop step, with its run, its `when` and its `valueFrom` expressions as functions.
   `reportsInside` says that the run reports while the loop draws its jobs, as expression tools
   do; an exception of the callback then comes up in the loop, otherwise in the executor.
   */
  datatype Loop = Loop(
    outputs: seq<Output>,
    sources: seq<Param>,
    allIterations: bool,
    multipleInput: bool,
    expressionsAllowed: bool,
    reportsInside: bool,
    canAssign: (CwlType, CwlType) -> bool,
    when: Object -> Condition,
    run: Object -> Report,
    valueFrom: (string, Object, Value) -> Value)

  datatype Call = Call(outputs: Object, status: Status)

  /** What one report has been turned into: source state, output buffer, status. */
  datatype Collected = Collected(state: State, buffer: Object, status: Status)

  ghost predicate DistinctOutputs(loop: Loop) {
    forall i, j :: 0 <= i < j < |loop.outputs| ==> loop.outputs[i].id != loop.outputs[j].id
  }

  ghost predicate Lists(buffer: Object) {
    forall k :: k in buffer ==> buffer[k].Array?
  }

  /** The buffer entry of output `id` once it also holds `v`. */
  function Entry(loop: Loop, buffer: Object, id: string, v: Value): Value
    requires loop.allIterations && id in buffer ==> buffer[id].Array?
  {
    if loop.allIterations then Array((if id in buffer then buffer[id].elems else []) + [v]) else v
  }

  /** The first `k` outputs of a report. */
  function Collect(loop: Loop, k: nat, rep: Report, buffer: Object): (r: Collected)
    requires k <= |loop.outputs| && (loop.allIterations ==> Lists(buffer))
    ensures loop.allIterations ==> Lists(r.buffer)
  {
    if k == 0 then Collected(map[], buffer, rep.status)
    else
      var before := Collect(loop, k - 1, rep, buffer);
      var o := loop.outputs[k - 1];
      if o.id in rep.jobout then
        Collected(before.state[o.id := Some(Item(o.typ, rep.jobout[o.id], before.status))],
                  before.buffer[o.id := Entry(loop, before.buffer, o.id, rep.jobout[o.id])], before.status)
      else before.(status := PermanentFail)
  }

  function LoopParams(loop: Loop): seq<Param> {
    seq(|loop.sources|, i requires 0 <= i < |loop.sources| => loop.sources[i].(typ := Named("Any")))
  }

  function LoopMode(loop: Loop): Mode {
    Mode(false, loop.multipleInput, false, loop.canAssign)
  }

  function Expressions(loop: Loop): set<string> {
    set p | p in loop.sources && p.valueFrom.Some? :: p.id
  }

  /** The next job order, or an exception: a workflow exception or, as for a missing source object, another one. */
  datatype Successor = NextJob(job: Object) | WorkflowError | OtherError

  /** Outputs of this iteration over the current order, then `valueFrom`. */
  function NextOrder(loop: Loop, job: Object, state: State): Successor {
    match Assemble(LoopMode(loop), state, LoopParams(loop))
    case NotReady => OtherError
    case Raises(_) => WorkflowError
    case Ready(obj) =>
      if Expressions(loop) != {} && !loop.expressionsAllowed then WorkflowError
      else
        var merged := job + obj;
        NextJob(map k | k in merged :: if k in Expressions(loop) then loop.valueFrom(k, job, merged[k]) else merged[k])
  }

  // ---------------------------------------------------------------- the fold

  /** What one iteration on `job` reports, after missing outputs are accounted for. */
  function Iteration(loop: Loop, job: Object): Collected {
    Collect(loop, |loop.outputs|, loop.run(job), map[])
  }

  function Update(loop: Loop, job: Object): Successor {
    NextOrder(loop, job, Iteration(loop, job).state)
  }

  /** The loop goes on after `job`: its condition holds and its iteration does not fail. */
  ghost predicate GoesOn(loop: Loop, job: Object) {
    loop.when(job) == Holds && Iteration(loop, job).status != PermanentFail && Update(loop, job).NextJob?
  }

  /** The job order of iteration `k`: the `k`-fold update of the first one. */
  function OrderAt(loop: Loop, job: Object, k: nat): Object {
    if k == 0 then job
    else
      var before := OrderAt(loop, job, k - 1);
      if Update(loop, before).NextJob? then Update(loop, before).job else before
  }

  /** The first `n` iterations go on. */
  ghost predicate GoesOnFor(loop: Loop, job: Object, n: nat) {
    n > 0 ==> GoesOnFor(loop, job, n - 1) && GoesOn(loop, OrderAt(loop, job, n - 1))
  }

  /** From iteration `k` on, the loop goes on up to iteration `n` and stops there. */
  ghost predicate StopsAt(loop: Loop, job: Object, k: nat, n: nat)
    requires k <= n
    decreases n - k
  {
    if k == n then !GoesOn(loop, OrderAt(loop, job, k))
    else GoesOn(loop, OrderAt(loop, job, k)) && StopsAt(loop, job, k + 1, n)
  }

  function ReportAt(loop: Loop, job: Object, k: nat): Report {
    loop.run(OrderAt(loop, job, k))
  }

  /** The status when `k` iterations are over. */
  function StatusAt(loop: Loop, job: Object, k: nat): Status {
    if k == 0 then Success else ReportAt(loop, job, k - 1).status
  }

  function Got(loop: Loop, job: Object, i: nat, id: string): Value {
    var jobout := ReportAt(loop, job, i).jobout;
    if id in jobout then jobout[id] else Null
  }

  /** Output `id` was reported by each of the first `k` iterations and is buffered: all values, or the last. */
  ghost predicate Holding(loop: Loop, job: Object, k: nat, buffer: Object, id: string) {
    && k > 0 && id in buffer
    && (forall i: nat :: i < k ==> id in ReportAt(loop, job, i).jobout)
    && buffer[id] ==
       if loop.allIterations then Array(seq(k, i requires 0 <= i < k => Got(loop, job, i, id)))
       else Got(loop, job, k - 1, id)
  }

  /** The buffer after `k` iterations. */
  ghost predicate BufferAt(loop: Loop, job: Object, k: nat, buffer: Object) {
    && (loop.allIterations ==> Lists(buffer))
    && if k == 0 then buffer == map[]
       else buffer.Keys == (set o | o in loop.outputs :: o.id)
            && forall o :: o in loop.outputs ==> Holding(loop, job, k, buffer, o.id)
  }

  /** The output buffer after `k` iterations, as the callbacks build it up. */
  function BufferOf(loop: Loop, job: Object, k: nat): (buffer: Object)
    ensures loop.allIterations ==> Lists(buffer)
  {
    if k == 0 then map[]
    else Collect(loop, |loop.outputs|, ReportAt(loop, job, k - 1), BufferOf(loop, job, k - 1)).buffer
  }

  datatype Progress = Progress(joborder: Object, status: Status, iteration: nat, buffer: Object)

  /** Where the loop is after `k` iterations that went on. */
  function Fold(loop: Loop, job: Object, k: nat): Progress {
    Progress(OrderAt(loop, job, k), StatusAt(loop, job, k), k, BufferOf(loop, job, k))
  }

  // ---------------------------------------------------------------- collecting one iteration

  /** State and status do not depend on the buffer. */
  lemma {:induction false} CollectState(loop: Loop, k: nat, rep: Report, a: Object, b: Object)
    requires k <= |loop.outputs| && (loop.allIterations ==> Lists(a) && Lists(b))
    ensures var x, y := Collect(loop, k, rep, a), Collect(loop, k, rep, b);
            x.state == y.state && x.status == y.status
  {
    if k > 0 { CollectState(loop, k - 1, rep, a, b); }
  }

  lemma {:induction false} CollectStatus(loop: Loop, k: nat, rep: Report, buffer: Object)
    requires k <= |loop.outputs| && (loop.allIterations ==> Lists(buffer))
    ensures var status := Collect(loop, k, rep, buffer).status;
            status == rep.status || status == PermanentFail
  {
    if k > 0 { CollectStatus(loop, k - 1, rep, buffer); }
  }

  ghost predicate Grown(loop: Loop, rep: Report, before: Object, after: Object, id: string)
    requires loop.allIterations ==> Lists(before)
  {
    id in rep.jobout && id in after && after[id] == Entry(loop, before, id, rep.jobout[id])
  }

  ghost predicate Elsewhere(loop: Loop, k: nat, id: string)
    requires k <= |loop.outputs|
  {
    forall i :: 0 <= i < k ==> loop.outputs[i].id != id
  }

  lemma {:induction false} CollectFrame(loop: Loop, k: nat, rep: Report, buffer: Object)
    requires k <= |loop.outputs| && (loop.allIterations ==> Lists(buffer))
    ensures var after := Collect(loop, k, rep, buffer).buffer;
            forall id :: Elsewhere(loop, k, id) ==>
              (id in after <==> id in buffer) && (id in buffer ==> after[id] == buffer[id])
  {
    if k > 0 {
      CollectFrame(loop, k - 1, rep, buffer);
      forall id | Elsewhere(loop, k, id) ensures Elsewhere(loop, k - 1, id) && id != loop.outputs[k - 1].id {}
    }
  }

  /** If nothing is missing, every output is buffered once and the status is the reported one. */
  lemma {:induction false} CollectGrows(loop: Loop, k: nat, rep: Report, buffer: Object)
    requires DistinctOutputs(loop) && k <= |loop.outputs| && (loop.allIterations ==> Lists(buffer))
    requires Collect(loop, k, rep, buffer).status != PermanentFail
    ensures forall i :: 0 <= i < k ==>
              Grown(loop, rep, buffer, Collect(loop, k, rep, buffer).buffer, loop.outputs[i].id)
    ensures Collect(loop, k, rep, buffer).status == rep.status
  {
    if k > 0 {
      CollectGrows(loop, k - 1, rep, buffer);
      CollectFrame(loop, k - 1, rep, buffer);
      var o, mid := loop.outputs[k - 1], Collect(loop, k - 1, rep, buffer).buffer;
      assert Elsewhere(loop, k - 1, o.id);
      forall i | 0 <= i < k - 1
        ensures Grown(loop, rep, buffer, Collect(loop, k, rep, buffer).buffer, loop.outputs[i].id)
      {
        assert Grown(loop, rep, buffer, mid, loop.outputs[i].id) && loop.outputs[i].id != o.id;
      }
    }
  }

  // ---------------------------------------------------------------- the buffer over the iterations

  lemma HoldingStep(loop: Loop, job: Object, k: nat, buffer: Object, after: Object, id: string)
    requires loop.allIterations ==> Lists(buffer)
    requires if k == 0 then id !in buffer else Holding(loop, job, k, buffer, id)
    requires Grown(loop, ReportAt(loop, job, k), buffer, after, id)
    ensures Holding(loop, job, k + 1, after, id)
  {
    if loop.allIterations {
      assert after[id].elems == seq(k + 1, i requires 0 <= i < k + 1 => Got(loop, job, i, id));
    }
  }

  lemma BufferKeys(loop: Loop, k: nat, buffer: Object, after: Object, rep: Report)
    requires loop.allIterations ==> Lists(buffer)
    requires if k == 0 then buffer == map[] else buffer.Keys == set o | o in loop.outputs :: o.id
    requires forall o :: o in loop.outputs ==> Grown(loop, rep, buffer, after, o.id)
    requires forall id :: Elsewhere(loop, |loop.outputs|, id) ==> (id in after <==> id in buffer)
    ensures after.Keys == set o | o in loop.outputs :: o.id
  {
    forall id | id in after ensures exists o :: o in loop.outputs && o.id == id {
      if !Elsewhere(loop, |loop.outputs|, id) {
        var i :| 0 <= i < |loop.outputs| && loop.outputs[i].id == id;
        assert loop.outputs[i] in loop.outputs;
      }
    }
  }

  /** Each iteration that goes on adds its outputs to the buffer. */
  lemma BufferStep(loop: Loop, job: Object, k: nat, buffer: Object)
    requires DistinctOutputs(loop) && BufferAt(loop, job, k, buffer)
    requires Iteration(loop, OrderAt(loop, job, k)).status != PermanentFail
    ensures var c := Collect(loop, |loop.outputs|, ReportAt(loop, job, k), buffer);
            BufferAt(loop, job, k + 1, c.buffer) && c.status == StatusAt(loop, job, k + 1)
  {
    var n, rep := |loop.outputs|, ReportAt(loop, job, k);
    CollectState(loop, n, rep, buffer, map[]);
    CollectGrows(loop, n, rep, buffer);
    CollectFrame(loop, n, rep, buffer);
    var after := Collect(loop, n, rep, buffer).buffer;
    forall o | o in loop.outputs ensures Grown(loop, rep, buffer, after, o.id) {
      var i :| 0 <= i < n && loop.outputs[i] == o;
    }
    BufferKeys(loop, k, buffer, after, rep);
    forall o | o in loop.outputs ensures Holding(loop, job, k + 1, after, o.id) {
      assert k > 0 ==> Holding(loop, job, k, buffer, o.id);
      HoldingStep(loop, job, k, buffer, after, o.id);
    }
  }

  ghost predicate Buffered(loop: Loop, job: Object, n: nat) {
    BufferAt(loop, job, n, BufferOf(loop, job, n))
  }

  lemma NothingBuffered(loop: Loop, job: Object)
    ensures Buffered(loop, job, 0)
  {}

  lemma OneMoreBuffered(loop: Loop, job: Object, n: nat)
    requires DistinctOutputs(loop) && GoesOn(loop, OrderAt(loop, job, n)) && Buffered(loop, job, n)
    ensures Buffered(loop, job, n + 1)
  {
    BufferStep(loop, job, n, BufferOf(loop, job, n));
  }

  /** The buffer of the fold holds exactly the values of the iterations. */
  lemma {:induction false} BufferExact(loop: Loop, job: Object, n: nat)
    requires DistinctOutputs(loop) && GoesOnFor(loop, job, n)
    ensures Buffered(loop, job, n)
  {
    if n == 0 {
      NothingBuffered(loop, job);
    } else {
      BufferExact(loop, job, n - 1);
      OneMoreBuffered(loop, job, n - 1);
    }
  }

  lemma {:induction false} StopsGoesOn(loop: Loop, job: Object, k: nat, n: nat)
    requires k <= n && GoesOnFor(loop, job, k) && StopsAt(loop, job, k, n)
    ensures GoesOnFor(loop, job, n)
    decreases n - k
  {
    if k < n { StopsGoesOn(loop, job, k + 1, n); }
  }

  // ---------------------------------------------------------------- the class of the code

  datatype Ended = WhenFalse | IterationFailed | CaughtError | RaisedError

  class WorkflowJobLoopStep {
    const loop: Loop
    var joborder: Object
    var processStatus: Status
    var iteration: nat
    var outputBuffer: Object
    var calls: seq<Call>

    constructor (loop: Loop)
      ensures this.loop == loop && joborder == map[] && processStatus == Success
      ensures iteration == 0 && outputBuffer == map[] && calls == []
    {
      this.loop := loop;
      joborder, processStatus, iteration, outputBuffer, calls := map[], Success, 0, map[], [];
    }

    /** Collects the outputs of one iteration, value by value. */
    method CollectOutputs(rep: Report) returns (state: State, status: Status)
      requires loop.allIterations ==> Lists(outputBuffer)
      modifies `outputBuffer
      ensures Collected(state, outputBuffer, status) == Collect(loop, |loop.outputs|, rep, old(outputBuffer))
    {
      state, status := map[], rep.status;
      for i := 0 to |loop.outputs|
        invariant Collected(state, outputBuffer, status) == Collect(loop, i, rep, old(outputBuffer))
      {
        var o := loop.outputs[i];
        if o.id in rep.jobout {
          var v := rep.jobout[o.id];
          state := state[o.id := Some(Item(o.typ, v, status))];
          if loop.allIterations {
            if o.id !in outputBuffer { outputBuffer := outputBuffer[o.id := Array([])]; }
            outputBuffer := outputBuffer[o.id := Array(outputBuffer[o.id].elems + [v])];
          } else {
            outputBuffer := outputBuffer[o.id := v];
          }
        } else {
          status := PermanentFail;
        }
      }
    }

    /** `loop_callback`. */
    method LoopCallback(rep: Report) returns (next: Successor)
      requires loop.allIterations ==> Lists(outputBuffer)
      modifies this
      ensures calls == old(calls) && iteration == old(iteration) + 1
      ensures var c := Collect(loop, |loop.outputs|, rep, old(outputBuffer));
              && next == NextOrder(loop, old(joborder), c.state) && outputBuffer == c.buffer
              && joborder == (if next.NextJob? then next.job else old(joborder))
              && processStatus ==
                 (if !next.NextJob? || old(processStatus) == PermanentFail then PermanentFail else c.status)
    {
      iteration := iteration + 1;
      var state, status := CollectOutputs(rep);
      if processStatus != PermanentFail { processStatus := status; }
      next := NextOrder(loop, joborder, state);
      if next.NextJob? {
        joborder := next.job;
      } else {
        processStatus := PermanentFail;
      }
    }

    ghost function View(): Progress
      reads this
    {
      Progress(joborder, processStatus, iteration, outputBuffer)
    }

    /** How the loop ends after `k` iterations that went on. */
    ghost predicate EndsWith(ended: Ended, job: Object) {
      && (ended == WhenFalse <==> loop.when(job) == Fails)
      && (ended == IterationFailed <==>
            loop.when(job) == Holds && Update(loop, job).NextJob? && Iteration(loop, job).status == PermanentFail)
      && (ended == CaughtError <==> loop.when(job) == Holds && Update(loop, job) == OtherError && loop.reportsInside)
    }

    /** One iteration: the fold advances, or the loop does not go on. */
    method Iterate(first: Object, ghost k: nat) returns (next: Successor)
      requires View() == Fold(loop, first, k) && loop.when(joborder) == Holds
      modifies this
      ensures calls == old(calls) && iteration == k + 1
      ensures next == Update(loop, OrderAt(loop, first, k))
      ensures processStatus == if next.NextJob? then Iteration(loop, OrderAt(loop, first, k)).status else PermanentFail
      ensures GoesOn(loop, OrderAt(loop, first, k)) ==> View() == Fold(loop, first, k + 1)
    {
      processStatus := Unreported;
      var rep := loop.run(joborder);
      CollectState(loop, |loop.outputs|, rep, outputBuffer, map[]);
      CollectStatus(loop, |loop.outputs|, rep, outputBuffer);
      next := LoopCallback(rep);
    }

    /** One round of the loop: test `when`, and iterate if it holds. */
    method Round(first: Object, ghost k: nat) returns (ended: Option<Ended>)
      requires View() == Fold(loop, first, k)
      modifies this
      ensures calls == old(calls)
      ensures ended.None? <==> GoesOn(loop, OrderAt(loop, first, k))
      ensures ended.None? ==> View() == Fold(loop, first, k + 1)
      ensures ended.Some? ==> EndsWith(ended.value, OrderAt(loop, first, k))
      ensures ended == Some(WhenFalse) ==> View() == Fold(loop, first, k)
      ensures ended == Some(IterationFailed) || ended == Some(CaughtError) ==>
                iteration == k + 1 && processStatus == PermanentFail
    {
      match loop.when(joborder)
      case Fails => return Some(WhenFalse);
      case NotBoolean => return Some(RaisedError);
      case Holds =>
        var next := Iterate(first, k);
        match next
        case NextJob(_) => return if processStatus == PermanentFail then Some(IterationFailed) else None;
        case WorkflowError => return Some(RaisedError);
        case OtherError => return Some(if loop.reportsInside then CaughtError else RaisedError);
    }

    /** Rounds until the loop does not go on, which is after `n` iterations. */
    method Rounds(first: Object, ghost n: nat) returns (ended: Ended)
      requires View() == Fold(loop, first, 0)
      requires StopsAt(loop, first, 0, n)
      modifies this
      ensures calls == old(calls)
      ensures EndsWith(ended, OrderAt(loop, first, n))
      ensures ended == WhenFalse ==> View() == Fold(loop, first, n)
      ensures ended == IterationFailed || ended == CaughtError ==> iteration == n + 1 && processStatus == PermanentFail
    {
      ghost var k := 0;
      while true
        invariant k <= n && StopsAt(loop, first, k, n)
        invariant View() == Fold(loop, first, k) && calls == old(calls)
        decreases n - k
      {
        var r := Round(first, k);
        if r.Some? { return r.value; }
        k := k + 1;
      }
    }

    /**
     The loop refines the fold. Let `n` be the number of iterations after which the loop does
     not go on. If it ends because `when` is false, the callback was called exactly once, after
     `n` iterations that ran on the successive updates of the first job order, with their outputs
     buffered in order and the last status. If iteration `n` fails, the one call reports the
     failure; so it does for an exception that the loop catches, and any other one ends it
     without a call.
     */
    method Job(first: Object, ghost n: nat) returns (ended: Ended)
      requires DistinctOutputs(loop) && forall job :: loop.run(job).status != Unreported
      requires StopsAt(loop, first, 0, n)
      requires processStatus == Success && iteration == 0 && outputBuffer == map[] && calls == []
      modifies this
      ensures EndsWith(ended, OrderAt(loop, first, n))
      ensures ended == WhenFalse ==>
                && iteration == n && joborder == OrderAt(loop, first, n) && BufferAt(loop, first, n, outputBuffer)
                && calls == [Call(outputBuffer, StatusAt(loop, first, n))]
      ensures ended == IterationFailed || ended == CaughtError ==>
                iteration == n + 1 && calls == [Call(outputBuffer, PermanentFail)]
      ensures ended == RaisedError ==> calls == []
    {
      joborder := first;
      ended := Rounds(first, n);
      StopsGoesOn(loop, first, 0, n);
      BufferExact(loop, first, n);
      if ended != RaisedError { calls := [Call(outputBuffer, processStatus)]; }
    }
  }
}
