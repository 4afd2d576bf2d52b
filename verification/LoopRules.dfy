/**
 What one iteration of a loop step does, in plain terms: its status, and the job order of the
 next iteration.
 */
module LoopRules {
  import opened Values
  import opened InputAssembly
  import opened LoopStep

  /** An output before `k` is missing in the report. */
  ghost predicate MissingBefore(outputs: seq<Output>, k: nat, jobout: Object)
    requires k <= |outputs|
  {
    exists j :: 0 <= j < k && outputs[j].id !in jobout
  }

  /** `id` is one of the first `k` outputs. */
  ghost predicate Declared(outputs: seq<Output>, k: nat, id: string)
    requires k <= |outputs|
  {
    exists j :: 0 <= j < k && outputs[j].id == id
  }

  lemma DeclaredStep(outputs: seq<Output>, k: nat, id: string)
    requires 0 < k <= |outputs|
    ensures Declared(outputs, k, id) <==> Declared(outputs, k - 1, id) || outputs[k - 1].id == id
  {
    if Declared(outputs, k - 1, id) { var j :| 0 <= j < k - 1 && outputs[j].id == id; }
  }

  lemma MissingStep(outputs: seq<Output>, k: nat, jobout: Object)
    requires 0 < k <= |outputs|
    ensures MissingBefore(outputs, k, jobout) <==> MissingBefore(outputs, k - 1, jobout) || outputs[k - 1].id !in jobout
  {
    if MissingBefore(outputs, k - 1, jobout) { var j :| 0 <= j < k - 1 && outputs[j].id !in jobout; }
  }

  /** What the outputs are collected to: those reported, each with its value. */
  ghost predicate CollectRule(loop: Loop, k: nat, rep: Report, state: State, id: string)
    requires k <= |loop.outputs|
  {
    && (id in state <==> id in rep.jobout && Declared(loop.outputs, k, id))
    && (id in state ==> id in rep.jobout && state[id].Some? && state[id].value.value == rep.jobout[id])
    && (id in state && !MissingBefore(loop.outputs, k, rep.jobout) ==> state[id].value.status == rep.status)
  }

  lemma {:induction false} CollectsByRule(loop: Loop, k: nat, rep: Report, buffer: Object, id: string)
    requires k <= |loop.outputs| && (loop.allIterations ==> Lists(buffer))
    ensures CollectRule(loop, k, rep, Collect(loop, k, rep, buffer).state, id)
    ensures Collect(loop, k, rep, buffer).status ==
            if MissingBefore(loop.outputs, k, rep.jobout) then PermanentFail else rep.status
  {
    if k > 0 {
      CollectsByRule(loop, k - 1, rep, buffer, id);
      DeclaredStep(loop.outputs, k, id);
      MissingStep(loop.outputs, k, rep.jobout);
    }
  }

  /** The outputs of an iteration. */
  ghost predicate Collects(loop: Loop, rep: Report, state: State) {
    forall id :: CollectRule(loop, |loop.outputs|, rep, state, id)
  }

  lemma CollectsAll(loop: Loop, job: Object)
    ensures Collects(loop, loop.run(job), Iteration(loop, job).state)
  {
    forall id ensures CollectRule(loop, |loop.outputs|, loop.run(job), Iteration(loop, job).state, id) {
      CollectsByRule(loop, |loop.outputs|, loop.run(job), map[], id);
    }
  }

  ghost predicate AllReported(loop: Loop, rep: Report) {
    forall o :: o in loop.outputs ==> o.id in rep.jobout
  }

  /** An iteration fails for good exactly if it says so or an output is missing; else its status is the reported one. */
  lemma IterationStatus(loop: Loop, job: Object)
    ensures var rep := loop.run(job);
            Iteration(loop, job).status == if AllReported(loop, rep) then rep.status else PermanentFail
  {
    var rep, n := loop.run(job), |loop.outputs|;
    CollectsByRule(loop, n, rep, map[], "");
    if !AllReported(loop, rep) {
      var o :| o in loop.outputs && o.id !in rep.jobout;
      var j :| 0 <= j < n && loop.outputs[j] == o;
      assert MissingBefore(loop.outputs, n, rep.jobout);
    }
  }

  // ---------------------------------------------------------------- the next job order

  ghost predicate DistinctSources(loop: Loop) {
    forall i, j :: 0 <= i < j < |loop.sources| ==> loop.sources[i].id != loop.sources[j].id
  }

  /** The sources of `p` are outputs that the iteration reported. */
  ghost predicate Reported(p: Param, jobout: Object) {
    p.sources.Some? ==> forall i :: 0 <= i < |p.sources.value| ==> p.sources.value[i] in jobout
  }

  ghost function ReportedValues(p: Param, jobout: Object): seq<Value>
    requires Reported(p, jobout)
  {
    if p.sources.None? then []
    else seq(|p.sources.value|, i requires 0 <= i < |p.sources.value| => jobout[p.sources.value[i]])
  }

  /** `v` is what the reported values are linked to, after the pick and the default. */
  ghost predicate SourceRule(m: Mode, p: Param, jobout: Object, v: Value)
    requires Reported(p, jobout)
  {
    exists linked: Option<Value> ::
      && (linked.Some? <==> ReportedValues(p, jobout) != [])
      && (linked.Some? ==> LinkRule(p, ReportedValues(p, jobout), linked.value))
      && SettleRule(m, p, linked, Set(v))
  }

  /** The value of a loop source in the next order: `valueFrom` sees the order of the iteration before. */
  ghost predicate NextValueRule(loop: Loop, m: Mode, p: Param, job: Object, jobout: Object, v: Value)
    requires Reported(p, jobout)
  {
    exists x :: SourceRule(m, p, jobout, x) && v == if p.valueFrom.Some? then loop.valueFrom(p.id, job, x) else x
  }

  ghost predicate LoopModeRule(loop: Loop, m: Mode) {
    m == Mode(false, loop.multipleInput, false, loop.canAssign)
  }

  lemma ParamAt(loop: Loop, i: nat)
    requires i < |loop.sources|
    ensures LoopParams(loop)[i] == loop.sources[i].(typ := Named("Any"))
  {}

  lemma KeysDistinct(loop: Loop, m: Mode)
    requires DistinctSources(loop) && LoopModeRule(loop, m)
    ensures DistinctKeys(m, LoopParams(loop))
  {}

  /** The declared type of a source does not matter for its value. */
  lemma TypelessRule(m: Mode, p: Param, q: Param, linked: Option<Value>, slot: Slot)
    requires q == p.(typ := q.typ) && SettleRule(m, q, linked, slot)
    ensures SettleRule(m, p, linked, slot)
  {
    if linked.Some? && linked.value.Array? && q.pickValue.Some? {
      var picked: Slot :| PickRule(linked.value.elems, q.pickValue.value, picked)
                          && if picked.Set? then GivenRule(q, picked.value, slot) else slot == picked;
      assert PickRule(linked.value.elems, p.pickValue.value, picked);
    }
  }

  lemma TypelessLink(p: Param, q: Param, vals: seq<Value>, linked: Value)
    requires q == p.(typ := q.typ) && LinkRule(q, vals, linked)
    ensures LinkRule(p, vals, linked)
  {}

  /** What the assembly gives for source `i`. */
  lemma AssembledSource(loop: Loop, m: Mode, rep: Report, state: State, i: nat)
    requires DistinctSources(loop) && LoopModeRule(loop, m) && i < |loop.sources|
    requires Collects(loop, rep, state) && Assemble(m, state, LoopParams(loop)).Ready?
    ensures var obj, p := Assemble(m, state, LoopParams(loop)).obj, loop.sources[i];
            p.id in obj && Reported(p, rep.jobout) && SourceRule(m, p, rep.jobout, obj[p.id])
  {
    KeysDistinct(loop, m);
    ParamAt(loop, i);
    var p, q := loop.sources[i], LoopParams(loop)[i];
    AssembledByRule(m, state, LoopParams(loop), i, p.id);
    var v := Assemble(m, state, LoopParams(loop)).obj[p.id];
    if p.sources.Some? {
      forall j | 0 <= j < |p.sources.value| ensures p.sources.value[j] in rep.jobout {
        assert Usables(m, state, q.sources.value[j]);
        assert CollectRule(loop, |loop.outputs|, rep, state, q.sources.value[j]);
      }
    }
    assert SourceValues(m, state, q) == ReportedValues(p, rep.jobout) by {
      forall src | src in state
        ensures state[src].Some? && src in rep.jobout && state[src].value.value == rep.jobout[src]
      {
        assert CollectRule(loop, |loop.outputs|, rep, state, src);
      }
    }
    var linked: Option<Value> :|
      && (linked.Some? <==> SourceValues(m, state, q) != [])
      && (linked.Some? ==> LinkRule(q, SourceValues(m, state, q), linked.value))
      && SettleRule(m, q, linked, Set(v));
    TypelessRule(m, p, q, linked, Set(v));
    if linked.Some? { TypelessLink(p, q, ReportedValues(p, rep.jobout), linked.value); }
  }

  lemma AssembledNames(loop: Loop, m: Mode, state: State)
    requires DistinctSources(loop) && LoopModeRule(loop, m) && Assemble(m, state, LoopParams(loop)).Ready?
    ensures Assemble(m, state, LoopParams(loop)).obj.Keys == set p | p in loop.sources :: p.id
  {
    KeysDistinct(loop, m);
    var params := LoopParams(loop);
    AssembleExact(m, state, params);
    var obj := Assemble(m, state, params).obj;
    forall k | k in obj ensures exists p :: p in loop.sources && p.id == k {
      var j :| 0 <= j < |params| && Key(m, params[j]) == k;
      ParamAt(loop, j);
      assert loop.sources[j] in loop.sources;
    }
    forall p | p in loop.sources ensures p.id in obj {
      var j :| 0 <= j < |loop.sources| && loop.sources[j] == p;
      ParamAt(loop, j);
      assert Key(m, params[j]) in obj;
    }
  }

  /** The next order has the old keys and those of the loop sources; other keys keep their values. */
  ghost predicate NextOrderRule(loop: Loop, m: Mode, job: Object, jobout: Object, next: Object) {
    && next.Keys == job.Keys + (set p | p in loop.sources :: p.id)
    && (forall k :: k in job && (forall p :: p in loop.sources ==> p.id != k) ==> k in next && next[k] == job[k])
    && forall p :: p in loop.sources ==>
         p.id in next && Reported(p, jobout) && NextValueRule(loop, m, p, job, jobout, next[p.id])
  }

  /** A source has an expression exactly if its id is among those that have one. */
  lemma ExpressionOf(loop: Loop, p: Param)
    requires DistinctSources(loop) && p in loop.sources
    ensures p.id in Expressions(loop) <==> p.valueFrom.Some?
  {
    if p.id in Expressions(loop) {
      var q :| q in loop.sources && q.valueFrom.Some? && q.id == p.id;
      var i :| 0 <= i < |loop.sources| && loop.sources[i] == p;
      var j :| 0 <= j < |loop.sources| && loop.sources[j] == q;
    }
  }

  /** The keys of the next order, and what each key has before the rule for its source is known. */
  lemma NextEntries(loop: Loop, m: Mode, job: Object, state: State)
    requires DistinctSources(loop) && LoopModeRule(loop, m) && NextOrder(loop, job, state).NextJob?
    ensures Assemble(m, state, LoopParams(loop)).Ready?
    ensures var next, obj := NextOrder(loop, job, state).job, Assemble(m, state, LoopParams(loop)).obj;
            && next.Keys == job.Keys + (set p | p in loop.sources :: p.id)
            && (forall k :: k in job && (forall p :: p in loop.sources ==> p.id != k) ==>
                  k in next && next[k] == job[k])
            && forall p :: p in loop.sources ==>
                 p.id in next && p.id in obj
                 && next[p.id] == if p.valueFrom.Some? then loop.valueFrom(p.id, job, obj[p.id]) else obj[p.id]
  {
    AssembledNames(loop, m, state);
    forall p | p in loop.sources ensures p.id in Expressions(loop) <==> p.valueFrom.Some? { ExpressionOf(loop, p); }
  }

  lemma NextJobByRule(loop: Loop, m: Mode, job: Object, rep: Report, state: State)
    requires DistinctSources(loop) && LoopModeRule(loop, m) && Collects(loop, rep, state)
    requires NextOrder(loop, job, state).NextJob?
    ensures NextOrderRule(loop, m, job, rep.jobout, NextOrder(loop, job, state).job)
  {
    var next := NextOrder(loop, job, state).job;
    NextEntries(loop, m, job, state);
    forall p | p in loop.sources
      ensures p.id in next && Reported(p, rep.jobout) && NextValueRule(loop, m, p, job, rep.jobout, next[p.id])
    {
      var i :| 0 <= i < |loop.sources| && loop.sources[i] == p;
      AssembledSource(loop, m, rep, state, i);
    }
  }

  /**
   Iteration `k + 1` runs on the order of iteration `k`, updated by what iteration `k` reported:
   each loop source has the value that its outputs give, or what `valueFrom` makes of it and of
   the old order, and all other keys keep theirs.
   */
  lemma OrderByRule(loop: Loop, m: Mode, job: Object, k: nat)
    requires DistinctSources(loop) && LoopModeRule(loop, m) && GoesOn(loop, OrderAt(loop, job, k))
    ensures NextOrderRule(loop, m, OrderAt(loop, job, k), ReportAt(loop, job, k).jobout, OrderAt(loop, job, k + 1))
  {
    var order := OrderAt(loop, job, k);
    CollectsAll(loop, order);
    NextJobByRule(loop, m, order, loop.run(order), Iteration(loop, order).state);
  }

  lemma SingleValue(m: Mode, p: Param, jobout: Object, o: string, x: Value)
    requires p.sources == Some([o]) && p.linkMerge.None? && p.pickValue.None?
    requires Reported(p, jobout) && SourceRule(m, p, jobout, x)
    ensures o in jobout && x == if jobout[o] == Null && p.default.Some? then p.default.value else jobout[o]
  {
    assert p.sources.value[0] == o && ReportedValues(p, jobout) == [jobout[o]];
  }

  /** A source with one output and no expression: its value, or the default if that is null. */
  lemma SingleSource(loop: Loop, m: Mode, job: Object, k: nat, p: Param, o: string)
    requires DistinctSources(loop) && LoopModeRule(loop, m) && GoesOn(loop, OrderAt(loop, job, k))
    requires p in loop.sources && p.sources == Some([o]) && p.linkMerge.None? && p.pickValue.None?
    ensures o in ReportAt(loop, job, k).jobout && p.id in OrderAt(loop, job, k + 1)
    ensures var v := ReportAt(loop, job, k).jobout[o];
            var x := if v == Null && p.default.Some? then p.default.value else v;
            OrderAt(loop, job, k + 1)[p.id] ==
              if p.valueFrom.Some? then loop.valueFrom(p.id, OrderAt(loop, job, k), x) else x
  {
    OrderByRule(loop, m, job, k);
    var jobout, order := ReportAt(loop, job, k).jobout, OrderAt(loop, job, k);
    assert NextValueRule(loop, m, p, order, jobout, OrderAt(loop, job, k + 1)[p.id]);
    var x :| SourceRule(m, p, jobout, x)
             && OrderAt(loop, job, k + 1)[p.id] == if p.valueFrom.Some? then loop.valueFrom(p.id, order, x) else x;
    SingleValue(m, p, jobout, o, x);
  }

  // ---------------------------------------------------------------- why a loop does not go on

  /** The first source without a value decides: an output that was not reported, or one with a failing status. */
  lemma FirstMissing(loop: Loop, m: Mode, job: Object, i: nat, o: string)
    requires LoopModeRule(loop, m) && i < |loop.sources| && loop.sources[i].sources == Some([o])
    requires loop.sources[i].linkMerge.Some? ==> !loop.sources[i].linkMerge.value.Unrecognized?
    requires var state := Iteration(loop, job).state;
             && (forall j :: 0 <= j < i ==> ParamSlot(m, state, LoopParams(loop)[j]).Set?)
             && !Usables(m, state, o)
    ensures Update(loop, job) ==
            if o in loop.run(job).jobout && Declared(loop.outputs, |loop.outputs|, o) then OtherError else WorkflowError
  {
    var state, params := Iteration(loop, job).state, LoopParams(loop);
    CollectsByRule(loop, |loop.outputs|, loop.run(job), map[], o);
    ParamAt(loop, i);
    FirstObstacle(m, state, params[i], 0, []);
    FirstBad(m, state, params, i, |params|);
  }

  /** Expressions without the feature for them raise. */
  lemma ExpressionsNeedFeature(loop: Loop, job: Object, p: Param)
    requires p in loop.sources && p.valueFrom.Some? && !loop.expressionsAllowed
    ensures !Update(loop, job).NextJob?
  {
    assert p.id in Expressions(loop);
  }
}
