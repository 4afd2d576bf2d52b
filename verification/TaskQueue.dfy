/**
 The task queue (`TaskQueue`) as a concurrent step system: one thread adds, drains and joins,
 a fixed number of workers take tasks from a bounded first-in first-out queue.

 Each step is what a thread does under the lock or inside one operation of the thread-safe
 queue; anything may happen between two steps. The sequences `put`, `taken`, `ran` and
 `drained` record the history.
 */
module TaskQueue {
  /** A queue entry: a task, or the `None` that tells a worker to stop. */
  datatype Entry = Task(id: nat) | Stop

  datatype Worker = Waiting | Running(id: nat) | Exited

  /** The owner's phase; while joining it has put `stops` entries so far. */
  datatype Phase = Open | Draining | Joining(stops: nat)

  datatype Queue = Queue(
    inFlight: int,
    queue: seq<Entry>,
    workers: seq<Worker>,
    adding: set<nat>,
    phase: Phase,
    known: set<nat>,
    put: seq<Entry>,
    taken: seq<Entry>,
    ran: seq<nat>,
    drained: seq<nat>)

  function Init(threads: nat): Queue {
    Queue(0, [], seq(threads, _ => Waiting), {}, Open, {}, [], [], [], [])
  }

  // ---------------------------------------------------------------- the steps

  /** `add` without worker threads runs the task at once. */
  ghost predicate RunNow(s: Queue, s': Queue, t: nat) {
    s.phase.Open? && s.workers == [] && t !in s.known && s' == s.(known := s.known + {t}, ran := s.ran + [t])
  }

  /** `add` counts the task before it waits for room. */
  ghost predicate BeginAdd(s: Queue, s': Queue, t: nat) {
    && s.phase.Open? && s.workers != [] && t !in s.known
    && s' == s.(inFlight := s.inFlight + 1, adding := s.adding + {t}, known := s.known + {t})
  }

  ghost predicate Put(s: Queue, s': Queue, t: nat) {
    && s.phase.Open? && t in s.adding && |s.queue| < |s.workers|
    && s' == s.(queue := s.queue + [Task(t)], put := s.put + [Task(t)], adding := s.adding - {t})
  }

  /** The event given to `add` is set: the task is not queued. */
  ghost predicate Cancel(s: Queue, s': Queue, t: nat) {
    s.phase.Open? && t in s.adding && s' == s.(inFlight := s.inFlight - 1, adding := s.adding - {t})
  }

  ghost predicate Take(s: Queue, s': Queue, w: nat) {
    && w < |s.workers| && s.workers[w] == Waiting && s.queue != []
    && var e := s.queue[0];
       var s1 := s.(queue := s.queue[1..], taken := s.taken + [e]);
       s' == if e.Task? then s1.(workers := s.workers[w := Running(e.id)], ran := s.ran + [e.id])
             else s1.(workers := s.workers[w := Exited])
  }

  /** The task returns or raises; either way the worker counts it off. */
  ghost predicate Finish(s: Queue, s': Queue, w: nat) {
    && w < |s.workers| && s.workers[w].Running?
    && s' == s.(workers := s.workers[w := Waiting], inFlight := s.inFlight - 1)
  }

  /** The adding thread itself drains, so it is not inside `add`. */
  ghost predicate StartDrain(s: Queue, s': Queue) {
    s.phase.Open? && s.adding == {} && s' == s.(phase := Draining)
  }

  ghost predicate DrainOne(s: Queue, s': Queue) {
    && s.phase.Draining? && s.queue != [] && s.queue[0].Task?
    && s' == s.(queue := s.queue[1..], taken := s.taken + [s.queue[0]], drained := s.drained + [s.queue[0].id])
  }

  ghost predicate StartJoin(s: Queue, s': Queue) {
    s.phase.Draining? && s.queue == [] && s' == s.(phase := Joining(0))
  }

  ghost predicate PutStop(s: Queue, s': Queue) {
    && s.phase.Joining? && s.phase.stops < |s.workers| && |s.queue| < |s.workers|
    && s' == s.(queue := s.queue + [Stop], put := s.put + [Stop], phase := Joining(s.phase.stops + 1))
  }

  ghost predicate Next(s: Queue, s': Queue) {
    || (exists t :: RunNow(s, s', t)) || (exists t :: BeginAdd(s, s', t))
    || (exists t :: Put(s, s', t)) || (exists t :: Cancel(s, s', t))
    || (exists w :: Take(s, s', w)) || (exists w :: Finish(s, s', w))
    || StartDrain(s, s') || DrainOne(s, s') || StartJoin(s, s') || PutStop(s, s')
  }

  ghost predicate IsRun(threads: nat, run: seq<Queue>) {
    run != [] && run[0] == Init(threads) && forall i :: 0 <= i < |run| - 1 ==> Next(run[i], run[i + 1])
  }

  // ---------------------------------------------------------------- counting

  function Tasks(q: seq<Entry>): seq<nat> {
    if q == [] then []
    else Tasks(q[..|q| - 1]) + if q[|q| - 1].Task? then [q[|q| - 1].id] else []
  }

  function Stops(q: seq<Entry>): nat {
    if q == [] then 0 else Stops(q[..|q| - 1]) + if q[|q| - 1].Stop? then 1 else 0
  }

  lemma {:induction false} EntriesConcat(a: seq<Entry>, b: seq<Entry>)
    ensures Tasks(a + b) == Tasks(a) + Tasks(b) && Stops(a + b) == Stops(a) + Stops(b)
  {
    if b == [] {
      assert a + b == a;
    } else {
      EntriesConcat(a, b[..|b| - 1]);
      assert (a + b)[..|a + b| - 1] == a + b[..|b| - 1];
    }
  }

  lemma EntriesHead(q: seq<Entry>)
    requires q != []
    ensures Tasks(q) == (if q[0].Task? then [q[0].id] else []) + Tasks(q[1..])
    ensures Stops(q) == (if q[0].Stop? then 1 else 0) + Stops(q[1..])
  {
    assert q == [q[0]] + q[1..];
    EntriesConcat([q[0]], q[1..]);
    assert [q[0]][..0] == [];
  }

  function Busy(ws: seq<Worker>): nat {
    if ws == [] then 0 else Busy(ws[..|ws| - 1]) + if ws[|ws| - 1].Running? then 1 else 0
  }

  function Gone(ws: seq<Worker>): nat {
    if ws == [] then 0 else Gone(ws[..|ws| - 1]) + if ws[|ws| - 1].Exited? then 1 else 0
  }

  lemma {:induction false} WorkerChanges(ws: seq<Worker>, i: nat, w: Worker)
    requires i < |ws|
    ensures Busy(ws[i := w]) == Busy(ws) - (if ws[i].Running? then 1 else 0) + if w.Running? then 1 else 0
    ensures Gone(ws[i := w]) == Gone(ws) - (if ws[i].Exited? then 1 else 0) + if w.Exited? then 1 else 0
  {
    var last := |ws| - 1;
    if i == last {
      assert ws[i := w][..last] == ws[..last];
    } else {
      WorkerChanges(ws[..last], i, w);
      assert ws[i := w][..last] == ws[..last][i := w];
    }
  }

  lemma {:induction false} GoneBound(ws: seq<Worker>)
    ensures Gone(ws) + Busy(ws) <= |ws|
    ensures (forall i :: 0 <= i < |ws| ==> ws[i].Exited?) ==> Gone(ws) == |ws|
  {
    if ws != [] { GoneBound(ws[..|ws| - 1]); }
  }

  lemma {:induction false} NobodyBusy(n: nat)
    ensures Busy(seq(n, _ => Waiting)) == 0 && Gone(seq(n, _ => Waiting)) == 0
  {
    if n > 0 {
      NobodyBusy(n - 1);
      assert seq(n, _ => Waiting)[..n - 1] == seq(n - 1, _ => Waiting);
    }
  }

  // ---------------------------------------------------------------- what every run keeps

  /** Every task in flight is being added, queued, running or drained; the queue is bounded. */
  ghost predicate CountedInFlight(s: Queue) {
    s.inFlight == |s.adding| + |Tasks(s.queue)| + Busy(s.workers) + |s.drained| && |s.queue| <= |s.workers|
  }

  /** First in, first out: what was taken, followed by what is queued, is what was put. */
  ghost predicate InOrder(s: Queue) {
    s.taken + s.queue == s.put
  }

  /** Every task that is being added, is queued, was run or was drained, with its multiplicity. */
  ghost function Everything(s: Queue): multiset<nat> {
    multiset(s.ran) + multiset(s.drained) + multiset(Tasks(s.queue)) + multiset(s.adding)
  }

  ghost predicate OnceEach(s: Queue) {
    && (forall t :: Everything(s)[t] <= 1)
    && (forall t :: t in Everything(s) ==> t in s.known)
  }

  /** What was taken from the queue was run or drained. */
  ghost predicate TakenAccounted(s: Queue) {
    if s.workers == [] then s.queue == [] && s.taken == [] && s.drained == [] && s.adding == {}
    else multiset(s.ran) + multiset(s.drained) == multiset(Tasks(s.taken))
  }

  /** Stops are put only while joining, one per worker, onto a queue that gets no more tasks. */
  ghost predicate StopsCounted(s: Queue) {
    && Stops(s.put) == (if s.phase.Joining? then s.phase.stops else 0) <= |s.workers|
    && Stops(s.taken) == Gone(s.workers)
    && (s.phase.Joining? ==> Tasks(s.queue) == [])
    && (!s.phase.Open? ==> s.adding == {})
  }

  ghost predicate Kept(s: Queue) {
    CountedInFlight(s) && InOrder(s) && OnceEach(s) && TakenAccounted(s) && StopsCounted(s)
  }

  lemma EntriesAppend(q: seq<Entry>, e: Entry)
    ensures Tasks(q + [e]) == Tasks(q) + if e.Task? then [e.id] else []
    ensures Stops(q + [e]) == Stops(q) + if e.Stop? then 1 else 0
  {
    assert (q + [e])[..|q|] == q;
  }

  lemma PutCounts(s: Queue, s': Queue, t: nat)
    requires CountedInFlight(s) && InOrder(s) && StopsCounted(s) && Put(s, s', t)
    ensures CountedInFlight(s') && InOrder(s') && StopsCounted(s')
  {
    EntriesAppend(s.queue, Task(t));
    EntriesAppend(s.put, Task(t));
    assert s.taken + (s.queue + [Task(t)]) == s.put + [Task(t)];
  }

  lemma PutMoves(s: Queue, s': Queue, t: nat)
    requires Put(s, s', t)
    ensures Everything(s') == Everything(s)
  {
    EntriesAppend(s.queue, Task(t));
    assert multiset(s.adding) == multiset(s.adding - {t}) + multiset{t};
  }

  lemma PutStopKeeps(s: Queue, s': Queue)
    requires Kept(s) && PutStop(s, s')
    ensures Kept(s')
  {
    EntriesAppend(s.queue, Stop);
    EntriesAppend(s.put, Stop);
    assert s.taken + (s.queue + [Stop]) == s.put + [Stop];
    assert Everything(s') == Everything(s);
  }

  lemma TakeInFlight(s: Queue, s': Queue, w: nat)
    requires CountedInFlight(s) && Take(s, s', w)
    ensures CountedInFlight(s')
  {
    EntriesHead(s.queue);
    WorkerChanges(s.workers, w, s'.workers[w]);
  }

  lemma TakeStops(s: Queue, s': Queue, w: nat)
    requires StopsCounted(s) && Take(s, s', w)
    ensures StopsCounted(s')
  {
    EntriesHead(s.queue);
    EntriesAppend(s.taken, s.queue[0]);
    WorkerChanges(s.workers, w, s'.workers[w]);
  }

  lemma TakeCounts(s: Queue, s': Queue, w: nat)
    requires CountedInFlight(s) && InOrder(s) && StopsCounted(s) && Take(s, s', w)
    ensures CountedInFlight(s') && InOrder(s') && StopsCounted(s')
  {
    assert (s.taken + [s.queue[0]]) + s.queue[1..] == s.taken + s.queue;
    TakeInFlight(s, s', w);
    TakeStops(s, s', w);
  }

  /** The head of the queue moves to the tasks that were run or drained. */
  lemma HeadMoves(s: Queue, s': Queue)
    requires s.queue != [] && s'.queue == s.queue[1..] && s'.taken == s.taken + [s.queue[0]] && s'.adding == s.adding
    requires s.workers != [] && s'.workers != [] && TakenAccounted(s)
    requires multiset(s'.ran) + multiset(s'.drained) ==
             multiset(s.ran) + multiset(s.drained) + if s.queue[0].Task? then multiset{s.queue[0].id} else multiset{}
    ensures Everything(s') == Everything(s) && TakenAccounted(s')
  {
    EntriesHead(s.queue);
    EntriesAppend(s.taken, s.queue[0]);
  }

  lemma DrainStops(s: Queue, s': Queue)
    requires StopsCounted(s) && DrainOne(s, s')
    ensures StopsCounted(s')
  {
    EntriesHead(s.queue);
    EntriesAppend(s.taken, s.queue[0]);
  }

  lemma DrainCounts(s: Queue, s': Queue)
    requires CountedInFlight(s) && InOrder(s) && StopsCounted(s) && DrainOne(s, s')
    ensures CountedInFlight(s') && InOrder(s') && StopsCounted(s')
  {
    EntriesHead(s.queue);
    DrainStops(s, s');
    assert (s.taken + [s.queue[0]]) + s.queue[1..] == s.taken + s.queue;
  }

  lemma AddCounts(s: Queue, s': Queue, t: nat)
    requires CountedInFlight(s) && InOrder(s) && StopsCounted(s)
    requires RunNow(s, s', t) || BeginAdd(s, s', t) || Cancel(s, s', t)
    requires s.adding <= s.known
    ensures CountedInFlight(s') && InOrder(s') && StopsCounted(s')
  {}

  /** A fresh id is added to everything that is tracked. */
  lemma FreshOnce(s: Queue, s': Queue, t: nat)
    requires OnceEach(s) && t !in s.known && s'.known == s.known + {t}
    requires Everything(s') == Everything(s) + multiset{t}
    ensures OnceEach(s')
  {
    assert t !in Everything(s);
  }

  lemma BeginAddOnce(s: Queue, s': Queue, t: nat)
    requires OnceEach(s) && BeginAdd(s, s', t)
    ensures OnceEach(s')
  {
    assert t in s.adding ==> t in Everything(s);
    assert multiset(s.adding + {t}) == multiset(s.adding) + multiset{t};
    FreshOnce(s, s', t);
  }

  lemma RunNowOnce(s: Queue, s': Queue, t: nat)
    requires OnceEach(s) && RunNow(s, s', t)
    ensures OnceEach(s')
  {
    assert multiset(s.ran + [t]) == multiset(s.ran) + multiset{t};
    FreshOnce(s, s', t);
  }

  lemma CancelOnce(s: Queue, s': Queue, t: nat)
    requires OnceEach(s) && Cancel(s, s', t)
    ensures OnceEach(s')
  {
    assert multiset(s.adding) == multiset(s.adding - {t}) + multiset{t};
    assert Everything(s) == Everything(s') + multiset{t};
    forall x ensures Everything(s')[x] <= 1 { assert Everything(s)[x] <= 1; }
  }

  lemma AddKeeps(s: Queue, s': Queue, t: nat)
    requires Kept(s) && (RunNow(s, s', t) || BeginAdd(s, s', t) || Cancel(s, s', t))
    ensures Kept(s')
  {
    forall x | x in s.adding ensures x in s.known { assert x in Everything(s); }
    AddCounts(s, s', t);
    if RunNow(s, s', t) { RunNowOnce(s, s', t); }
    else if BeginAdd(s, s', t) { BeginAddOnce(s, s', t); }
    else { CancelOnce(s, s', t); }
  }

  lemma FinishKeeps(s: Queue, s': Queue, w: nat)
    requires Kept(s) && Finish(s, s', w)
    ensures Kept(s')
  {
    WorkerChanges(s.workers, w, Waiting);
    assert Everything(s') == Everything(s);
  }

  lemma PhaseKeeps(s: Queue, s': Queue)
    requires Kept(s) && (StartDrain(s, s') || StartJoin(s, s'))
    ensures Kept(s')
  {
    assert Everything(s') == Everything(s);
  }

  lemma PutKeeps(s: Queue, s': Queue, t: nat)
    requires Kept(s) && Put(s, s', t)
    ensures Kept(s')
  {
    PutCounts(s, s', t);
    PutMoves(s, s', t);
  }

  lemma TakeKeeps(s: Queue, s': Queue, w: nat)
    requires Kept(s) && Take(s, s', w)
    ensures Kept(s')
  {
    TakeCounts(s, s', w);
    HeadMoves(s, s');
  }

  lemma DrainKeeps(s: Queue, s': Queue)
    requires Kept(s) && DrainOne(s, s')
    ensures Kept(s')
  {
    DrainCounts(s, s');
    HeadMoves(s, s');
  }

  lemma NextKeeps(s: Queue, s': Queue)
    requires Kept(s) && Next(s, s')
    ensures Kept(s')
  {
    if t :| RunNow(s, s', t) || BeginAdd(s, s', t) || Cancel(s, s', t) {
      AddKeeps(s, s', t);
    } else if t :| Put(s, s', t) {
      PutKeeps(s, s', t);
    } else if w :| Take(s, s', w) {
      TakeKeeps(s, s', w);
    } else if w :| Finish(s, s', w) {
      FinishKeeps(s, s', w);
    } else if DrainOne(s, s') {
      DrainKeeps(s, s');
    } else if StartDrain(s, s') || StartJoin(s, s') {
      PhaseKeeps(s, s');
    } else {
      PutStopKeeps(s, s');
    }
  }

  /** In every reachable state the counters, the order and the history agree. */
  lemma {:induction false} RunKeeps(threads: nat, run: seq<Queue>, i: nat)
    requires IsRun(threads, run) && i < |run|
    ensures Kept(run[i])
  {
    if i == 0 {
      NobodyBusy(threads);
    } else {
      RunKeeps(threads, run, i - 1);
      NextKeeps(run[i - 1], run[i]);
    }
  }

  /** Each task that entered the queue is queued, was run, or was drained: exactly one of these, exactly once. */
  lemma EachTaskOnce(threads: nat, run: seq<Queue>, i: nat, t: nat)
    requires IsRun(threads, run) && i < |run| && t in Tasks(run[i].put)
    ensures var s := run[i];
            multiset(s.ran)[t] + multiset(s.drained)[t] + multiset(Tasks(s.queue))[t] == 1
  {
    RunKeeps(threads, run, i);
    var s := run[i];
    EntriesConcat(s.taken, s.queue);
    assert multiset(Tasks(s.put)) == multiset(Tasks(s.taken)) + multiset(Tasks(s.queue));
    assert t in multiset(Tasks(s.put));
    assert Everything(s)[t] <= 1;
  }

  lemma {:induction false} NothingLeft(q: seq<Entry>)
    ensures |Tasks(q)| + Stops(q) == |q|
  {
    if q != [] { NothingLeft(q[..|q| - 1]); }
  }

  /** Once all workers have exited after `join`, the queue is empty and only drained tasks are still counted. */
  lemma AllExited(threads: nat, run: seq<Queue>, i: nat)
    requires IsRun(threads, run) && i < |run| && run[i].phase.Joining?
    requires forall w :: 0 <= w < |run[i].workers| ==> run[i].workers[w].Exited?
    ensures run[i].queue == [] && run[i].inFlight == |run[i].drained|
  {
    RunKeeps(threads, run, i);
    var s := run[i];
    GoneBound(s.workers);
    EntriesConcat(s.taken, s.queue);
    NothingLeft(s.queue);
  }
}
