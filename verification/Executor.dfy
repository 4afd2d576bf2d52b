/**
 The multi-threaded executor (`MultithreadedJobExecutor`): sizing of jobs, greedy admission of
 pending jobs, and resource accounting while jobs start and finish concurrently.

 CUDA devices are charged under the key `cudaDevices` but checked and released under
 `cudaDeviceCount`; the model keeps both keys.
 */
module Executor {
  import opened Values

  /** The keys of a resources dictionary. */
  datatype Rsc = Ram | Cores | CudaDeviceCount | CudaDevices | TmpdirSize | OutdirSize

  /** A tool job with its resources, or a job that is not accounted for. */
  datatype Job = ToolJob(id: nat, resources: map<Rsc, real>) | OtherJob(id: nat)

  datatype Amount = Amount(ram: real, cores: real, cuda: real)

  const NOTHING := Amount(0.0, 0.0, 0.0)

  predicate Accountable(job: Job) {
    job.ToolJob? ==>
      && Ram in job.resources && Cores in job.resources
      && forall k | k in job.resources :: job.resources[k] >= 0.0
  }

  function GetOrZero(resources: map<Rsc, real>, key: Rsc): real {
    if key in resources then resources[key] else 0.0
  }

  /** What admission checks and what completion releases. */
  function Asked(job: Job): Amount {
    if job.OtherJob? then NOTHING
    else
      var r := job.resources;
      Amount(GetOrZero(r, Ram), GetOrZero(r, Cores), GetOrZero(r, CudaDeviceCount))
  }

  /** What starting the job charges. */
  function Charged(job: Job): Amount {
    if job.OtherJob? then NOTHING
    else
      var r := job.resources;
      Amount(GetOrZero(r, Ram), GetOrZero(r, Cores), GetOrZero(r, CudaDevices))
  }

  function Plus(a: Amount, b: Amount): Amount {
    Amount(a.ram + b.ram, a.cores + b.cores, a.cuda + b.cuda)
  }

  function Minus(a: Amount, b: Amount): Amount {
    Amount(a.ram - b.ram, a.cores - b.cores, a.cuda - b.cuda)
  }

  predicate Within(a: Amount, max: Amount) {
    a.ram <= max.ram && a.cores <= max.cores && a.cuda <= max.cuda
  }

  /** The job could never run on this host. */
  predicate TooBig(max: Amount, job: Job) {
    job.ToolJob? && !Within(Asked(job), max)
  }

  predicate Fits(max: Amount, alloc: Amount, job: Job) {
    job.ToolJob? ==> Within(Plus(alloc, Asked(job)), max)
  }

  // ---------------------------------------------------------------- the greedy scan

  datatype Scanned = Scanned(started: seq<Job>, remaining: seq<Job>, alloc: Amount, rejected: Option<Job>)

  /** One scan of the pending jobs without completions in between; it ends at a rejected job. */
  function Scan(max: Amount, jobs: seq<Job>, alloc: Amount): Scanned {
    if jobs == [] then Scanned([], [], alloc, None)
    else
      var job, rest := jobs[0], jobs[1..];
      if TooBig(max, job) then Scanned([], rest, alloc, Some(job))
      else if !Fits(max, alloc, job) then
        var r := Scan(max, rest, alloc);
        r.(remaining := [job] + r.remaining)
      else
        var r := Scan(max, rest, Plus(alloc, Charged(job)));
        r.(started := [job] + r.started)
  }

  /** A scan that had already started and passed over some jobs. */
  function Before(started: seq<Job>, passed: seq<Job>, r: Scanned): Scanned {
    r.(started := started + r.started, remaining := passed + r.remaining)
  }

  lemma ScanFirst(max: Amount, jobs: seq<Job>, alloc: Amount, started: seq<Job>, passed: seq<Job>)
    requires jobs != []
    ensures Before(started, passed, Scan(max, jobs, alloc)) ==
            if TooBig(max, jobs[0]) then Scanned(started, passed + jobs[1..], alloc, Some(jobs[0]))
            else if !Fits(max, alloc, jobs[0]) then Before(started, passed + [jobs[0]], Scan(max, jobs[1..], alloc))
            else Before(started + [jobs[0]], passed, Scan(max, jobs[1..], Plus(alloc, Charged(jobs[0]))))
  {
    var job := jobs[0];
    if !Fits(max, alloc, job) {
      var r := Scan(max, jobs[1..], alloc);
      assert passed + ([job] + r.remaining) == (passed + [job]) + r.remaining;
    } else {
      var r := Scan(max, jobs[1..], Plus(alloc, Charged(job)));
      assert started + ([job] + r.started) == (started + [job]) + r.started;
    }
  }

  /** `a` and `b` split `all`, both keeping its order. */
  ghost predicate Splits(a: seq<Job>, b: seq<Job>, all: seq<Job>) {
    if all == [] then a == [] && b == []
    else || (a != [] && a[0] == all[0] && Splits(a[1..], b, all[1..]))
         || (b != [] && b[0] == all[0] && Splits(a, b[1..], all[1..]))
  }

  /** A scan that rejects nothing splits the pending jobs in order. */
  lemma {:induction false} ScanSplits(max: Amount, jobs: seq<Job>, alloc: Amount)
    requires Scan(max, jobs, alloc).rejected.None?
    ensures var r := Scan(max, jobs, alloc); Splits(r.started, r.remaining, jobs)
  {
    if jobs != [] {
      var r := Scan(max, jobs, alloc);
      if Fits(max, alloc, jobs[0]) {
        ScanSplits(max, jobs[1..], Plus(alloc, Charged(jobs[0])));
        assert r.started[1..] == Scan(max, jobs[1..], Plus(alloc, Charged(jobs[0]))).started;
      } else {
        ScanSplits(max, jobs[1..], alloc);
        assert r.remaining[1..] == Scan(max, jobs[1..], alloc).remaining;
      }
    }
  }

  ghost predicate AllAccountable(jobs: seq<Job>) {
    forall i :: 0 <= i < |jobs| ==> Accountable(jobs[i])
  }

  /** Allocation only grows during a scan. */
  lemma {:induction false} ScanGrows(max: Amount, jobs: seq<Job>, alloc: Amount)
    requires AllAccountable(jobs)
    ensures var a := Scan(max, jobs, alloc).alloc;
            alloc.ram <= a.ram && alloc.cores <= a.cores && alloc.cuda <= a.cuda
  {
    if jobs != [] {
      ScanGrows(max, jobs[1..], alloc);
      ScanGrows(max, jobs[1..], Plus(alloc, Charged(jobs[0])));
    }
  }

  /** Maximality: after a scan that rejects nothing, no remaining job would fit. */
  lemma {:induction false} ScanMaximal(max: Amount, jobs: seq<Job>, alloc: Amount)
    requires AllAccountable(jobs) && Scan(max, jobs, alloc).rejected.None?
    ensures var r := Scan(max, jobs, alloc);
            forall i :: 0 <= i < |r.remaining| ==> !Fits(max, r.alloc, r.remaining[i])
  {
    if jobs != [] {
      if Fits(max, alloc, jobs[0]) {
        ScanMaximal(max, jobs[1..], Plus(alloc, Charged(jobs[0])));
      } else {
        ScanMaximal(max, jobs[1..], alloc);
        ScanGrows(max, jobs[1..], alloc);
      }
    }
  }

  /** Only a job larger than the host is ever rejected; an idle host always starts something. */
  lemma {:induction false} ScanAdmits(max: Amount, jobs: seq<Job>, alloc: Amount)
    requires forall i :: 0 <= i < |jobs| ==> !TooBig(max, jobs[i])
    ensures Scan(max, jobs, alloc).rejected.None?
    ensures jobs != [] && Within(alloc, NOTHING) ==> Scan(max, jobs, alloc).started != []
  {
    if jobs != [] {
      ScanAdmits(max, jobs[1..], alloc);
      ScanAdmits(max, jobs[1..], Plus(alloc, Charged(jobs[0])));
    }
  }

  ghost predicate NoneTooBig(max: Amount, jobs: seq<Job>) {
    forall i :: 0 <= i < |jobs| ==> !TooBig(max, jobs[i])
  }

  /**
   The scan is greedy, in order: one more pending job at the end is started exactly if it fits
   beside all that was allocated before, and remains behind the others if not.
   */
  lemma {:induction false} ScanInOrder(max: Amount, jobs: seq<Job>, alloc: Amount, job: Job)
    requires NoneTooBig(max, jobs) && !TooBig(max, job)
    ensures var r, r' := Scan(max, jobs, alloc), Scan(max, jobs + [job], alloc);
            r' == if Fits(max, r.alloc, job)
                  then Scanned(r.started + [job], r.remaining, Plus(r.alloc, Charged(job)), None)
                  else Scanned(r.started, r.remaining + [job], r.alloc, None)
  {
    ScanAdmits(max, jobs, alloc);
    if jobs == [] {
      assert [] + [job] == [job] && [job][1..] == [];
    } else {
      assert (jobs + [job])[1..] == jobs[1..] + [job];
      ScanInOrder(max, jobs[1..], if Fits(max, alloc, jobs[0]) then Plus(alloc, Charged(jobs[0])) else alloc, job);
      ScanFirst(max, jobs, alloc, [], []);
      ScanFirst(max, jobs + [job], alloc, [], []);
    }
  }

  /** It ends at the first job that is too big: that one is dropped, and those behind it remain. */
  lemma {:induction false} ScanEndsAtTooBig(max: Amount, jobs: seq<Job>, alloc: Amount, job: Job, rest: seq<Job>)
    requires NoneTooBig(max, jobs) && TooBig(max, job)
    ensures var r := Scan(max, jobs, alloc);
            Scan(max, jobs + [job] + rest, alloc) == Scanned(r.started, r.remaining + rest, r.alloc, Some(job))
  {
    var all := jobs + [job] + rest;
    if jobs == [] {
      assert all[0] == job && all[1..] == rest;
    } else {
      assert all[0] == jobs[0] && all[1..] == jobs[1..] + [job] + rest;
      var alloc' := if Fits(max, alloc, jobs[0]) then Plus(alloc, Charged(jobs[0])) else alloc;
      ScanEndsAtTooBig(max, jobs[1..], alloc', job, rest);
    }
  }

  // ---------------------------------------------------------------- sizing a job

  function Ceil(x: real): int {
    -((-x).Floor)
  }

  /** The least integer that is not below `x`. */
  ghost predicate RoundedUp(x: real, r: real) {
    r == r.Floor as real && x <= r < x + 1.0
  }

  lemma CeilRounds(x: real)
    ensures RoundedUp(x, Ceil(x) as real)
  {
    var f := (-x).Floor;
    assert f as real <= -x < (f + 1) as real;
  }

  lemma CeilBounds(x: real, m: int)
    ensures x <= Ceil(x) as real && (x <= m as real ==> Ceil(x) <= m)
  {
    var f := (-x).Floor;
    assert f as real <= -x < (f + 1) as real;
    if x <= m as real { assert (-m) as real <= -x; }
  }

  ghost predicate Integral(x: real) {
    x == x.Floor as real
  }

  datatype Range = Range(min: real, max: real)

  /** The evaluated resource request: a range per resource type, and two directory sizes. */
  datatype Request = Request(ranges: map<Rsc, Range>, tmpdirMin: real, outdirMin: real)

  class MultithreadedJobExecutor {
    const max: Amount
    var pendingJobs: seq<Job>
    var inUse: Amount
    var queue: seq<Job>

    constructor (max: Amount)
      ensures this.max == max && pendingJobs == [] && inUse == NOTHING && queue == []
    {
      this.max := max;
      pendingJobs, inUse, queue := [], NOTHING, [];
    }

    function MaxOf(rsc: Rsc): real {
      if rsc == Ram then max.ram else if rsc == Cores then max.cores else max.cuda
    }

    /** The resource types to size; CUDA devices only if the request mentions them. */
    function Requested(request: Request): set<Rsc> {
      {Cores, Ram} + if CudaDeviceCount in request.ranges then {CudaDeviceCount} else {}
    }

    /** Within the host, at least the minimum if the request is consistent, and the maximum rounded up if it fits. */
    ghost predicate SizedFor(rsc: Rsc, range: Range, x: real) {
      && x <= MaxOf(rsc)
      && (range.min <= range.max && range.min <= MaxOf(rsc) ==> range.min <= x)
      && (range.max < MaxOf(rsc) ==> RoundedUp(range.max, x))
      && (range.max >= MaxOf(rsc) ==> x == MaxOf(rsc))
    }

    /**
     `select_resources`: raises exactly when some minimum exceeds the host; otherwise each
     resource is the requested maximum rounded up, capped by the host, and at least the minimum.
     */
    method SelectResources(request: Request) returns (result: Option<map<Rsc, real>>)
      requires Cores in request.ranges && Ram in request.ranges
      requires Integral(max.ram) && Integral(max.cores) && Integral(max.cuda)
      ensures result.None? <==> exists rsc :: rsc in Requested(request) && request.ranges[rsc].min > MaxOf(rsc)
      ensures result.Some? ==> result.value.Keys == Requested(request) + {TmpdirSize, OutdirSize}
      ensures result.Some? ==>
                forall rsc :: rsc in Requested(request) ==> SizedFor(rsc, request.ranges[rsc], result.value[rsc])
      ensures result.Some? ==> RoundedUp(request.tmpdirMin, result.value[TmpdirSize])
      ensures result.Some? ==> RoundedUp(request.outdirMin, result.value[OutdirSize])
    {
      var res: map<Rsc, real> := map[];
      var types := {Cores, Ram};
      if CudaDeviceCount in request.ranges { types := types + {CudaDeviceCount}; }
      var todo := types;
      while todo != {}
        invariant todo <= types == Requested(request)
        invariant res.Keys == types - todo
        invariant forall rsc :: rsc in types - todo ==>
                    request.ranges[rsc].min <= MaxOf(rsc) && SizedFor(rsc, request.ranges[rsc], res[rsc])
        decreases todo
      {
        var rsc :| rsc in todo;
        todo := todo - {rsc};
        var range := request.ranges[rsc];
        if range.min > MaxOf(rsc) { return None; }
        CeilBounds(range.max, MaxOf(rsc).Floor);
        CeilRounds(range.max);
        res := res[rsc := if range.max < MaxOf(rsc) then Ceil(range.max) as real else MaxOf(rsc)];
      }
      CeilRounds(request.tmpdirMin);
      CeilRounds(request.outdirMin);
      res := res[TmpdirSize := Ceil(request.tmpdirMin) as real];
      res := res[OutdirSize := Ceil(request.outdirMin) as real];
      result := Some(res);
    }

    /** Adds a job, if any, and scans the pending jobs. */
    method RunJob(job: Option<Job>) returns (rejected: Option<Job>)
      modifies this
      ensures var all := old(pendingJobs) + if job.Some? then [job.value] else [];
              var r := Scan(max, all, old(inUse));
              && pendingJobs == r.remaining && inUse == r.alloc && rejected == r.rejected
              && queue == old(queue) + r.started
    {
      if job.Some? { pendingJobs := pendingJobs + [job.value]; }
      ghost var all, started := pendingJobs, [];
      assert all == old(pendingJobs) + if job.Some? then [job.value] else [];
      var n := 0;
      while n + 1 <= |pendingJobs|
        invariant n <= |pendingJobs| && queue == old(queue) + started
        invariant Scan(max, all, old(inUse)) == Before(started, pendingJobs[..n], Scan(max, pendingJobs[n..], inUse))
        decreases |pendingJobs| - n
      {
        var next := pendingJobs[n];
        assert pendingJobs[n..][1..] == pendingJobs[n + 1..];
        ScanFirst(max, pendingJobs[n..], inUse, started, pendingJobs[..n]);
        if TooBig(max, next) {
          pendingJobs := pendingJobs[..n] + pendingJobs[n + 1..];
          return Some(next);
        }
        if !Fits(max, inUse, next) {
          n := n + 1;
          assert pendingJobs[..n] == pendingJobs[..n - 1] + [next];
        } else {
          inUse := Plus(inUse, Charged(next));
          queue := queue + [next];
          started := started + [next];
          ghost var rest := pendingJobs[n + 1..];
          pendingJobs := pendingJobs[..n] + pendingJobs[n + 1..];
          assert pendingJobs[n..] == rest;
        }
      }
      rejected := None;
      assert pendingJobs[n..] == [] && pendingJobs[..n] == pendingJobs;
    }
  }

  /** A job sized by `SelectResources` is never too big for the host. */
  lemma SizedNeverRejected(executor: MultithreadedJobExecutor, request: Request, job: Job)
    requires job.ToolJob? && Cores in request.ranges && Ram in request.ranges
    requires job.resources.Keys == executor.Requested(request) + {TmpdirSize, OutdirSize}
    requires forall rsc :: rsc in executor.Requested(request) ==>
               executor.SizedFor(rsc, request.ranges[rsc], job.resources[rsc])
    requires executor.max.cuda >= 0.0
    ensures !TooBig(executor.max, job)
  {
    assert executor.SizedFor(Ram, request.ranges[Ram], job.resources[Ram]);
    assert executor.SizedFor(Cores, request.ranges[Cores], job.resources[Cores]);
    if CudaDeviceCount in job.resources {
      assert CudaDeviceCount in executor.Requested(request);
    }
  }

  // ---------------------------------------------------------------- the concurrent accounting

  /** Where the main thread is: not scanning, at a pending job, or handing that job to the task queue. */
  datatype Phase = Idle | At(n: nat) | Adding(n: nat)

  datatype Exec = Exec(
    pending: seq<Job>,
    phase: Phase,
    alloc: Amount,
    running: seq<Job>,
    started: seq<Job>,
    finished: seq<Job>)

  const START := Exec([], Idle, NOTHING, [], [], [])

  /** A scan begins, with a new job or without. */
  ghost predicate BeginScan(jobs: set<Job>, s: Exec, s': Exec) {
    && s.phase == Idle
    && (s' == s.(phase := At(0))
        || exists job :: job in jobs && s' == s.(pending := s.pending + [job], phase := At(0)))
  }

  function Without(jobs: seq<Job>, i: nat): seq<Job>
    requires i < |jobs|
  {
    jobs[..i] + jobs[i + 1..]
  }

  /** One iteration of the scanning loop, up to the call of `add`. */
  function ScanStep(max: Amount, s: Exec): Exec
    requires s.phase.At?
  {
    var n := s.phase.n;
    if n >= |s.pending| then s.(phase := Idle)
    else
      var job := s.pending[n];
      if TooBig(max, job) then s.(pending := Without(s.pending, n), phase := Idle)
      else if !Fits(max, s.alloc, job) then s.(phase := At(n + 1))
      else s.(alloc := Plus(s.alloc, Charged(job)), running := s.running + [job],
              started := s.started + [job], phase := Adding(n))
  }

  function Finished(s: Exec, i: nat): Exec
    requires i < |s.running|
  {
    var job := s.running[i];
    s.(running := Without(s.running, i), alloc := Minus(s.alloc, Asked(job)), finished := s.finished + [job])
  }

  /** A running job ends and gives its resources back, possibly while the main thread is in `add`. */
  ghost predicate Finish(s: Exec, s': Exec) {
    exists i: nat :: i < |s.running| && s' == Finished(s, i)
  }

  ghost predicate Next(max: Amount, jobs: set<Job>, s: Exec, s': Exec) {
    || BeginScan(jobs, s, s')
    || (s.phase.At? && s' == ScanStep(max, s))
    || (s.phase.Adding? && s.phase.n < |s.pending|
        && s' == s.(pending := Without(s.pending, s.phase.n), phase := At(s.phase.n)))
    || Finish(s, s')
  }

  ghost predicate IsRun(max: Amount, jobs: set<Job>, run: seq<Exec>) {
    run != [] && run[0] == START && forall i :: 0 <= i < |run| - 1 ==> Next(max, jobs, run[i], run[i + 1])
  }

  /** The sum of `f` over the jobs. */
  function Total(jobs: seq<Job>, f: Job -> Amount): Amount {
    if jobs == [] then NOTHING else Plus(Total(jobs[..|jobs| - 1], f), f(jobs[|jobs| - 1]))
  }

  lemma TotalWith(jobs: seq<Job>, f: Job -> Amount, job: Job)
    ensures Total(jobs + [job], f) == Plus(Total(jobs, f), f(job))
  {
    assert (jobs + [job])[..|jobs|] == jobs;
  }

  lemma PlusMinus(a: Amount, b: Amount, c: Amount)
    ensures Minus(Plus(a, b), b) == a && Plus(Minus(a, b), c) == Minus(Plus(a, c), b)
  {}

  lemma {:induction false} TotalWithout(jobs: seq<Job>, f: Job -> Amount, i: nat)
    requires i < |jobs|
    ensures Total(Without(jobs, i), f) == Minus(Total(jobs, f), f(jobs[i]))
  {
    var last := |jobs| - 1;
    var before := jobs[..last];
    if i == last {
      assert Without(jobs, i) == before;
      PlusMinus(Total(before, f), f(jobs[last]), NOTHING);
    } else {
      TotalWithout(before, f, i);
      assert Without(jobs, i) == Without(before, i) + [jobs[last]];
      TotalWith(Without(before, i), f, jobs[last]);
      PlusMinus(Total(before, f), f(jobs[i]), f(jobs[last]));
    }
  }

  /** The ledger: what is allocated against the totals over running, started and finished jobs. */
  ghost predicate Balanced(max: Amount, alloc: Amount, running: Amount, started: Amount, finished: Amount) {
    && alloc.ram == running.ram <= max.ram && alloc.cores == running.cores <= max.cores
    && alloc.cuda == started.cuda - finished.cuda
  }

  /** What the accounting keeps in every reachable state. */
  ghost predicate Accounted(max: Amount, s: Exec) {
    Balanced(max, s.alloc, Total(s.running, Asked), Total(s.started, Charged), Total(s.finished, Asked))
  }

  lemma BalancedStart(max: Amount, alloc: Amount, running: Amount, started: Amount, finished: Amount, job: Job)
    requires Balanced(max, alloc, running, started, finished) && Fits(max, alloc, job)
    ensures Balanced(max, Plus(alloc, Charged(job)), Plus(running, Asked(job)), Plus(started, Charged(job)), finished)
  {}

  lemma BalancedFinish(max: Amount, alloc: Amount, running: Amount, started: Amount, finished: Amount, job: Job)
    requires Balanced(max, alloc, running, started, finished) && Accountable(job)
    ensures Balanced(max, Minus(alloc, Asked(job)), Minus(running, Asked(job)), started, Plus(finished, Asked(job)))
  {}

  ghost predicate Tracked(s: Exec) {
    && multiset(s.started) == multiset(s.running) + multiset(s.finished)
    && (forall i :: 0 <= i < |s.running| ==> Accountable(s.running[i]))
    && (forall i :: 0 <= i < |s.pending| ==> Accountable(s.pending[i]))
  }

  lemma ScanAccounted(max: Amount, s: Exec)
    requires Accounted(max, s) && s.phase.At?
    ensures Accounted(max, ScanStep(max, s))
  {
    if ScanStep(max, s).phase.Adding? {
      var job := s.pending[s.phase.n];
      TotalWith(s.running, Asked, job);
      TotalWith(s.started, Charged, job);
      BalancedStart(max, s.alloc, Total(s.running, Asked), Total(s.started, Charged), Total(s.finished, Asked), job);
    }
  }

  lemma FinishAccounted(max: Amount, s: Exec, i: nat)
    requires Accounted(max, s) && i < |s.running| && Accountable(s.running[i])
    ensures Accounted(max, Finished(s, i))
  {
    var job := s.running[i];
    TotalWithout(s.running, Asked, i);
    TotalWith(s.finished, Asked, job);
    BalancedFinish(max, s.alloc, Total(s.running, Asked), Total(s.started, Charged), Total(s.finished, Asked), job);
  }

  lemma FinishTracked(s: Exec, i: nat)
    requires Tracked(s) && i < |s.running|
    ensures Tracked(Finished(s, i))
  {
    var job := s.running[i];
    assert s.running == s.running[..i] + [job] + s.running[i + 1..];
  }

  lemma ScanTracked(max: Amount, s: Exec)
    requires Tracked(s) && s.phase.At?
    ensures Tracked(ScanStep(max, s))
  {
    var s' := ScanStep(max, s);
    assert s'.phase.Adding? ==> s'.running == s.running + [s.pending[s.phase.n]];
  }

  lemma NextTracked(max: Amount, jobs: set<Job>, s: Exec, s': Exec)
    requires Tracked(s) && Next(max, jobs, s, s') && forall job :: job in jobs ==> Accountable(job)
    ensures Tracked(s')
  {
    if i: nat :| i < |s.running| && s' == Finished(s, i) {
      FinishTracked(s, i);
    } else if s.phase.At? {
      ScanTracked(max, s);
    }
  }

  lemma NextAccounted(max: Amount, jobs: set<Job>, s: Exec, s': Exec)
    requires Accounted(max, s) && Tracked(s) && Next(max, jobs, s, s')
    ensures Accounted(max, s')
  {
    if i: nat :| i < |s.running| && s' == Finished(s, i) {
      FinishAccounted(max, s, i);
    } else if s.phase.At? {
      ScanAccounted(max, s);
    }
  }

  lemma {:induction false} RunAccounted(max: Amount, jobs: set<Job>, run: seq<Exec>, i: nat)
    requires Within(NOTHING, max) && IsRun(max, jobs, run) && i < |run|
    requires forall job :: job in jobs ==> Accountable(job)
    ensures Accounted(max, run[i]) && Tracked(run[i])
  {
    if i > 0 {
      RunAccounted(max, jobs, run, i - 1);
      NextAccounted(max, jobs, run[i - 1], run[i]);
      NextTracked(max, jobs, run[i - 1], run[i]);
    }
  }

  /**
   Conservation and capacity: in every reachable state the allocated ram and cores are those of
   the running jobs and never exceed the host, they return to zero when nothing runs, and the
   CUDA count is what was charged for started jobs less what was released for finished ones.
   */
  lemma Conservation(max: Amount, jobs: set<Job>, run: seq<Exec>, i: nat)
    requires Within(NOTHING, max) && IsRun(max, jobs, run) && i < |run|
    requires forall job :: job in jobs ==> Accountable(job)
    ensures var s := run[i];
            && s.alloc.ram == Total(s.running, Asked).ram <= max.ram
            && s.alloc.cores == Total(s.running, Asked).cores <= max.cores
            && (s.running == [] ==> s.alloc.ram == 0.0 && s.alloc.cores == 0.0)
            && s.alloc.cuda == Total(s.started, Charged).cuda - Total(s.finished, Asked).cuda
            && multiset(s.started) == multiset(s.running) + multiset(s.finished)
  {
    RunAccounted(max, jobs, run, i);
  }
}
