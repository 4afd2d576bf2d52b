/**
 The CUDA accounting of the multi-threaded executor: devices are charged under `cudaDevices` but
 checked and released under `cudaDeviceCount`. When the count is conserved, and when the running
 jobs stay within the host.
 */
module CudaDrift {
  import opened Executor

  // ---------------------------------------------------------------- conservation

  ghost predicate SameCuda(a: Amount, b: Amount) {
    a.cuda == b.cuda
  }

  ghost predicate CudaConserved(s: Exec) {
    SameCuda(s.alloc, Total(s.running, Asked))
  }

  /** Charged and released under the same amount, unless it can never start. */
  ghost predicate Aligned(max: Amount, job: Job) {
    TooBig(max, job) || Charged(job).cuda == Asked(job).cuda
  }

  ghost predicate FromJobs(jobs: set<Job>, s: Exec) {
    forall i :: 0 <= i < |s.pending| ==> s.pending[i] in jobs
  }

  lemma CudaFinish(alloc: Amount, running: Amount, asked: Amount)
    requires SameCuda(alloc, running)
    ensures SameCuda(Minus(alloc, asked), Minus(running, asked))
  {}

  lemma FinishCuda(s: Exec, i: nat)
    requires CudaConserved(s) && i < |s.running|
    ensures CudaConserved(Finished(s, i))
  {
    TotalWithout(s.running, Asked, i);
    CudaFinish(s.alloc, Total(s.running, Asked), Asked(s.running[i]));
  }

  lemma CudaStart(max: Amount, alloc: Amount, running: Amount, job: Job)
    requires SameCuda(alloc, running) && Aligned(max, job) && !TooBig(max, job)
    ensures SameCuda(Plus(alloc, Charged(job)), Plus(running, Asked(job)))
  {}

  lemma ScanCuda(max: Amount, s: Exec)
    requires CudaConserved(s) && s.phase.At? && (s.phase.n < |s.pending| ==> Aligned(max, s.pending[s.phase.n]))
    ensures CudaConserved(ScanStep(max, s))
  {
    if ScanStep(max, s).phase.Adding? {
      var job := s.pending[s.phase.n];
      TotalWith(s.running, Asked, job);
      CudaStart(max, s.alloc, Total(s.running, Asked), job);
    }
  }

  lemma NextFromJobs(max: Amount, jobs: set<Job>, s: Exec, s': Exec)
    requires FromJobs(jobs, s) && Next(max, jobs, s, s')
    ensures FromJobs(jobs, s')
  {}

  lemma NextCuda(max: Amount, jobs: set<Job>, s: Exec, s': Exec)
    requires CudaConserved(s) && FromJobs(jobs, s) && Next(max, jobs, s, s')
    requires forall job :: job in jobs ==> Aligned(max, job)
    ensures CudaConserved(s')
  {
    if i: nat :| i < |s.running| && s' == Finished(s, i) {
      FinishCuda(s, i);
    } else if s.phase.At? {
      ScanCuda(max, s);
    }
  }

  lemma {:induction false} RunCuda(max: Amount, jobs: set<Job>, run: seq<Exec>, i: nat)
    requires IsRun(max, jobs, run) && i < |run| && forall job :: job in jobs ==> Aligned(max, job)
    ensures CudaConserved(run[i]) && FromJobs(jobs, run[i])
  {
    if i > 0 {
      RunCuda(max, jobs, run, i - 1);
      NextCuda(max, jobs, run[i - 1], run[i]);
      NextFromJobs(max, jobs, run[i - 1], run[i]);
    }
  }

  /** The run that submits one job to an idle host and starts it. */
  lemma StartOne(max: Amount, jobs: set<Job>, job: Job) returns (run: seq<Exec>)
    requires job in jobs && !TooBig(max, job)
    ensures IsRun(max, jobs, run) && run[|run| - 1].running == [job] && run[|run| - 1].alloc.cuda == Charged(job).cuda
  {
    var s1 := START.(pending := [job], phase := At(0));
    var s2 := ScanStep(max, s1);
    assert START.pending + [job] == [job];
    assert BeginScan(jobs, START, s1);
    assert START.running + [job] == [job];
    run := [START, s1, s2];
  }

  /**
   CUDA devices are conserved in every run over `jobs` exactly when each job that can start has
   the same amount under both keys. A job sized by `SelectResources` has none under `cudaDevices`.
   */
  lemma CudaConservedIff(max: Amount, jobs: set<Job>)
    ensures (forall run: seq<Exec>, i: nat :: IsRun(max, jobs, run) && i < |run| ==> CudaConserved(run[i]))
            <==> forall job :: job in jobs ==> Aligned(max, job)
  {
    if forall job :: job in jobs ==> Aligned(max, job) {
      forall run: seq<Exec>, i: nat | IsRun(max, jobs, run) && i < |run| ensures CudaConserved(run[i]) {
        RunCuda(max, jobs, run, i);
      }
    } else {
      var job :| job in jobs && !Aligned(max, job);
      var run := StartOne(max, jobs, job);
      assert Total([job], Asked) == Plus(NOTHING, Asked(job));
      assert !CudaConserved(run[|run| - 1]);
    }
  }

  // ---------------------------------------------------------------- starting jobs one by one

  /** The host waits for jobs, none are pending. */
  ghost predicate Ready(s: Exec) {
    s.phase == Idle && s.pending == []
  }

  lemma Extend(max: Amount, jobs: set<Job>, run: seq<Exec>, s: Exec) returns (longer: seq<Exec>)
    requires IsRun(max, jobs, run) && Next(max, jobs, run[|run| - 1], s)
    ensures IsRun(max, jobs, longer) && longer[|longer| - 1] == s
  {
    longer := run + [s];
  }

  /** Submitting and starting a job that fits, while others may be running. */
  lemma JobStarts(max: Amount, jobs: set<Job>, s: Exec, job: Job) returns (s1: Exec, s2: Exec, s3: Exec, s4: Exec)
    requires job in jobs && Ready(s) && !TooBig(max, job) && Fits(max, s.alloc, job)
    ensures Next(max, jobs, s, s1) && Next(max, jobs, s1, s2) && Next(max, jobs, s2, s3) && Next(max, jobs, s3, s4)
    ensures Ready(s4) && s4.running == s.running + [job] && s4.alloc == Plus(s.alloc, Charged(job))
  {
    assert s.pending + [job] == [job];
    s1 := s.(pending := s.pending + [job], phase := At(0));
    assert BeginScan(jobs, s, s1);
    s2 := ScanStep(max, s1);
    s3 := s2.(pending := Without(s2.pending, 0), phase := At(0));
    assert s3.pending == [];
    s4 := ScanStep(max, s3);
  }

  /** The same, as the continuation of a run. */
  lemma RunStarts(max: Amount, jobs: set<Job>, run: seq<Exec>, job: Job) returns (longer: seq<Exec>)
    requires IsRun(max, jobs, run) && Ready(run[|run| - 1])
    requires job in jobs && !TooBig(max, job) && Fits(max, run[|run| - 1].alloc, job)
    ensures IsRun(max, jobs, longer) && Ready(longer[|longer| - 1])
    ensures longer[|longer| - 1].running == run[|run| - 1].running + [job]
    ensures longer[|longer| - 1].alloc == Plus(run[|run| - 1].alloc, Charged(job))
  {
    var s1, s2, s3, s4 := JobStarts(max, jobs, run[|run| - 1], job);
    longer := Extend(max, jobs, run, s1);
    longer := Extend(max, jobs, longer, s2);
    longer := Extend(max, jobs, longer, s3);
    longer := Extend(max, jobs, longer, s4);
  }

  // ---------------------------------------------------------------- capacity

  ghost predicate CudaWithin(max: Amount, running: seq<Job>) {
    Total(running, Asked).cuda <= max.cuda
  }

  /** The running jobs never ask for more devices than the host has. */
  ghost predicate AlwaysWithin(max: Amount, jobs: set<Job>) {
    forall run: seq<Exec>, i: nat :: IsRun(max, jobs, run) && i < |run| ==> CudaWithin(max, run[i].running)
  }

  /** Jobs that each can start and that fit together, but for their devices. */
  ghost predicate Team(max: Amount, jobs: set<Job>, team: seq<Job>) {
    && (forall i :: 0 <= i < |team| ==> team[i] in jobs && !TooBig(max, team[i]))
    && Total(team, Asked).ram <= max.ram && Total(team, Asked).cores <= max.cores
  }

  /** The job is charged for at least the devices it asks for, unless it can never start. */
  ghost predicate FullyCharged(max: Amount, job: Job) {
    TooBig(max, job) || Charged(job).cuda >= Asked(job).cuda
  }

  ghost predicate AllAccountable(jobs: set<Job>) {
    forall job :: job in jobs ==> Accountable(job)
  }

  /** Pending and running jobs come from `jobs`, and what runs can start. */
  ghost predicate Members(max: Amount, jobs: set<Job>, s: Exec) {
    && FromJobs(jobs, s)
    && forall i :: 0 <= i < |s.running| ==> s.running[i] in jobs && !TooBig(max, s.running[i])
  }

  lemma NextMembers(max: Amount, jobs: set<Job>, s: Exec, s': Exec)
    requires Members(max, jobs, s) && Next(max, jobs, s, s')
    ensures Members(max, jobs, s')
  {
    NextFromJobs(max, jobs, s, s');
  }

  lemma {:induction false} RunMembers(max: Amount, jobs: set<Job>, run: seq<Exec>, i: nat)
    requires IsRun(max, jobs, run) && i < |run|
    ensures Members(max, jobs, run[i])
  {
    if i > 0 {
      RunMembers(max, jobs, run, i - 1);
      NextMembers(max, jobs, run[i - 1], run[i]);
    }
  }

  /** What runs is a team. */
  lemma RunningTeam(max: Amount, jobs: set<Job>, run: seq<Exec>, i: nat)
    requires Within(NOTHING, max) && AllAccountable(jobs) && IsRun(max, jobs, run) && i < |run|
    ensures Team(max, jobs, run[i].running)
  {
    RunMembers(max, jobs, run, i);
    Conservation(max, jobs, run, i);
  }

  /** At least as much is charged as the running jobs ask for, and that is within the host. */
  ghost predicate Covered(max: Amount, alloc: Amount, running: Amount) {
    running.cuda <= alloc.cuda && running.cuda <= max.cuda
  }

  ghost predicate CoveredAt(max: Amount, s: Exec) {
    Covered(max, s.alloc, Total(s.running, Asked))
  }

  lemma CoveredStart(max: Amount, alloc: Amount, running: Amount, job: Job)
    requires Covered(max, alloc, running) && Fits(max, alloc, job) && FullyCharged(max, job) && !TooBig(max, job)
    ensures Covered(max, Plus(alloc, Charged(job)), Plus(running, Asked(job)))
  {}

  lemma CoveredFinish(max: Amount, alloc: Amount, running: Amount, job: Job)
    requires Covered(max, alloc, running) && Accountable(job)
    ensures Covered(max, Minus(alloc, Asked(job)), Minus(running, Asked(job)))
  {}

  lemma NextCovered(max: Amount, jobs: set<Job>, s: Exec, s': Exec)
    requires AllAccountable(jobs) && (forall job :: job in jobs ==> FullyCharged(max, job))
    requires CoveredAt(max, s) && Members(max, jobs, s) && Next(max, jobs, s, s')
    ensures CoveredAt(max, s')
  {
    if i: nat :| i < |s.running| && s' == Finished(s, i) {
      TotalWithout(s.running, Asked, i);
      CoveredFinish(max, s.alloc, Total(s.running, Asked), s.running[i]);
    } else if s.phase.At? && s'.phase.Adding? {
      var job := s.pending[s.phase.n];
      TotalWith(s.running, Asked, job);
      CoveredStart(max, s.alloc, Total(s.running, Asked), job);
    }
  }

  lemma {:induction false} RunCovered(max: Amount, jobs: set<Job>, run: seq<Exec>, i: nat)
    requires Within(NOTHING, max) && AllAccountable(jobs) && (forall job :: job in jobs ==> FullyCharged(max, job))
    requires IsRun(max, jobs, run) && i < |run|
    ensures CoveredAt(max, run[i])
  {
    if i > 0 {
      RunCovered(max, jobs, run, i - 1);
      RunMembers(max, jobs, run, i - 1);
      NextCovered(max, jobs, run[i - 1], run[i]);
    }
  }

  // ---------------------------------------------------------------- how capacity is lost

  /** Nothing runs; the count of devices may be in credit. */
  ghost predicate InCredit(s: Exec, cuda: real) {
    Ready(s) && s.running == [] && s.alloc == Amount(0.0, 0.0, cuda)
  }

  lemma IdleFits(max: Amount, cuda: real, job: Job)
    requires !TooBig(max, job) && cuda <= 0.0
    ensures Fits(max, Amount(0.0, 0.0, cuda), job)
  {}

  /** The only running job finishes. */
  lemma OnlyFinishes(max: Amount, jobs: set<Job>, s: Exec, job: Job) returns (s': Exec)
    requires Ready(s) && s.running == [job]
    ensures Next(max, jobs, s, s') && Ready(s') && s'.running == [] && s'.alloc == Minus(s.alloc, Asked(job))
  {
    s' := Finished(s, 0);
    assert Without([job], 0) == [];
    assert Finish(s, s');
  }

  lemma ChargedReleased(cuda: real, job: Job)
    ensures Minus(Plus(Amount(0.0, 0.0, cuda), Charged(job)), Asked(job)) ==
            Amount(0.0, 0.0, cuda + Charged(job).cuda - Asked(job).cuda)
  {}

  /** The job that was started on the idle host is the only one, and finishes. */
  lemma CreditLeft(max: Amount, jobs: set<Job>, s: Exec, s': Exec, job: Job, cuda: real) returns (s'': Exec)
    requires InCredit(s, cuda) && Ready(s')
    requires s'.running == s.running + [job] && s'.alloc == Plus(s.alloc, Charged(job))
    ensures Next(max, jobs, s', s'') && InCredit(s'', cuda + Charged(job).cuda - Asked(job).cuda)
  {
    s'' := OnlyFinishes(max, jobs, s', job);
    ChargedReleased(cuda, job);
  }

  /** Starting and finishing an under-charged job on an idle host leaves a credit. */
  lemma OneCredit(max: Amount, jobs: set<Job>, run: seq<Exec>, job: Job, cuda: real) returns (longer: seq<Exec>)
    requires IsRun(max, jobs, run) && InCredit(run[|run| - 1], cuda) && cuda <= 0.0
    requires job in jobs && !TooBig(max, job)
    ensures IsRun(max, jobs, longer)
    ensures InCredit(longer[|longer| - 1], cuda + Charged(job).cuda - Asked(job).cuda)
  {
    IdleFits(max, cuda, job);
    longer := RunStarts(max, jobs, run, job);
    var s := CreditLeft(max, jobs, run[|run| - 1], longer[|longer| - 1], job, cuda);
    longer := Extend(max, jobs, longer, s);
  }

  lemma NextCredit(k: nat, d: real)
    requires k > 0 && d >= 0.0
    ensures -((k - 1) as real) * d - d == -(k as real) * d && -((k - 1) as real) * d <= 0.0
  {}

  /** `k` credits. */
  lemma {:induction false} Credits(max: Amount, jobs: set<Job>, job: Job, k: nat) returns (run: seq<Exec>)
    requires job in jobs && !TooBig(max, job) && Charged(job).cuda <= Asked(job).cuda
    ensures IsRun(max, jobs, run)
    ensures InCredit(run[|run| - 1], -(k as real) * (Asked(job).cuda - Charged(job).cuda))
  {
    if k == 0 {
      run := [START];
    } else {
      var d := Asked(job).cuda - Charged(job).cuda;
      NextCredit(k, d);
      run := Credits(max, jobs, job, k - 1);
      run := OneCredit(max, jobs, run, job, -((k - 1) as real) * d);
    }
  }

  lemma Scales(x: real, y: real, d: real)
    requires x <= y && d > 0.0
    ensures x * d <= y * d
  {
    assert (y - x) * d >= 0.0;
  }

  /** Enough credits make up for any debt. */
  lemma EnoughCredits(d: real, debt: real) returns (k: nat)
    requires d > 0.0
    ensures (k as real) * d >= debt
  {
    if debt <= 0.0 {
      k := 0;
    } else {
      var q := debt / d;
      assert q * d == debt && q > 0.0;
      k := q.Floor + 1;
      Scales(q, k as real, d);
    }
  }

  /** Every prefix of a team asks for, and is charged, at most what the team is. */
  lemma {:induction false} PrefixBelow(team: seq<Job>, m: nat)
    requires m <= |team| && forall i :: 0 <= i < |team| ==> Accountable(team[i])
    ensures Total(team[..m], Asked).ram <= Total(team, Asked).ram
    ensures Total(team[..m], Asked).cores <= Total(team, Asked).cores
    ensures Total(team[..m], Charged).cuda <= Total(team, Charged).cuda
  {
    if m == |team| {
      assert team[..m] == team;
    } else {
      var shorter := team[..|team| - 1];
      PrefixBelow(shorter, m);
      assert shorter[..m] == team[..m];
    }
  }

  /** What is allocated, against what was asked and charged, but for the credit. */
  ghost predicate Owes(alloc: Amount, asked: Amount, charged: Amount, credit: real) {
    alloc.ram == asked.ram && alloc.cores == asked.cores && alloc.cuda == charged.cuda - credit
  }

  lemma OwesMore(alloc: Amount, asked: Amount, charged: Amount, credit: real, job: Job,
                 alloc': Amount, asked': Amount, charged': Amount)
    requires Owes(alloc, asked, charged, credit) && alloc' == Plus(alloc, Charged(job))
    requires asked' == Plus(asked, Asked(job)) && charged' == Plus(charged, Charged(job))
    ensures Owes(alloc', asked', charged', credit)
  {}

  lemma FitsOnCredit(max: Amount, alloc: Amount, asked: Amount, charged: Amount, credit: real, job: Job)
    requires Owes(alloc, asked, charged, credit) && charged.cuda <= credit && !TooBig(max, job)
    requires asked.ram + Asked(job).ram <= max.ram && asked.cores + Asked(job).cores <= max.cores
    ensures Fits(max, alloc, job)
  {}

  /** The first `m` jobs of the team are running. */
  ghost predicate Underway(s: Exec, team: seq<Job>, m: nat, credit: real)
    requires m <= |team|
  {
    Ready(s) && s.running == team[..m] && Owes(s.alloc, Total(team[..m], Asked), Total(team[..m], Charged), credit)
  }

  lemma PrefixWith(team: seq<Job>, m: nat, f: Job -> Amount)
    requires m < |team|
    ensures Total(team[..m + 1], f) == Plus(Total(team[..m], f), f(team[m]))
  {
    assert team[..m + 1] == team[..m] + [team[m]];
    TotalWith(team[..m], f, team[m]);
  }

  /** With enough credit the next job of the team fits. */
  lemma NextFits(max: Amount, jobs: set<Job>, s: Exec, team: seq<Job>, m: nat, credit: real)
    requires AllAccountable(jobs) && Team(max, jobs, team) && m < |team| && Underway(s, team, m, credit)
    requires Total(team, Charged).cuda <= credit
    ensures Fits(max, s.alloc, team[m])
  {
    PrefixBelow(team, m);
    PrefixBelow(team, m + 1);
    PrefixWith(team, m, Asked);
    FitsOnCredit(max, s.alloc, Total(team[..m], Asked), Total(team[..m], Charged), credit, team[m]);
  }

  lemma OwesNext(alloc: Amount, alloc': Amount, team: seq<Job>, m: nat, credit: real)
    requires m < |team| && Owes(alloc, Total(team[..m], Asked), Total(team[..m], Charged), credit)
    requires alloc' == Plus(alloc, Charged(team[m]))
    ensures Owes(alloc', Total(team[..m + 1], Asked), Total(team[..m + 1], Charged), credit)
  {
    PrefixWith(team, m, Asked);
    PrefixWith(team, m, Charged);
    OwesMore(alloc, Total(team[..m], Asked), Total(team[..m], Charged), credit, team[m],
             alloc', Total(team[..m + 1], Asked), Total(team[..m + 1], Charged));
  }

  lemma PrefixNext(team: seq<Job>, m: nat)
    requires m < |team|
    ensures team[..m + 1] == team[..m] + [team[m]]
  {}

  lemma UnderwayStep(s: Exec, s': Exec, team: seq<Job>, m: nat, credit: real)
    requires m < |team| && Underway(s, team, m, credit)
    requires Ready(s') && s'.running == s.running + [team[m]] && s'.alloc == Plus(s.alloc, Charged(team[m]))
    ensures Underway(s', team, m + 1, credit)
  {
    OwesNext(s.alloc, s'.alloc, team, m, credit);
    PrefixNext(team, m);
  }

  lemma OneMoreUnderway(max: Amount, jobs: set<Job>, run: seq<Exec>, team: seq<Job>, m: nat, credit: real)
    returns (longer: seq<Exec>)
    requires AllAccountable(jobs) && Team(max, jobs, team) && m < |team|
    requires IsRun(max, jobs, run) && Underway(run[|run| - 1], team, m, credit)
    requires Total(team, Charged).cuda <= credit
    ensures IsRun(max, jobs, longer) && Underway(longer[|longer| - 1], team, m + 1, credit)
  {
    NextFits(max, jobs, run[|run| - 1], team, m, credit);
    longer := RunStarts(max, jobs, run, team[m]);
    UnderwayStep(run[|run| - 1], longer[|longer| - 1], team, m, credit);
  }

  lemma {:induction false} TeamStarts(max: Amount, jobs: set<Job>, run0: seq<Exec>,
                                      team: seq<Job>, m: nat, credit: real)
    returns (run: seq<Exec>)
    requires AllAccountable(jobs) && Team(max, jobs, team) && m <= |team|
    requires IsRun(max, jobs, run0) && Underway(run0[|run0| - 1], team, 0, credit)
    requires Total(team, Charged).cuda <= credit
    ensures IsRun(max, jobs, run) && Underway(run[|run| - 1], team, m, credit)
  {
    run := run0;
    if m > 0 {
      run := TeamStarts(max, jobs, run0, team, m - 1, credit);
      run := OneMoreUnderway(max, jobs, run, team, m - 1, credit);
    }
  }

  /** An under-charged job and a team that asks for too many devices: a run in which that team runs. */
  lemma CapacityLost(max: Amount, jobs: set<Job>, job: Job, team: seq<Job>) returns (run: seq<Exec>)
    requires AllAccountable(jobs) && job in jobs && !FullyCharged(max, job) && Team(max, jobs, team)
    ensures IsRun(max, jobs, run) && run[|run| - 1].running == team
  {
    var d := Asked(job).cuda - Charged(job).cuda;
    var k := EnoughCredits(d, Total(team, Charged).cuda);
    run := Credits(max, jobs, job, k);
    assert team[..0] == [];
    run := TeamStarts(max, jobs, run, team, |team|, (k as real) * d);
    assert team[..|team|] == team;
  }

  /**
   The host's devices suffice in every run over `jobs` exactly when no job that can start is
   charged for fewer devices than it asks for, or when no jobs that fit together otherwise ask for
   too many.
   */
  lemma CudaCapacityIff(max: Amount, jobs: set<Job>)
    requires Within(NOTHING, max) && AllAccountable(jobs)
    ensures AlwaysWithin(max, jobs) <==>
            || (forall job :: job in jobs ==> FullyCharged(max, job))
            || (forall team :: Team(max, jobs, team) ==> CudaWithin(max, team))
  {
    if forall job :: job in jobs ==> FullyCharged(max, job) {
      forall run: seq<Exec>, i: nat | IsRun(max, jobs, run) && i < |run| ensures CudaWithin(max, run[i].running) {
        RunCovered(max, jobs, run, i);
      }
    } else if forall team :: Team(max, jobs, team) ==> CudaWithin(max, team) {
      forall run: seq<Exec>, i: nat | IsRun(max, jobs, run) && i < |run| ensures CudaWithin(max, run[i].running) {
        RunningTeam(max, jobs, run, i);
      }
    } else {
      var job :| job in jobs && !FullyCharged(max, job);
      var team :| Team(max, jobs, team) && !CudaWithin(max, team);
      var run := CapacityLost(max, jobs, job, team);
      assert !CudaWithin(max, run[|run| - 1].running);
    }
  }

  const HOST := Amount(2.0, 2.0, 1.0)

  /** A job that asks for the only device; nothing is charged for it. */
  function DeviceJob(id: nat): Job {
    ToolJob(id, map[Ram := 1.0, Cores := 1.0, CudaDeviceCount := 1.0])
  }

  lemma TotalTwo(a: Job, b: Job, f: Job -> Amount)
    ensures Total([a, b], f) == Plus(f(a), f(b))
  {
    assert [a, b] == [] + [a] + [b];
    TotalWith([], f, a);
    TotalWith([] + [a], f, b);
  }

  /** Two jobs that each ask for the only device run at the same time. */
  lemma CudaOvercommitted() returns (jobs: set<Job>, run: seq<Exec>)
    ensures IsRun(HOST, jobs, run) && Total(run[|run| - 1].running, Asked).cuda == 2.0 > HOST.cuda
  {
    var a, b := DeviceJob(1), DeviceJob(2);
    jobs := {a, b};
    run := [START];
    run := RunStarts(HOST, jobs, run, a);
    run := RunStarts(HOST, jobs, run, b);
    assert run[|run| - 1].running == [a, b];
    TotalTwo(a, b, Asked);
    assert Asked(a) == Asked(b) == Amount(1.0, 1.0, 1.0);
  }
}
