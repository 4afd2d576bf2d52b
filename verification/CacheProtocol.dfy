/**
 The job cache protocol inside `CommandLineTool.job`: any number of processes share, for one
 cache key, a status file guarded by `flock` and a cache directory.

 A process takes a shared lock and reads the status; with a successful status and an existing
 directory it uses the cached output, otherwise it upgrades to an exclusive lock, recreates the
 directory, runs the job in it and writes the status. The upgrade is not atomic: the shared lock
 is given up before the exclusive one is granted, so other processes may act in between.
 */
module CacheProtocol {
  import opened Values

  datatype FileStatus = Empty | Text(status: Status)

  /** The directory, who created it last, and how much has been written to it. */
  datatype Dir = Missing | Dir(owner: nat, writes: nat)

  datatype Pc =
    | Start                          // before the shared lock
    | Shared                         // holds the shared lock
    | HaveRead(status: FileStatus)   // has read the status file
    | Using                          // uses the cached output
    | MustWrite                      // about to upgrade the lock
    | WaitExclusive                  // shared lock given up, exclusive lock not yet granted
    | Exclusive                      // holds the exclusive lock
    | Removed                        // has removed the directory
    | Writing                        // has recreated it; the job runs in it
    | Reported(result: Status)       // the job has reported
    | Truncated(result: Status)      // the status file is emptied
    | Written(result: Status)        // the new status is written
    | Done

  /** A run that reported `status` when the directory had `writes` writes. */
  datatype Report = Report(status: Status, writes: nat)

  datatype System = System(
    file: FileStatus,
    dir: Dir,
    shared: set<nat>,
    exclusive: Option<nat>,
    pc: map<nat, Pc>,
    reports: map<nat, Report>)

  predicate HoldsShared(pc: Pc) {
    pc.Shared? || pc.HaveRead? || pc.Using? || pc.MustWrite?
  }

  predicate HoldsExclusive(pc: Pc) {
    pc.Exclusive? || pc.Removed? || pc.Writing? || pc.Reported? || pc.Truncated? || pc.Written?
  }

  /** Between `rmtree` and the write of the new status. */
  predicate InWindow(pc: Pc) {
    pc.Removed? || pc.Writing? || pc.Reported? || pc.Truncated?
  }

  /** How far a process has come. */
  function Rank(pc: Pc): nat {
    match pc
    case Start => 0 case Shared => 1 case HaveRead(_) => 2 case Using => 3 case MustWrite => 3
    case WaitExclusive => 4 case Exclusive => 5 case Removed => 6 case Writing => 7
    case Reported(_) => 8 case Truncated(_) => 9 case Written(_) => 10 case Done => 11
  }

  // ---------------------------------------------------------------- the steps of one process

  function Go(s: System, p: nat, pc: Pc): System {
    s.(pc := s.pc[p := pc])
  }

  /** The step that process `p` can take next; `result` and `remove` stand for the outside world. */
  ghost predicate Step(s: System, s': System, p: nat) {
    p in s.pc &&
    match s.pc[p]
    case Start => s.exclusive.None? && s' == Go(s, p, Shared).(shared := s.shared + {p})
    case Shared => s' == Go(s, p, HaveRead(s.file))
    case HaveRead(st) => s' == Go(s, p, if s.dir.Dir? && st == Text(Success) then Using else MustWrite)
    case Using => s' == Go(s, p, Done).(shared := s.shared - {p})
    case MustWrite => s' == Go(s, p, WaitExclusive).(shared := s.shared - {p})
    case WaitExclusive => s.exclusive.None? && s.shared == {} && s' == Go(s, p, Exclusive).(exclusive := Some(p))
    case Exclusive => s' == Go(s, p, Removed).(dir := Missing)
    case Removed => s' == Go(s, p, Writing).(dir := Dir(p, 0))
    case Writing =>
      s.dir.Dir? &&
      (|| s' == s.(dir := Dir(p, s.dir.writes + 1))
       || exists result :: s' == Go(s, p, Reported(result)).(reports := s.reports[p := Report(result, s.dir.writes)]))
    case Reported(result) => s' == Go(s, p, Truncated(result)).(file := Empty)
    case Truncated(result) => s' == Go(s, p, Written(result)).(file := Text(result))
    case Written(_) => s' == Go(s, p, Done).(exclusive := None)
    case Done => false
  }

  /** A process ends abnormally: the system closes its file and so drops its lock. */
  ghost predicate Crash(s: System, s': System, p: nat) {
    && p in s.pc
    && s' == Go(s, p, Done).(shared := s.shared - {p},
                             exclusive := if s.exclusive == Some(p) then None else s.exclusive)
  }

  /** A crash here would leave a directory that nobody vouches for under a status file that still says success. */
  predicate Exposed(s: System, pc: Pc) {
    s.file == Text(Success) && (pc.Writing? || (pc.Reported? && pc.result != Success))
  }

  ghost predicate BenignCrash(s: System, s': System, p: nat) {
    Crash(s, s', p) && !Exposed(s, s.pc[p])
  }

  ghost predicate Next(s: System, s': System) {
    (exists p :: Step(s, s', p)) || (exists p :: BenignCrash(s, s', p))
  }

  /** A directory under a status of success was completely written by a run that reported success. */
  ghost predicate Clean(s: System) {
    s.file == Text(Success) && s.dir.Dir? ==>
      s.dir.owner in s.reports && s.reports[s.dir.owner] == Report(Success, s.dir.writes)
  }

  /** Nobody has started; what earlier processes left behind is clean. */
  ghost predicate Init(s: System) {
    && s.shared == {} && s.exclusive == None && Clean(s)
    && (forall p :: p in s.pc ==> s.pc[p] == Start)
    && s.pc.Keys !! s.reports.Keys && (s.dir.Dir? ==> s.dir.owner !in s.pc)
  }

  /** A run; every state of a run is the last state of a shorter one. */
  ghost predicate IsRun(run: seq<System>) {
    run != [] &&
    var last := |run| - 1;
    if last == 0 then Init(run[0]) else IsRun(run[..last]) && Next(run[last - 1], run[last])
  }

  function Last(run: seq<System>): System
    requires run != []
  {
    run[|run| - 1]
  }

  // ---------------------------------------------------------------- what every run keeps

  ghost predicate LocksAgree(s: System) {
    && (forall p :: p in s.shared <==> p in s.pc && HoldsShared(s.pc[p]))
    && (forall p :: s.exclusive == Some(p) <==> p in s.pc && HoldsExclusive(s.pc[p]))
    && (s.exclusive.Some? ==> s.shared == {})
  }

  /** The directory is that of process `p`, unchanged since its run reported. */
  ghost predicate Vouched(s: System, p: nat, result: Status) {
    s.dir.Dir? && s.dir.owner == p && p in s.reports && s.reports[p] == Report(result, s.dir.writes)
  }

  /** What a process knows at its point of the protocol. */
  ghost predicate Knows(s: System, p: nat)
    requires p in s.pc
  {
    match s.pc[p]
    case HaveRead(st) => s.file == st
    case Using => s.file == Text(Success) && s.dir.Dir?
    case Removed => s.dir.Missing?
    case Writing => s.dir.Dir? && s.dir.owner == p
    case Reported(r) => Vouched(s, p, r)
    case Truncated(r) => Vouched(s, p, r) && s.file == Empty
    case Written(r) => Vouched(s, p, r) && s.file == Text(r)
    case _ => true
  }

  /** A process reports only once it has run its job. */
  ghost predicate ReportsLate(s: System) {
    forall p :: p in s.pc && p in s.reports ==> Rank(s.pc[p]) >= Rank(Reported(s.reports[p].status))
  }

  ghost predicate Safe(s: System) {
    && LocksAgree(s)
    && (forall p :: p in s.pc ==> Knows(s, p)) && ReportsLate(s)
    && ((exists p :: p in s.pc && InWindow(s.pc[p])) || Clean(s))
  }

  /** While one process holds the exclusive lock, every other one holds nothing and knows nothing. */
  lemma OthersIdle(s: System, p: nat, q: nat)
    requires LocksAgree(s) && p in s.pc && HoldsExclusive(s.pc[p]) && q in s.pc && q != p
    ensures !HoldsShared(s.pc[q]) && !HoldsExclusive(s.pc[q])
  {
    assert s.exclusive == Some(p);
  }

  lemma LocksStep(s: System, s': System, p: nat)
    requires LocksAgree(s) && Step(s, s', p)
    ensures LocksAgree(s')
  {}

  lemma LocksDropped(s: System, s': System, p: nat)
    requires LocksAgree(s) && Crash(s, s', p)
    ensures LocksAgree(s')
  {}

  lemma LocksKept(s: System, s': System, p: nat)
    requires LocksAgree(s) && (Step(s, s', p) || Crash(s, s', p))
    ensures LocksAgree(s')
  {
    if Crash(s, s', p) {
      LocksDropped(s, s', p);
    } else {
      LocksStep(s, s', p);
    }
  }

  /** Steps outside the exclusive section leave file and directory alone. */
  lemma SharedStepSafe(s: System, s': System, p: nat)
    requires Safe(s) && p in s.pc && !HoldsExclusive(s.pc[p]) && (Step(s, s', p) || Crash(s, s', p))
    ensures Safe(s')
  {
    LocksKept(s, s', p);
    assert s'.file == s.file && s'.dir == s.dir && s'.reports == s.reports;
    forall q | q in s'.pc ensures Knows(s', q) {
      assert Knows(s, p) && Knows(s, q);
    }
    if w :| w in s.pc && InWindow(s.pc[w]) {
      assert w != p && s'.pc[w] == s.pc[w];
    }
  }

  lemma ExclusiveStepSafe(s: System, s': System, p: nat)
    requires Safe(s) && p in s.pc && HoldsExclusive(s.pc[p]) && Step(s, s', p)
    ensures Safe(s')
  {
    LocksKept(s, s', p);
    assert Knows(s, p);
    forall q | q in s'.pc ensures Knows(s', q) {
      if q != p { OthersIdle(s, p, q); }
    }
    if InWindow(s'.pc[p]) {
    } else if s.pc[p].Written? {
      forall w | w in s.pc ensures !InWindow(s.pc[w]) {
        if w != p { OthersIdle(s, p, w); }
      }
    }
  }

  lemma CrashSafe(s: System, s': System, p: nat)
    requires Safe(s) && p in s.pc && HoldsExclusive(s.pc[p]) && BenignCrash(s, s', p)
    ensures Safe(s')
  {
    LocksKept(s, s', p);
    assert Knows(s, p);
    forall q | q in s'.pc ensures Knows(s', q) && !InWindow(s'.pc[q]) {
      if q != p { OthersIdle(s, p, q); }
    }
    if !InWindow(s.pc[p]) {
      forall w | w in s.pc ensures !InWindow(s.pc[w]) {
        if w != p { OthersIdle(s, p, w); }
      }
    }
  }

  lemma NextSafe(s: System, s': System)
    requires Safe(s) && Next(s, s')
    ensures Safe(s')
  {
    if p :| Step(s, s', p) {
      if HoldsExclusive(s.pc[p]) { ExclusiveStepSafe(s, s', p); } else { SharedStepSafe(s, s', p); }
    } else {
      var p :| BenignCrash(s, s', p);
      if HoldsExclusive(s.pc[p]) { CrashSafe(s, s', p); } else { SharedStepSafe(s, s', p); }
    }
  }

  lemma {:induction false} RunSafe(run: seq<System>)
    requires IsRun(run)
    ensures Safe(Last(run))
  {
    if |run| > 1 {
      RunSafe(run[..|run| - 1]);
      NextSafe(run[|run| - 2], run[|run| - 1]);
    }
  }

  /** Whoever uses the cache sees a directory completely written by a run that reported success. */
  lemma CachedIsComplete(run: seq<System>, p: nat)
    requires IsRun(run) && p in Last(run).pc && Last(run).pc[p] == Using
    ensures var s := Last(run);
            s.dir.Dir? && s.dir.owner in s.reports && s.reports[s.dir.owner] == Report(Success, s.dir.writes)
  {
    RunSafe(run);
    var s := Last(run);
    assert Knows(s, p) && p in s.shared;
    assert forall w :: w in s.pc && InWindow(s.pc[w]) ==> s.exclusive == Some(w);
  }

  /** The directory does not change in a step during which a process goes on using it. */
  lemma UsingStep(s: System, s': System, p: nat)
    requires LocksAgree(s) && Next(s, s') && p in s.pc && s.pc[p] == Using && p in s'.pc && s'.pc[p] == Using
    ensures s'.dir == s.dir
  {
    assert p in s.shared;
    assert s.exclusive == None;
    forall q | q in s.pc ensures !HoldsExclusive(s.pc[q]) {}
  }

  ghost predicate NotBack(before: Pc, after: Pc) {
    Rank(before) <= Rank(after) && (Rank(before) == Rank(after) ==> before == after)
  }

  lemma StepForwards(s: System, s': System, q: nat, p: nat)
    requires Step(s, s', q) && p in s.pc
    ensures p in s'.pc && NotBack(s.pc[p], s'.pc[p])
  {}

  /** No process moves backwards. */
  lemma Forwards(s: System, s': System, p: nat)
    requires Next(s, s') && p in s.pc
    ensures p in s'.pc && NotBack(s.pc[p], s'.pc[p])
  {
    if q :| Step(s, s', q) { StepForwards(s, s', q, p); }
  }

  lemma {:induction false} ForwardsAll(run: seq<System>, i: nat, p: nat)
    requires IsRun(run) && i < |run| && p in run[i].pc
    ensures p in Last(run).pc && Rank(run[i].pc[p]) <= Rank(Last(run).pc[p])
  {
    if i < |run| - 1 {
      ForwardsAll(run[..|run| - 1], i, p);
      Forwards(run[|run| - 2], run[|run| - 1], p);
    }
  }

  lemma StableStep(s: System, s': System, p: nat)
    requires Safe(s) && Next(s, s') && p in s.pc && Rank(s.pc[p]) >= Rank(Using) && p in s'.pc && s'.pc[p] == Using
    ensures s.pc[p] == Using && s'.dir == s.dir
  {
    Forwards(s, s', p);
    UsingStep(s, s', p);
  }

  /** The directory stays the same from when a process starts using it until it releases its lock. */
  lemma {:induction false} CachedIsStable(run: seq<System>, i: nat, p: nat)
    requires IsRun(run) && i < |run| && p in run[i].pc && run[i].pc[p] == Using
    requires p in Last(run).pc && Last(run).pc[p] == Using
    ensures Last(run).dir == run[i].dir
  {
    if i < |run| - 1 {
      var before := run[..|run| - 1];
      ForwardsAll(before, i, p);
      RunSafe(before);
      StableStep(Last(before), Last(run), p);
      CachedIsStable(before, i, p);
    }
  }

  /** At most one process is between `rmtree` and the write of the status. */
  lemma OneWriter(run: seq<System>, p: nat, q: nat)
    requires IsRun(run) && p in Last(run).pc && q in Last(run).pc
    requires InWindow(Last(run).pc[p]) && InWindow(Last(run).pc[q])
    ensures p == q
  {
    RunSafe(run);
    assert Last(run).exclusive == Some(p) && Last(run).exclusive == Some(q);
  }

  /**
   When a crash matters: a process that dies while it rebuilds the cache leaves it clean unless
   its job was running, or had failed, while the status file still said success from an earlier run.
   */
  lemma CrashIffExposed(s: System, s': System, p: nat)
    requires Safe(s) && p in s.pc && InWindow(s.pc[p]) && Crash(s, s', p)
    ensures Clean(s') <==> !Exposed(s, s.pc[p])
  {
    assert Knows(s, p) && ReportsLate(s);
  }

  /** No run that reported success vouches for the directory. */
  ghost predicate Unvouched(s: System) {
    s.dir.Dir? && !(s.dir.owner in s.reports && s.reports[s.dir.owner] == Report(Success, s.dir.writes))
  }

  /**
   After an exposed crash, any process that has not started yet can go on at once to use the
   directory that nobody vouches for.
   */
  lemma ExposedCrashMisleads(s: System, s': System, p: nat, q: nat) returns (s1: System, s2: System, s3: System)
    requires Safe(s) && Crash(s, s', p) && Exposed(s, s.pc[p]) && q in s.pc && s.pc[q] == Start
    ensures Step(s', s1, q) && Step(s1, s2, q) && Step(s2, s3, q)
    ensures q in s3.pc && s3.pc[q] == Using && s3.dir == s.dir && Unvouched(s3)
  {
    assert Knows(s, p) && ReportsLate(s) && s.exclusive == Some(p);
    s1 := Go(s', q, Shared).(shared := s'.shared + {q});
    s2 := Go(s1, q, HaveRead(s1.file));
    s3 := Go(s2, q, Using);
  }

  // ---------------------------------------------------------------- a crash that breaks the cache

  /** One process step or any crash, harmless or not. */
  ghost predicate Anything(s: System, s': System) {
    exists p :: Step(s, s', p) || Crash(s, s', p)
  }

  ghost predicate CrashRun(run: seq<System>) {
    run != [] &&
    var last := |run| - 1;
    if last == 0 then Init(run[0]) else CrashRun(run[..last]) && Anything(run[last - 1], run[last])
  }

  /** Process `p` takes a step of the run. */
  lemma Move(run: seq<System>, s: System, p: nat) returns (run': seq<System>)
    requires CrashRun(run) && (Step(Last(run), s, p) || Crash(Last(run), s, p))
    ensures CrashRun(run') && Last(run') == s
  {
    run' := run + [s];
    assert run'[..|run|] == run;
  }

  /** Only process `p` has moved, to `pc`. */
  ghost predicate OnlyMoved(s: System, s': System, p: nat, pc: Pc) {
    s'.pc == s.pc[p := pc] && s'.shared == s.shared && s'.exclusive == s.exclusive
  }

  ghost predicate Unlocked(s: System) {
    s.shared == {} && s.exclusive == None
  }

  /** A process that finds no usable cache gives up its shared lock and waits. */
  lemma WaitsToWrite(run: seq<System>, p: nat) returns (run': seq<System>)
    requires CrashRun(run) && Unlocked(Last(run)) && p in Last(run).pc && Last(run).pc[p] == Start
    requires Last(run).file == Empty
    ensures CrashRun(run') && OnlyMoved(Last(run), Last(run'), p, WaitExclusive)
    ensures Last(run').file == Empty && Last(run').dir == Last(run).dir && Last(run').reports == Last(run).reports
  {
    var s := Last(run);
    var s1 := Go(s, p, Shared).(shared := {p});
    assert s.shared + {p} == {p};
    run' := Move(run, s1, p);
    var s2 := Go(s1, p, HaveRead(Empty));
    run' := Move(run', s2, p);
    var s3 := Go(s2, p, MustWrite);
    run' := Move(run', s3, p);
    var s4 := Go(s3, p, WaitExclusive).(shared := {});
    assert s3.shared - {p} == {};
    run' := Move(run', s4, p);
    assert s4.pc == s.pc[p := WaitExclusive];
  }

  /** The waiting process gets the exclusive lock and recreates the directory. */
  lemma StartsWriting(run: seq<System>, p: nat) returns (run': seq<System>)
    requires CrashRun(run) && Unlocked(Last(run)) && p in Last(run).pc && Last(run).pc[p] == WaitExclusive
    ensures CrashRun(run')
    ensures Last(run') == Last(run).(exclusive := Some(p), dir := Dir(p, 0), pc := Last(run).pc[p := Writing])
  {
    var s := Last(run);
    var s1 := Go(s, p, Exclusive).(exclusive := Some(p));
    run' := Move(run, s1, p);
    var s2 := Go(s1, p, Removed).(dir := Missing);
    run' := Move(run', s2, p);
    var s3 := Go(s2, p, Writing).(dir := Dir(p, 0));
    run' := Move(run', s3, p);
    assert s3.pc == s.pc[p := Writing];
  }

  /** The writer reports success, records it and releases the lock. */
  lemma RecordsSuccess(run: seq<System>, p: nat) returns (run': seq<System>)
    requires CrashRun(run) && Last(run).exclusive == Some(p) && p in Last(run).pc && Last(run).pc[p] == Writing
    requires Last(run).dir == Dir(p, 0)
    ensures CrashRun(run')
    ensures Last(run') == Last(run).(file := Text(Success), exclusive := None, pc := Last(run).pc[p := Done],
                                     reports := Last(run).reports[p := Report(Success, 0)])
  {
    var s := Last(run);
    var s1 := Go(s, p, Reported(Success)).(reports := s.reports[p := Report(Success, 0)]);
    run' := Move(run, s1, p);
    var s2 := Go(s1, p, Truncated(Success)).(file := Empty);
    run' := Move(run', s2, p);
    var s3 := Go(s2, p, Written(Success)).(file := Text(Success));
    run' := Move(run', s3, p);
    var s4 := Go(s3, p, Done).(exclusive := None);
    run' := Move(run', s4, p);
    assert s4.pc == s.pc[p := Done];
  }

  /** A process that finds success and a directory uses it. */
  lemma UsesCache(run: seq<System>, p: nat) returns (run': seq<System>)
    requires CrashRun(run) && Unlocked(Last(run)) && p in Last(run).pc && Last(run).pc[p] == Start
    requires Last(run).file == Text(Success) && Last(run).dir.Dir?
    ensures CrashRun(run') && p in Last(run').pc && Last(run').pc[p] == Using
    ensures Last(run').dir == Last(run).dir && Last(run').reports == Last(run).reports
  {
    var s1 := Go(Last(run), p, Shared).(shared := Last(run).shared + {p});
    run' := Move(run, s1, p);
    var s2 := Go(s1, p, HaveRead(Text(Success)));
    run' := Move(run', s2, p);
    run' := Move(run', Go(s2, p, Using), p);
  }

  /** Two processes find no cached output, and the first one records success. */
  lemma FirstSucceeds() returns (run: seq<System>)
    ensures CrashRun(run)
    ensures Last(run) == System(Text(Success), Dir(1, 0), {}, None, map[1 := Done, 2 := WaitExclusive, 3 := Start],
                                map[1 := Report(Success, 0)])
  {
    run := [System(Empty, Missing, {}, None, map[1 := Start, 2 := Start, 3 := Start], map[])];
    run := WaitsToWrite(run, 1);
    run := WaitsToWrite(run, 2);
    run := StartsWriting(run, 1);
    run := RecordsSuccess(run, 1);
    assert Last(run).pc == map[1 := Done, 2 := WaitExclusive, 3 := Start];
  }

  ghost predicate OnlyDied(s: System, s': System, p: nat) {
    s' == Go(s, p, Done).(exclusive := None)
  }

  /** A process that dies while it holds the exclusive lock drops it, and leaves file and directory. */
  lemma WriterDies(run: seq<System>, p: nat) returns (run': seq<System>)
    requires CrashRun(run) && p in Last(run).pc && Last(run).shared == {} && Last(run).exclusive == Some(p)
    ensures CrashRun(run') && OnlyDied(Last(run), Last(run'), p)
  {
    run' := Move(run, Go(Last(run), p, Done).(exclusive := None), p);
  }

  /**
   The second process, already waiting for the lock, recreates the directory and crashes: the
   file still says success, and a third process uses a directory whose run never reported.
   */
  lemma CrashBreaksCache() returns (run: seq<System>)
    ensures CrashRun(run)
    ensures var s := Last(run);
            3 in s.pc && s.pc[3] == Using && s.dir == Dir(2, 0) && 2 !in s.reports
  {
    run := FirstSucceeds();
    run := StartsWriting(run, 2);
    run := WriterDies(run, 2);
    run := UsesCache(run, 3);
  }
}
