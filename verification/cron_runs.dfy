/** Every run of the scheduler: ticks, executions outside the lock, and the operations of its
    users interleaved, over a clock that never goes back. */
module CronRuns {
  import opened Cron
  import opened Wrappers
  import Iteration

  /** A job as it was when a tick claimed it, and the time of that tick. */
  datatype Claim = Claim(job: Job, at: int)

  /** `executing` holds the ids handed to execution and not yet written back; `log` every
      claim so far; `used` every id ever given to a job. */
  datatype Sys = Sys(jobs: seq<Job>, saved: seq<Job>, running: bool, clock: int,
                     executing: multiset<string>, log: seq<Claim>, used: set<string>, computed: map<string, int>)

  datatype Event =
    | Tick(now: int)
    | Finish(id: string, start: int, ok: bool, now: int)
    | Enable(id: string, on: bool, now: int)
    | Remove(id: string)
    | Add(id: string, schedule: Schedule, now: int)
    | Start(now: int)
    | Stop
    | Load
    | Restart                     // the process ends and another one loads the file

  function TimeOf(e: Event, clock: int): int {
    match e
    case Tick(now) => now
    case Finish(_, _, _, now) => now
    case Enable(_, _, now) => now
    case Add(_, _, now) => now
    case Start(now) => now
    case _ => clock
  }

  predicate Possible(s: Sys, e: Event) {
    && TimeOf(e, s.clock) >= s.clock
    && (e.Tick? ==> s.running)
    && (e.Finish? ==> e.id in s.executing)
    && (e.Add? ==> e.id !in s.used)
  }

  function DueJobs(jobs: seq<Job>, now: int): seq<Job> {
    if jobs == [] then []
    else
      var j := jobs[|jobs| - 1];
      DueJobs(jobs[..|jobs| - 1], now) + (if IsDue(j, now) then [j] else [])
  }

  function Claims(jobs: seq<Job>, now: int): seq<Claim> {
    var due := DueJobs(jobs, now);
    seq(|due|, i requires 0 <= i < |due| => Claim(due[i], now))
  }

  function Store(s: Sys, jobs: seq<Job>): Sys {
    s.(jobs := jobs, saved := jobs)
  }

  function After(ticks: Ticks, s0: Sys, e: Event): Sys {
    var s := s0.(clock := TimeOf(e, s0.clock));
    match e
    case Tick(now) =>
      Store(s, Claimed(s.jobs, now)).(executing := s.executing + multiset(DueIds(s.jobs, now)),
                                      log := s.log + Claims(s.jobs, now))
    case Finish(id, start, ok, now) =>
      Store(s, Finished(s.jobs, id, start, ok, ticks, now)).(executing := s.executing - multiset{id},
                                                             computed := s.computed[id := now])
    case Enable(id, on, now) =>
      Store(s, SetEnabled(s.jobs, id, on, ticks, now)).(computed := s.computed[id := now])
    case Remove(id) => Store(s, Removed(s.jobs, id))
    case Add(id, schedule, now) =>
      Store(s, s.jobs + [NewJob(id, schedule, ticks, now)]).(used := s.used + {id},
                                                             computed := s.computed[id := now])
    case Start(now) =>
      if s.running then s
      else Store(s, Recomputed(s.saved, ticks, now)).(running := true, computed := map id | id in s.used :: now)
    case Stop => s.(running := false)
    case Load => s.(jobs := s.saved)
    case Restart => s.(jobs := s.saved, running := false, executing := multiset{})
  }

  ghost predicate Next(ticks: Ticks, s: Sys, t: Sys) {
    exists e: Event :: Possible(s, e) && t == After(ticks, s, e)
  }

  ghost predicate Initial(s: Sys) {
    s.jobs == [] && s.saved == [] && s.executing == multiset{} && s.log == [] && s.used == {}
  }

  // ------------------------------------------------------------------- invariants

  /** What a pending next run promises, given the claims so far. */
  ghost predicate Promise(j: Job, log: seq<Claim>) {
    j.nextRun.Some? ==>
      match j.schedule
      case At(at) => at == j.nextRun && forall c <- log :: c.job.id != j.id
      case Every(every) =>
        every.Some? && every.value > 0 && forall c <- log :: c.job.id == j.id ==> j.nextRun.value >= c.at + every.value
      case _ => true
  }

  /** What the log says of one claim. */
  ghost predicate Proper(c: Claim, clock: int) {
    && c.at <= clock
    && IsDue(c.job, c.at)
    && (c.job.schedule.At? ==> c.job.schedule.atMs.Some? && c.job.schedule.atMs.value <= c.at)
  }

  /** Two claims of one job, earlier and later. */
  ghost predicate Apart(a: Claim, b: Claim) {
    a.job.id == b.job.id ==>
      match b.job.schedule
      case At(_) => false
      case Every(every) => every.Some? && every.value > 0 && b.at - a.at >= every.value
      case _ => true
  }

  ghost predicate Unique(jobs: seq<Job>) {
    forall i, j :: 0 <= i < j < |jobs| ==> jobs[i].id != jobs[j].id
  }

  ghost predicate Agrees(j: Job, log: seq<Claim>) {
    forall c <- log :: c.job.id == j.id ==> c.job.schedule == j.schedule
  }

  ghost predicate LogInv(log: seq<Claim>, clock: int) {
    && (forall c <- log :: Proper(c, clock))
    && (forall i, k :: 0 <= i < k < |log| ==> Apart(log[i], log[k]))
  }

  ghost predicate JobsInv(jobs: seq<Job>, log: seq<Claim>, used: set<string>) {
    && Unique(jobs)
    && (forall j <- jobs :: j.id in used && Promise(j, log) && Agrees(j, log))
    && (forall c <- log :: c.job.id in used)
  }

  /** While the service runs, an enabled recurring job waits for its next run or is being
      executed: it is never forgotten. */
  ghost predicate Remembered(j: Job, executing: multiset<string>) {
    j.enabled && j.schedule.Every? && j.schedule.everyMs.Some? && j.schedule.everyMs.value > 0 ==>
      j.nextRun.Some? || j.id in executing
  }

  ghost predicate Inv(s: Sys) {
    && s.saved == s.jobs
    && LogInv(s.log, s.clock)
    && JobsInv(s.jobs, s.log, s.used)
    && (s.running ==> forall j <- s.jobs :: Remembered(j, s.executing))
  }

  // ------------------------------------------------------------------ preservation

  /** A recomputed next run keeps the promise, because the clock never goes back: a one-shot
      job that was claimed gets none, a recurring one is at least a period away. */
  lemma RecomputeKeepsPromise(j: Job, log: seq<Claim>, clock: int, ticks: Ticks, now: int)
    requires LogInv(log, clock) && Agrees(j, log) && now >= clock
    ensures Promise(j.(nextRun := ComputeNextRun(ticks, j.schedule, now)), log)
  {
    forall c | c in log && c.job.id == j.id ensures c.at <= now && c.job.schedule == j.schedule && Proper(c, clock) { }
  }

  /** One job replaced by a later version of itself. */
  lemma ReplaceKeeps(jobs: seq<Job>, log: seq<Claim>, used: set<string>, i: nat, j: Job)
    requires JobsInv(jobs, log, used) && i < |jobs|
    requires j.id == jobs[i].id && j.schedule == jobs[i].schedule && Promise(j, log)
    ensures JobsInv(jobs[i := j], log, used)
  {
    assert jobs[i] in jobs;
    forall x | x in jobs[i := j] ensures x.id in used && Promise(x, log) && Agrees(x, log) {
      assert x == j || x in jobs;
    }
  }

  lemma {:induction false} RemovedIsSubset(jobs: seq<Job>, id: string)
    ensures forall j <- Removed(jobs, id) :: j in jobs && j.id != id
    ensures Unique(jobs) ==> Unique(Removed(jobs, id))
    decreases |jobs|
  {
    if jobs != [] {
      var front := jobs[..|jobs| - 1];
      RemovedIsSubset(front, id);
      assert forall j <- front :: j in jobs;
      if Unique(jobs) {
        forall j | j in front ensures j.id != jobs[|jobs| - 1].id {
          var k :| 0 <= k < |front| && front[k] == j;
          assert jobs[k] == j;
        }
      }
    }
  }

  lemma {:induction false} DueJobsAreDue(jobs: seq<Job>, now: int)
    ensures forall j <- DueJobs(jobs, now) :: j in jobs && IsDue(j, now)
    ensures forall j <- jobs :: IsDue(j, now) ==> j in DueJobs(jobs, now)
    decreases |jobs|
  {
    if jobs != [] {
      var front, last := jobs[..|jobs| - 1], jobs[|jobs| - 1];
      DueJobsAreDue(front, now);
      assert (forall j <- front :: j in jobs) && last in jobs && (forall j <- jobs :: j in front || j == last);
    }
  }

  lemma {:induction false} DueIdsMatch(jobs: seq<Job>, now: int)
    ensures |DueJobs(jobs, now)| == |DueIds(jobs, now)|
    ensures forall i :: 0 <= i < |DueIds(jobs, now)| ==> DueIds(jobs, now)[i] == DueJobs(jobs, now)[i].id
    decreases |jobs|
  {
    if jobs != [] {
      DueIdsMatch(jobs[..|jobs| - 1], now);
    }
  }

  lemma {:induction false} DueJobsAreUnique(jobs: seq<Job>, now: int)
    requires Unique(jobs)
    ensures Unique(DueJobs(jobs, now))
    decreases |jobs|
  {
    if jobs != [] {
      var front, last := jobs[..|jobs| - 1], jobs[|jobs| - 1];
      DueJobsAreUnique(front, now);
      DueJobsAreDue(front, now);
      forall j | j in front ensures j.id != last.id {
        var k :| 0 <= k < |front| && front[k] == j;
        assert jobs[k] == j;
      }
    }
  }

  /** The claims of one tick: proper, and apart from all earlier ones. */
  lemma TickKeepsLog(jobs: seq<Job>, log: seq<Claim>, used: set<string>, clock: int, now: int)
    requires LogInv(log, clock) && JobsInv(jobs, log, used) && now >= clock
    ensures LogInv(log + Claims(jobs, now), now)
  {
    DueJobsAreDue(jobs, now);
    DueIdsMatch(jobs, now);
    DueJobsAreUnique(jobs, now);
    var due, new_ := DueJobs(jobs, now), Claims(jobs, now);
    var all := log + new_;
    forall c | c in all ensures Proper(c, now) {
      if c in log {
        assert Proper(c, clock);
      } else {
        var i :| 0 <= i < |new_| && new_[i] == c;
        assert due[i] in due && Promise(due[i], log);
      }
    }
    forall i, k | 0 <= i < k < |all| ensures Apart(all[i], all[k]) {
      if k >= |log| {
        var j := due[k - |log|];
        assert j in due && Promise(j, log) && all[k] == Claim(j, now);
        if i < |log| {
          assert all[i] == log[i] && log[i] in log;
        } else {
          assert due[i - |log|].id != j.id;
        }
      }
    }
  }

  /** One job across a tick: claimed, and its next run cleared, or left alone. */
  lemma TickKeepsJob(jobs: seq<Job>, log: seq<Claim>, used: set<string>, now: int, i: nat)
    requires JobsInv(jobs, log, used) && i < |jobs|
    ensures Promise(Claimed(jobs, now)[i], log + Claims(jobs, now))
    ensures Agrees(Claimed(jobs, now)[i], log + Claims(jobs, now))
  {
    DueJobsAreDue(jobs, now);
    DueIdsAre(jobs, now, jobs[i].id);
    var j, new_ := Claimed(jobs, now)[i], Claims(jobs, now);
    assert jobs[i] in jobs && j == Unclaim(DueIds(jobs, now))(jobs[i]);
    assert Promise(jobs[i], log) && Agrees(jobs[i], log);
    forall c | c in new_ && c.job.id == j.id ensures c.job.schedule == j.schedule && j.nextRun.None? {
      var k :| 0 <= k < |new_| && new_[k] == c;
      assert DueJobs(jobs, now)[k] in DueJobs(jobs, now);
      SameJob(jobs, c.job, jobs[i]);
    }
  }

  lemma TickKeepsJobs(jobs: seq<Job>, log: seq<Claim>, used: set<string>, now: int)
    requires JobsInv(jobs, log, used)
    ensures JobsInv(Claimed(jobs, now), log + Claims(jobs, now), used)
  {
    DueJobsAreDue(jobs, now);
    var new_, after := Claims(jobs, now), Claimed(jobs, now);
    var all := log + new_;
    forall i | 0 <= i < |after| ensures after[i].id in used && Promise(after[i], all) && Agrees(after[i], all) {
      TickKeepsJob(jobs, log, used, now, i);
      assert jobs[i] in jobs && after[i].id == jobs[i].id;
    }
    forall c | c in all ensures c.job.id in used {
      if c !in log {
        var k :| 0 <= k < |new_| && new_[k] == c;
        assert DueJobs(jobs, now)[k] in DueJobs(jobs, now);
      }
    }
  }

  lemma SameJob(jobs: seq<Job>, a: Job, b: Job)
    requires Unique(jobs) && a in jobs && b in jobs && a.id == b.id
    ensures a == b
  {
  }

  lemma TickKeepsRemembered(jobs: seq<Job>, executing: multiset<string>, now: int)
    requires forall j <- jobs :: Remembered(j, executing)
    ensures forall j <- Claimed(jobs, now) :: Remembered(j, executing + multiset(DueIds(jobs, now)))
  {
    var after, ids := Claimed(jobs, now), DueIds(jobs, now);
    forall j | j in after ensures Remembered(j, executing + multiset(ids)) {
      var i :| 0 <= i < |after| && after[i] == j;
      assert jobs[i] in jobs && Remembered(jobs[i], executing);
      assert j == Unclaim(ids)(jobs[i]);
    }
  }

  lemma FindUnique(jobs: seq<Job>, id: string)
    ensures Find(jobs, id) == |jobs| ==> forall j <- jobs :: j.id != id
    ensures Unique(jobs) && Find(jobs, id) < |jobs| ==>
      forall k :: 0 <= k < |jobs| && jobs[k].id == id ==> k == Find(jobs, id)
  {
    FindIsFirst(jobs, id);
  }

  /** The write-back of a finished run. */
  lemma FinishKeeps(s: Sys, ticks: Ticks, e: Event)
    requires Inv(s) && e.Finish? && Possible(s, e)
    ensures Inv(After(ticks, s, e))
  {
    var t := After(ticks, s, e);
    var i := Find(s.jobs, e.id);
    FindUnique(s.jobs, e.id);
    ClockMayAdvance(s.log, s.clock, e.now);
    if i < |s.jobs| {
      var j := s.jobs[i];
      assert j in s.jobs;
      var r := AfterRun(j, e.start, e.ok, ticks, e.now);
      if r.Some? {
        if !j.schedule.At? {
          RecomputeKeepsPromise(j.(lastRun := Some(e.start), lastOk := Some(e.ok)), s.log, s.clock, ticks, e.now);
        }
        ReplaceKeeps(s.jobs, s.log, s.used, i, r.value);
        if t.running {
          ReplaceRemembers(s.jobs, s.executing, i, r.value);
        }
      } else {
        RemovedIsSubset(s.jobs, e.id);
      }
    }
    if t.running {
      forall x | x in t.jobs ensures Remembered(x, t.executing) {
        assert x in s.jobs || (i < |s.jobs| && x.id == e.id);
      }
    }
  }

  lemma ClockMayAdvance(log: seq<Claim>, clock: int, now: int)
    requires LogInv(log, clock) && now >= clock
    ensures LogInv(log, now)
  {
    forall c | c in log ensures Proper(c, now) {
      assert Proper(c, clock);
    }
  }

  lemma ReplaceRemembers(jobs: seq<Job>, executing: multiset<string>, i: nat, j: Job)
    requires i < |jobs| && Unique(jobs) && j.id == jobs[i].id && Remembered(j, multiset{})
    requires forall x <- jobs :: Remembered(x, executing)
    ensures forall x <- jobs[i := j] :: Remembered(x, executing - multiset{j.id})
  {
    forall x | x in jobs[i := j] ensures Remembered(x, executing - multiset{j.id}) {
      var k :| 0 <= k < |jobs| && jobs[i := j][k] == x;
      assert jobs[k] in jobs;
      if k != i {
        assert Remembered(x, executing) && x.id != j.id;
      }
    }
  }

  lemma EnableKeeps(s: Sys, ticks: Ticks, e: Event)
    requires Inv(s) && e.Enable? && Possible(s, e)
    ensures Inv(After(ticks, s, e))
  {
    var i := Find(s.jobs, e.id);
    ClockMayAdvance(s.log, s.clock, e.now);
    if i < |s.jobs| {
      var j := s.jobs[i];
      assert j in s.jobs;
      RecomputeKeepsPromise(j.(enabled := e.on), s.log, s.clock, ticks, e.now);
      var r := Toggled(j, e.on, ticks, e.now);
      ReplaceKeeps(s.jobs, s.log, s.used, i, r);
      forall x | s.running && x in s.jobs[i := r] ensures Remembered(x, s.executing) {
        assert x == r || x in s.jobs;
      }
    }
  }

  lemma StartKeeps(s: Sys, ticks: Ticks, e: Event)
    requires Inv(s) && e.Start? && Possible(s, e) && !s.running
    ensures Inv(After(ticks, s, e))
  {
    var t := After(ticks, s, e);
    ClockMayAdvance(s.log, s.clock, e.now);
    forall x | x in t.jobs
      ensures x.id in s.used && Promise(x, s.log) && Agrees(x, s.log) && Remembered(x, s.executing)
    {
      var i :| 0 <= i < |t.jobs| && t.jobs[i] == x;
      var j := s.jobs[i];
      assert j in s.jobs && x == Refresh(ticks, e.now)(j);
      RecomputeKeepsPromise(j, s.log, s.clock, ticks, e.now);
    }
  }

  lemma AddKeeps(s: Sys, ticks: Ticks, e: Event)
    requires Inv(s) && e.Add? && Possible(s, e)
    ensures Inv(After(ticks, s, e))
  {
    var t := After(ticks, s, e);
    var j := NewJob(e.id, e.schedule, ticks, e.now);
    ClockMayAdvance(s.log, s.clock, e.now);
    assert Agrees(j, s.log);
    RecomputeKeepsPromise(j, s.log, s.clock, ticks, e.now);
    forall x | x in t.jobs
      ensures x.id in t.used && Promise(x, t.log) && Agrees(x, t.log) && (s.running ==> Remembered(x, t.executing))
    {
      assert x == j || x in s.jobs;
    }
    forall i, k | 0 <= i < k < |t.jobs| ensures t.jobs[i].id != t.jobs[k].id {
      assert s.jobs[i] in s.jobs;
    }
  }

  lemma StepKeepsInv(ticks: Ticks, s: Sys, e: Event)
    requires Inv(s) && Possible(s, e)
    ensures Inv(After(ticks, s, e))
  {
    match e
    case Tick(now) =>
      TickKeepsLog(s.jobs, s.log, s.used, s.clock, now);
      TickKeepsJobs(s.jobs, s.log, s.used, now);
      TickKeepsRemembered(s.jobs, s.executing, now);
    case Finish(_, _, _, _) => FinishKeeps(s, ticks, e);
    case Enable(_, _, _) => EnableKeeps(s, ticks, e);
    case Remove(id) => RemovedIsSubset(s.jobs, id);
    case Add(_, _, _) => AddKeeps(s, ticks, e);
    case Start(now) => if !s.running { StartKeeps(s, ticks, e); } else { ClockMayAdvance(s.log, s.clock, now); }
    case _ =>
  }

  lemma EveryStateInv(ticks: Ticks, run: seq<Sys>)
    requires Iteration.IsRun((s, t) => Next(ticks, s, t), run) && Initial(run[0])
    ensures forall s <- run :: Inv(s)
  {
    var next := (s, t) => Next(ticks, s, t);
    forall s: Sys, t: Sys | Inv(s) && next(s, t) ensures Inv(t) {
      var e :| Possible(s, e) && t == After(ticks, s, e);
      StepKeepsInv(ticks, s, e);
    }
    Iteration.RunKeeps(next, Inv, run);
  }

  // ------------------------------------------------------------------ the theorems

  /** In every run a one-shot job is claimed at most once, however it is enabled, disabled,
      removed, reloaded or restarted meanwhile. */
  lemma OneShotAtMostOnce(ticks: Ticks, run: seq<Sys>, s: Sys, i: nat, k: nat)
    requires Iteration.IsRun((s, t) => Next(ticks, s, t), run) && Initial(run[0]) && s in run
    requires i < k < |s.log| && s.log[k].job.schedule.At?
    ensures s.log[i].job.id != s.log[k].job.id
  {
    EveryStateInv(ticks, run);
    assert Apart(s.log[i], s.log[k]);
  }

  /** In every run two claims of a recurring job are at least its period apart. */
  lemma RecurringClaimsApart(ticks: Ticks, run: seq<Sys>, s: Sys, i: nat, k: nat)
    requires Iteration.IsRun((s, t) => Next(ticks, s, t), run) && Initial(run[0]) && s in run
    requires i < k < |s.log| && s.log[i].job.id == s.log[k].job.id && s.log[k].job.schedule.Every?
    ensures s.log[k].job.schedule.everyMs.Some?
    ensures s.log[k].at - s.log[i].at >= s.log[k].job.schedule.everyMs.value > 0
  {
    EveryStateInv(ticks, run);
    assert Apart(s.log[i], s.log[k]);
  }

  /** In every run a claimed job is enabled and its time has come; and while the service runs
      no enabled recurring job is lost. */
  lemma OnlyEnabledAndNoneForgotten(ticks: Ticks, run: seq<Sys>, s: Sys)
    requires Iteration.IsRun((s, t) => Next(ticks, s, t), run) && Initial(run[0]) && s in run
    ensures forall c <- s.log :: c.job.enabled && c.job.nextRun.Some? && c.job.nextRun.value <= c.at
    ensures s.running ==> forall j <- s.jobs :: Remembered(j, s.executing)
  {
    EveryStateInv(ticks, run);
    forall c | c in s.log ensures IsDue(c.job, c.at) {
      assert Proper(c, s.clock);
    }
  }
}
