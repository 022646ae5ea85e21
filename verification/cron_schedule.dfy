/** When the jobs of the scheduler run: every enabled job waits for the moment its schedule
    gives, and the tick that comes then claims it. */
module CronSchedule {
  import opened Cron
  import opened CronRuns
  import opened Wrappers
  import Iteration

  /** What an enabled job waits for, when its next run was last computed at `t`: its one time,
      a period from `t`, or the tick that the library gives for `t`. */
  ghost predicate WaitsFor(j: Job, t: int, ticks: Ticks) {
    j.nextRun.Some? ==>
      match j.schedule
      case At(at) => j.nextRun == at
      case Every(every) => every.Some? && every.value > 0 && j.nextRun.value == t + every.value
      case Expr(expr) => expr != "" && j.nextRun == ticks(expr, t)
      case Unknown => false
  }

  /** Its schedule gives no next run at `t`. */
  ghost predicate HasNoNext(s: Schedule, t: int, ticks: Ticks) {
    match s
    case At(at) => at.None? || at.value <= t
    case Every(every) => every.None? || every.value <= 0
    case Expr(expr) => expr == "" || ticks(expr, t).None?
    case Unknown => true
  }

  /** A one-shot job whose time is still ahead. */
  predicate IsAhead(s: Schedule, clock: int) {
    s.At? && s.atMs.Some? && s.atMs.value > clock
  }

  ghost predicate OnTime(s: Sys, j: Job, ticks: Ticks) {
    && j.id in s.computed && s.computed[j.id] <= s.clock
    && (j.enabled ==>
          && WaitsFor(j, s.computed[j.id], ticks)
          && (IsAhead(j.schedule, s.clock) ==> j.nextRun == j.schedule.atMs)
          && (s.running ==>
                j.nextRun.Some? || j.id in s.executing || HasNoNext(j.schedule, s.computed[j.id], ticks)))
  }

  ghost predicate AllOnTime(s: Sys, ticks: Ticks) {
    forall j <- s.jobs :: OnTime(s, j, ticks)
  }

  // ------------------------------------------------------------------ preservation

  /** A job whose next run has just been computed. */
  lemma ComputedIsOnTime(s: Sys, j: Job, ticks: Ticks)
    requires j.id in s.computed && s.computed[j.id] == s.clock
    requires j.enabled ==> j.nextRun == ComputeNextRun(ticks, j.schedule, s.clock)
    ensures OnTime(s, j, ticks)
  {
  }

  /** A job that an event does not touch. */
  lemma UntouchedIsOnTime(s: Sys, t: Sys, j: Job, ticks: Ticks)
    requires OnTime(s, j, ticks) && t.clock >= s.clock && (t.running ==> s.running)
    requires j.id in t.computed && t.computed[j.id] == s.computed[j.id]
    requires t.running && j.id in s.executing ==> j.id in t.executing
    ensures OnTime(t, j, ticks)
  {
  }

  lemma TickIsOnTime(s: Sys, ticks: Ticks, e: Event, i: nat)
    requires AllOnTime(s, ticks) && Unique(s.jobs) && e.Tick? && Possible(s, e) && i < |s.jobs|
    ensures OnTime(After(ticks, s, e), After(ticks, s, e).jobs[i], ticks)
  {
    var t, j := After(ticks, s, e), s.jobs[i];
    assert j in s.jobs && OnTime(s, j, ticks);
    DueIdsAre(s.jobs, e.now, j.id);
    assert t.jobs[i] == Unclaim(DueIds(s.jobs, e.now))(j);
    if j.id in DueIds(s.jobs, e.now) {
      SameJobIsDue(s.jobs, j, e.now);
      assert j.id in multiset(DueIds(s.jobs, e.now));
    }
  }

  lemma SameJobIsDue(jobs: seq<Job>, j: Job, now: int)
    requires Unique(jobs) && j in jobs && j.id in DueIds(jobs, now)
    ensures j.enabled && j.nextRun.Some? && j.nextRun.value <= now
  {
    DueIdsAre(jobs, now, j.id);
    var d :| d in jobs && d.id == j.id && d.enabled && d.nextRun.Some? && d.nextRun.value <= now;
    SameJob(jobs, d, j);
  }

  lemma FinishIsOnTime(s: Sys, ticks: Ticks, e: Event, x: Job)
    requires AllOnTime(s, ticks) && Unique(s.jobs) && e.Finish? && Possible(s, e) && x in After(ticks, s, e).jobs
    ensures OnTime(After(ticks, s, e), x, ticks)
  {
    var t := After(ticks, s, e);
    FindUnique(s.jobs, e.id);
    RemovedIsSubset(s.jobs, e.id);
    if x.id == e.id {
      ComputedIsOnTime(t, x, ticks);
    } else {
      assert x in s.jobs;
      UntouchedIsOnTime(s, t, x, ticks);
    }
  }

  lemma EnableIsOnTime(s: Sys, ticks: Ticks, e: Event, x: Job)
    requires AllOnTime(s, ticks) && Unique(s.jobs) && e.Enable? && Possible(s, e) && x in After(ticks, s, e).jobs
    ensures OnTime(After(ticks, s, e), x, ticks)
  {
    var t := After(ticks, s, e);
    FindUnique(s.jobs, e.id);
    if x.id == e.id {
      ComputedIsOnTime(t, x, ticks);
    } else {
      assert x in s.jobs;
      UntouchedIsOnTime(s, t, x, ticks);
    }
  }

  lemma AddIsOnTime(s: Sys, ticks: Ticks, e: Event, x: Job)
    requires CronRuns.Inv(s) && AllOnTime(s, ticks) && e.Add? && Possible(s, e) && x in After(ticks, s, e).jobs
    ensures OnTime(After(ticks, s, e), x, ticks)
  {
    var t := After(ticks, s, e);
    if x in s.jobs {
      assert x.id in s.used;
      UntouchedIsOnTime(s, t, x, ticks);
    } else {
      ComputedIsOnTime(t, x, ticks);
    }
  }

  lemma StartIsOnTime(s: Sys, ticks: Ticks, e: Event, i: nat)
    requires CronRuns.Inv(s) && e.Start? && Possible(s, e) && !s.running && i < |s.jobs|
    ensures OnTime(After(ticks, s, e), After(ticks, s, e).jobs[i], ticks)
  {
    var t := After(ticks, s, e);
    assert s.jobs[i] in s.jobs && t.jobs[i] == Refresh(ticks, e.now)(s.jobs[i]);
    ComputedIsOnTime(t, t.jobs[i], ticks);
  }

  lemma StepIsOnTime(s: Sys, ticks: Ticks, e: Event, x: Job)
    requires CronRuns.Inv(s) && AllOnTime(s, ticks) && Possible(s, e) && x in After(ticks, s, e).jobs
    ensures OnTime(After(ticks, s, e), x, ticks)
  {
    var t := After(ticks, s, e);
    match e
    case Tick(_) =>
      var i :| 0 <= i < |t.jobs| && t.jobs[i] == x;
      TickIsOnTime(s, ticks, e, i);
    case Finish(_, _, _, _) => FinishIsOnTime(s, ticks, e, x);
    case Enable(_, _, _) => EnableIsOnTime(s, ticks, e, x);
    case Add(_, _, _) => AddIsOnTime(s, ticks, e, x);
    case Start(_) =>
      if s.running {
        UntouchedIsOnTime(s, t, x, ticks);
      } else {
        var i :| 0 <= i < |t.jobs| && t.jobs[i] == x;
        StartIsOnTime(s, ticks, e, i);
      }
    case Remove(id) =>
      RemovedIsSubset(s.jobs, id);
      UntouchedIsOnTime(s, t, x, ticks);
    case _ => UntouchedIsOnTime(s, t, x, ticks);
  }

  lemma EveryJobIsOnTime(ticks: Ticks, run: seq<Sys>)
    requires Iteration.IsRun((s, t) => Next(ticks, s, t), run) && Initial(run[0])
    ensures forall s <- run :: AllOnTime(s, ticks) && CronRuns.Inv(s)
  {
    var next := (s, t) => Next(ticks, s, t);
    var inv := (s: Sys) => AllOnTime(s, ticks) && CronRuns.Inv(s);
    forall s: Sys, t: Sys | inv(s) && next(s, t) ensures inv(t) {
      var e :| Possible(s, e) && t == After(ticks, s, e);
      StepKeepsInv(ticks, s, e);
      forall x | x in t.jobs ensures OnTime(t, x, ticks) {
        StepIsOnTime(s, ticks, e, x);
      }
    }
    Iteration.RunKeeps(next, inv, run);
  }

  // ------------------------------------------------------------------ the theorems

  /** In every run an enabled one-shot job whose time lies ahead has exactly that time as its
      next run, whether or not the service is running. */
  lemma OneShotWaitsForItsTime(ticks: Ticks, run: seq<Sys>, s: Sys, j: Job)
    requires Iteration.IsRun((s, t) => Next(ticks, s, t), run) && Initial(run[0]) && s in run
    requires j in s.jobs && j.enabled && j.schedule.At? && j.schedule.atMs.Some?
    ensures j.schedule.atMs.value > s.clock ==> j.nextRun == j.schedule.atMs
    ensures j.nextRun.None? || j.nextRun == j.schedule.atMs
  {
    EveryJobIsOnTime(ticks, run);
    assert OnTime(s, j, ticks);
  }

  /** In every run an enabled recurring job that waits does so for a period from the moment its
      next run was last computed, and no longer than a period from now. */
  lemma RecurringWaitsOnePeriod(ticks: Ticks, run: seq<Sys>, s: Sys, j: Job)
    requires Iteration.IsRun((s, t) => Next(ticks, s, t), run) && Initial(run[0]) && s in run
    requires j in s.jobs && j.enabled && j.schedule.Every? && j.nextRun.Some?
    ensures j.schedule.everyMs.Some? && j.schedule.everyMs.value > 0 && j.id in s.computed
    ensures j.nextRun.value == s.computed[j.id] + j.schedule.everyMs.value <= s.clock + j.schedule.everyMs.value
  {
    EveryJobIsOnTime(ticks, run);
    assert OnTime(s, j, ticks);
  }

  /** In every run an enabled expression job that waits does so for the tick the library gives
      for the moment its next run was last computed. */
  lemma ExpressionWaitsForItsTick(ticks: Ticks, run: seq<Sys>, s: Sys, j: Job)
    requires Iteration.IsRun((s, t) => Next(ticks, s, t), run) && Initial(run[0]) && s in run
    requires j in s.jobs && j.enabled && j.schedule.Expr? && j.nextRun.Some?
    ensures j.schedule.expr != "" && j.id in s.computed && s.computed[j.id] <= s.clock
    ensures j.nextRun == ticks(j.schedule.expr, s.computed[j.id])
  {
    EveryJobIsOnTime(ticks, run);
    assert OnTime(s, j, ticks);
  }

  /** While the service runs no enabled job of any kind is forgotten: it waits, or is being
      executed, or its schedule gave it nothing to wait for. */
  lemma NoJobIsForgotten(ticks: Ticks, run: seq<Sys>, s: Sys, j: Job)
    requires Iteration.IsRun((s, t) => Next(ticks, s, t), run) && Initial(run[0]) && s in run && s.running
    requires j in s.jobs && j.enabled && j.nextRun.None? && j.id !in s.executing
    ensures j.id in s.computed
    ensures match j.schedule
            case At(at) => at.None? || at.value <= s.computed[j.id]
            case Every(every) => every.None? || every.value <= 0
            case Expr(expr) => expr == "" || ticks(expr, s.computed[j.id]).None?
            case Unknown => true
  {
    EveryJobIsOnTime(ticks, run);
    assert OnTime(s, j, ticks);
  }

  /** A tick at or after the next run of an enabled job claims it: it is logged, handed out for
      execution and waits no more. It leaves every other job as it is. */
  lemma DueJobIsClaimed(ticks: Ticks, run: seq<Sys>, s: Sys, j: Job, now: int)
    requires Iteration.IsRun((s, t) => Next(ticks, s, t), run) && Initial(run[0]) && s in run
    requires s.running && now >= s.clock && j in s.jobs
    ensures Possible(s, Tick(now))
    ensures var t := After(ticks, s, Tick(now));
            if j.enabled && j.nextRun.Some? && j.nextRun.value <= now then
              Claim(j, now) in t.log && j.id in t.executing && j.(nextRun := None) in t.jobs
            else
              j in t.jobs
  {
    EveryJobIsOnTime(ticks, run);
    var t := After(ticks, s, Tick(now));
    var i :| 0 <= i < |s.jobs| && s.jobs[i] == j;
    assert t.jobs[i] == Unclaim(DueIds(s.jobs, now))(j) && t.jobs[i] in t.jobs;
    DueIdsAre(s.jobs, now, j.id);
    if j.enabled && j.nextRun.Some? && j.nextRun.value <= now {
      DueJobsAreDue(s.jobs, now);
      var k :| 0 <= k < |DueJobs(s.jobs, now)| && DueJobs(s.jobs, now)[k] == j;
      assert Claims(s.jobs, now)[k] == Claim(j, now);
      assert Claim(j, now) in s.log + Claims(s.jobs, now);
      assert j.id in multiset(DueIds(s.jobs, now));
    } else if j.id in DueIds(s.jobs, now) {
      SameJobIsDue(s.jobs, j, now);
    }
  }
}
