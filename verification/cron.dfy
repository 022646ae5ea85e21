/** The cron scheduler of pkg/cron/service.go: jobs, and the service that claims them. */
module Cron {
  import opened Sequences
  import opened Wrappers

  datatype Schedule =
    | At(atMs: Option<int>)
    | Every(everyMs: Option<int>)
    | Expr(expr: string)
    | Unknown

  datatype Job = Job(id: string, enabled: bool, schedule: Schedule, deleteAfterRun: bool,
                     nextRun: Option<int>, lastRun: Option<int>, lastOk: Option<bool>)

  /** The cron expression library: the next tick after a time, if there is one. */
  type Ticks = (string, int) -> Option<int>

  // ------------------------------------------------------------- specifications

  function ComputeNextRun(ticks: Ticks, s: Schedule, now: int): Option<int> {
    match s
    case At(Some(at)) => if at > now then Some(at) else None
    case At(None) => None
    case Every(Some(every)) => if every <= 0 then None else Some(now + every)
    case Every(None) => None
    case Expr(expr) => if expr == "" then None else ticks(expr, now)
    case Unknown => None
  }

  predicate IsDue(j: Job, now: int) {
    j.enabled && j.nextRun.Some? && j.nextRun.value <= now
  }

  function DueIds(jobs: seq<Job>, now: int): seq<string> {
    if jobs == [] then []
    else
      var j := jobs[|jobs| - 1];
      DueIds(jobs[..|jobs| - 1], now) + (if IsDue(j, now) then [j.id] else [])
  }

  /** Every job through `f`, in place. */
  function Each(jobs: seq<Job>, f: Job -> Job): (r: seq<Job>)
    ensures |r| == |jobs| && forall i :: 0 <= i < |jobs| ==> r[i] == f(jobs[i])
  {
    seq(|jobs|, i requires 0 <= i < |jobs| => f(jobs[i]))
  }

  function Unclaim(ids: seq<string>): Job -> Job {
    (j: Job) => if j.id in ids then j.(nextRun := None) else j
  }

  function Claimed(jobs: seq<Job>, now: int): seq<Job> {
    Each(jobs, Unclaim(DueIds(jobs, now)))
  }

  function Refresh(ticks: Ticks, now: int): Job -> Job {
    (j: Job) => if j.enabled then j.(nextRun := ComputeNextRun(ticks, j.schedule, now)) else j
  }

  function Recomputed(jobs: seq<Job>, ticks: Ticks, now: int): seq<Job> {
    Each(jobs, Refresh(ticks, now))
  }

  /** The index of the first job with an id, or the number of jobs. */
  function Find(jobs: seq<Job>, id: string): (i: nat)
    ensures i <= |jobs| && (i < |jobs| ==> jobs[i].id == id)
  {
    if jobs == [] || jobs[0].id == id then 0 else 1 + Find(jobs[1..], id)
  }

  lemma {:induction false} FindIsFirst(jobs: seq<Job>, id: string)
    ensures forall k :: 0 <= k < Find(jobs, id) ==> jobs[k].id != id
  {
    if jobs != [] && jobs[0].id != id {
      FindIsFirst(jobs[1..], id);
      assert forall k :: 1 <= k < |jobs| ==> jobs[k] == jobs[1..][k - 1];
    }
  }

  function Removed(jobs: seq<Job>, id: string): seq<Job> {
    if jobs == [] then []
    else Removed(jobs[..|jobs| - 1], id) + (if jobs[|jobs| - 1].id != id then [jobs[|jobs| - 1]] else [])
  }

  function Toggled(j: Job, on: bool, ticks: Ticks, now: int): Job {
    j.(enabled := on, nextRun := if on then ComputeNextRun(ticks, j.schedule, now) else None)
  }

  function SetEnabled(jobs: seq<Job>, id: string, on: bool, ticks: Ticks, now: int): seq<Job> {
    var i := Find(jobs, id);
    if i == |jobs| then jobs else jobs[i := Toggled(jobs[i], on, ticks, now)]
  }

  /** A job after a run, or nothing when it is to be deleted. */
  function AfterRun(j: Job, start: int, ok: bool, ticks: Ticks, now: int): Option<Job> {
    var ran := j.(lastRun := Some(start), lastOk := Some(ok));
    if j.schedule.At? then
      if j.deleteAfterRun then None else Some(ran.(enabled := false, nextRun := None))
    else Some(ran.(nextRun := ComputeNextRun(ticks, j.schedule, now)))
  }

  function Finished(jobs: seq<Job>, id: string, start: int, ok: bool, ticks: Ticks, now: int): seq<Job> {
    var i := Find(jobs, id);
    if i == |jobs| then jobs
    else
      match AfterRun(jobs[i], start, ok, ticks, now)
      case None => Removed(jobs, id)
      case Some(j) => jobs[i := j]
  }

  function NewJob(id: string, s: Schedule, ticks: Ticks, now: int): Job {
    Job(id, true, s, s.At?, ComputeNextRun(ticks, s, now), None, None)
  }

  // ------------------------------------------------- the same, in terms of what it means

  /** The next run of a schedule computed at `now`: a time still ahead, a period from now, or
      the tick the library gives; none where the schedule gives none. */
  predicate IsNextRun(ticks: Ticks, s: Schedule, now: int, next: Option<int>) {
    match s
    case At(at) => if at.Some? && now < at.value then next == at else next.None?
    case Every(every) => if every.Some? && 0 < every.value then next == Some(now + every.value) else next.None?
    case Expr(expr) => if expr != "" then next == ticks(expr, now) else next.None?
    case Unknown => next.None?
  }

  /** `i` is the first job with an id. */
  ghost predicate IsFirst(jobs: seq<Job>, id: string, i: nat) {
    i < |jobs| && jobs[i].id == id && forall k :: 0 <= k < i ==> jobs[k].id != id
  }

  ghost predicate NoneHas(jobs: seq<Job>, id: string) {
    forall j <- jobs :: j.id != id
  }

  /** Only the `i`-th job has changed. */
  ghost predicate OnlyOne(before: seq<Job>, after: seq<Job>, i: nat) {
    |before| == |after| && forall k :: 0 <= k < |before| && k != i ==> after[k] == before[k]
  }

  /** Exactly the jobs with an id are gone, and the others are in their order. */
  ghost predicate IsWithout(before: seq<Job>, after: seq<Job>, id: string) {
    && Subsequence(after, before)
    && forall j: Job :: multiset(after)[j] == if j.id == id then 0 else multiset(before)[j]
  }

  /** A job switched on or off. */
  predicate IsSwitched(j: Job, n: Job, on: bool, ticks: Ticks, now: int) {
    && n == j.(enabled := on, nextRun := n.nextRun)
    && (if on then IsNextRun(ticks, j.schedule, now, n.nextRun) else n.nextRun.None?)
  }

  /** A job that has run and stays: a one-shot job is off, another waits for its next run. */
  predicate HasRun(j: Job, n: Job, start: int, ok: bool, ticks: Ticks, now: int) {
    && n.lastRun == Some(start) && n.lastOk == Some(ok)
    && n == j.(lastRun := n.lastRun, lastOk := n.lastOk, enabled := n.enabled, nextRun := n.nextRun)
    && (if j.schedule.At? then !n.enabled && n.nextRun.None?
        else n.enabled == j.enabled && IsNextRun(ticks, j.schedule, now, n.nextRun))
  }

  lemma FoundIs(jobs: seq<Job>, id: string)
    ensures var i := Find(jobs, id); if i == |jobs| then NoneHas(jobs, id) else IsFirst(jobs, id, i)
  {
    FindIsFirst(jobs, id);
  }

  lemma {:induction false} RemovedIsInOrder(jobs: seq<Job>, id: string)
    ensures Subsequence(Removed(jobs, id), jobs)
    decreases |jobs|
  {
    if jobs != [] {
      var front, last := jobs[..|jobs| - 1], jobs[|jobs| - 1];
      RemovedIsInOrder(front, id);
      assert jobs == front + [last];
      if last.id != id {
        BothGrow(Removed(front, id), front, last);
      } else {
        assert Removed(jobs, id) == Removed(front, id);
      }
    }
  }

  lemma {:induction false} RemovedCounts(jobs: seq<Job>, id: string, j: Job)
    ensures multiset(Removed(jobs, id))[j] == if j.id == id then 0 else multiset(jobs)[j]
    decreases |jobs|
  {
    if jobs != [] {
      var front, last := jobs[..|jobs| - 1], jobs[|jobs| - 1];
      RemovedCounts(front, id, j);
      assert jobs == front + [last];
    }
  }

  lemma RemovedIs(jobs: seq<Job>, id: string)
    ensures IsWithout(jobs, Removed(jobs, id), id)
  {
    RemovedIsInOrder(jobs, id);
    forall j: Job ensures multiset(Removed(jobs, id))[j] == if j.id == id then 0 else multiset(jobs)[j] {
      RemovedCounts(jobs, id, j);
    }
  }

  lemma {:induction false} DueIdsAre(jobs: seq<Job>, now: int, id: string)
    ensures id in DueIds(jobs, now) <==>
            exists j <- jobs :: j.id == id && j.enabled && j.nextRun.Some? && j.nextRun.value <= now
    decreases |jobs|
  {
    if jobs != [] {
      var front, last := jobs[..|jobs| - 1], jobs[|jobs| - 1];
      DueIdsAre(front, now, id);
      assert last in jobs && (forall j <- front :: j in jobs) && (forall j <- jobs :: j in front || j == last);
    }
  }

  /** What a write-back makes of the jobs. */
  ghost predicate IsFinished(jobs: seq<Job>, after: seq<Job>, id: string, start: int, ok: bool,
                             ticks: Ticks, now: int) {
    && (NoneHas(jobs, id) ==> after == jobs)
    && forall i: nat :: IsFirst(jobs, id, i) ==>
         if jobs[i].schedule.At? && jobs[i].deleteAfterRun then IsWithout(jobs, after, id)
         else OnlyOne(jobs, after, i) && HasRun(jobs[i], after[i], start, ok, ticks, now)
  }

  lemma FinishedIs(jobs: seq<Job>, id: string, start: int, ok: bool, ticks: Ticks, now: int)
    ensures IsFinished(jobs, Finished(jobs, id, start, ok, ticks, now), id, start, ok, ticks, now)
  {
    FoundIs(jobs, id);
    RemovedIs(jobs, id);
    var i := Find(jobs, id);
    assert i < |jobs| ==> jobs[i] in jobs;
    forall k: nat | IsFirst(jobs, id, k) ensures k == i {
      assert jobs[k] in jobs;
    }
  }

  lemma {:induction false} RemovedShrinks(jobs: seq<Job>, id: string)
    ensures |Removed(jobs, id)| <= |jobs| && (|Removed(jobs, id)| == |jobs| <==> NoneHas(jobs, id))
    decreases |jobs|
  {
    if jobs != [] {
      var front, last := jobs[..|jobs| - 1], jobs[|jobs| - 1];
      RemovedShrinks(front, id);
      assert last in jobs && (forall j <- front :: j in jobs) && (forall j <- jobs :: j in front || j == last);
    }
  }

  // ------------------------------------------------------------------ the class

  /** The store under its lock. `saved` is the file; saving succeeds. */
  class CronService {
    var jobs: seq<Job>
    var saved: seq<Job>
    var running: bool
    const ticks: Ticks

    constructor (ticks: Ticks, saved: seq<Job>)
      ensures this.ticks == ticks && this.saved == saved && jobs == saved && !running
    {
      this.ticks := ticks;
      this.saved := saved;
      jobs, running := saved, false;
    }

    method Start(now: int)
      modifies this
      ensures running
      ensures !old(running) ==> jobs == Recomputed(old(saved), ticks, now) && saved == jobs
      ensures !old(running) ==> |jobs| == |old(saved)| && forall k :: 0 <= k < |jobs| ==>
        if old(saved)[k].enabled then IsSwitched(old(saved)[k], jobs[k], true, ticks, now) else jobs[k] == old(saved)[k]
      ensures old(running) ==> jobs == old(jobs) && saved == old(saved)
    {
      if running {
        return;
      }
      jobs := saved;
      RecomputeNextRuns(now);
      saved := jobs;
      running := true;
    }

    method RecomputeNextRuns(now: int)
      modifies this`jobs
      ensures jobs == Recomputed(old(jobs), ticks, now)
      ensures |jobs| == |old(jobs)| && forall k :: 0 <= k < |jobs| ==>
        if old(jobs)[k].enabled then IsSwitched(old(jobs)[k], jobs[k], true, ticks, now) else jobs[k] == old(jobs)[k]
    {
      for i := 0 to |jobs|
        invariant |jobs| == |old(jobs)|
        invariant forall k :: 0 <= k < i ==> jobs[k] == Refresh(ticks, now)(old(jobs)[k])
        invariant forall k :: i <= k < |jobs| ==> jobs[k] == old(jobs)[k]
      {
        if jobs[i].enabled {
          jobs := jobs[i := jobs[i].(nextRun := ComputeNextRun(ticks, jobs[i].schedule, now))];
        }
      }
    }

    method Stop()
      modifies this`running
      ensures !running
    {
      running := false;
    }

    method Load()
      modifies this`jobs
      ensures jobs == saved
    {
      jobs := saved;
    }

    /** The locked part of a tick: which jobs are due, claimed by clearing their next run. */
    method CheckJobs(now: int) returns (due: seq<string>)
      modifies this`jobs, this`saved
      ensures !running ==> due == [] && jobs == old(jobs) && saved == old(saved)
      ensures running ==> due == DueIds(old(jobs), now) && jobs == Claimed(old(jobs), now) && saved == jobs
      ensures running ==> |jobs| == |old(jobs)| && forall k :: 0 <= k < |jobs| ==>
        if old(jobs)[k].id in due then jobs[k] == old(jobs)[k].(nextRun := None) else jobs[k] == old(jobs)[k]
      ensures running ==> forall id :: id in due <==> exists j <- old(jobs) ::
        j.id == id && j.enabled && j.nextRun.Some? && j.nextRun.value <= now
    {
      due := [];
      if !running {
        return;
      }
      for i := 0 to |jobs|
        invariant jobs == old(jobs) && saved == old(saved)
        invariant due == DueIds(jobs[..i], now)
      {
        assert jobs[..i + 1][..i] == jobs[..i];
        if jobs[i].enabled && jobs[i].nextRun.Some? && jobs[i].nextRun.value <= now {
          due := due + [jobs[i].id];
        }
      }
      assert jobs[..|jobs|] == jobs;
      forall id ensures id in due <==> exists j <- jobs ::
        j.id == id && j.enabled && j.nextRun.Some? && j.nextRun.value <= now
      {
        DueIdsAre(jobs, now, id);
      }
      for i := 0 to |jobs|
        invariant |jobs| == |old(jobs)|
        invariant forall k :: 0 <= k < i ==> jobs[k] == Unclaim(due)(old(jobs)[k])
        invariant forall k :: i <= k < |jobs| ==> jobs[k] == old(jobs)[k]
      {
        if jobs[i].id in due {
          jobs := jobs[i := jobs[i].(nextRun := None)];
        }
      }
      saved := jobs;
    }

    method IndexOf(id: string) returns (i: nat)
      ensures i == Find(jobs, id)
    {
      i := 0;
      while i < |jobs| && jobs[i].id != id
        invariant i <= |jobs| && Find(jobs, id) == i + Find(jobs[i..], id)
      {
        i := i + 1;
      }
    }

    /** The locked write-back after a job ran. */
    method FinishJob(id: string, start: int, ok: bool, now: int)
      modifies this`jobs, this`saved
      ensures jobs == Finished(old(jobs), id, start, ok, ticks, now)
      ensures saved == if Find(old(jobs), id) == |old(jobs)| then old(saved) else jobs
      ensures IsFinished(old(jobs), jobs, id, start, ok, ticks, now)
    {
      FinishedIs(jobs, id, start, ok, ticks, now);
      var i := IndexOf(id);
      if i == |jobs| {
        return;
      }
      var job := jobs[i].(lastRun := Some(start), lastOk := Some(ok));
      if job.schedule.At? {
        if job.deleteAfterRun {
          var removed := RemoveJob(id);
        } else {
          jobs := jobs[i := job.(enabled := false, nextRun := None)];
        }
      } else {
        jobs := jobs[i := job.(nextRun := ComputeNextRun(ticks, job.schedule, now))];
      }
      saved := jobs;
    }

    method RemoveJob(id: string) returns (removed: bool)
      modifies this`jobs, this`saved
      ensures jobs == Removed(old(jobs), id) && (removed <==> |jobs| < |old(jobs)|)
      ensures saved == if removed then jobs else old(saved)
      ensures IsWithout(old(jobs), jobs, id) && (removed <==> !NoneHas(old(jobs), id))
    {
      var before := jobs;
      var kept := [];
      for i := 0 to |before|
        invariant kept == Removed(before[..i], id)
      {
        assert before[..i + 1][..i] == before[..i];
        if before[i].id != id {
          kept := kept + [before[i]];
        }
      }
      assert before[..|before|] == before;
      RemovedIs(before, id);
      RemovedShrinks(before, id);
      jobs := kept;
      removed := |jobs| < |before|;
      if removed {
        saved := jobs;
      }
    }

    method EnableJob(id: string, on: bool, now: int) returns (found: bool)
      modifies this`jobs, this`saved
      ensures jobs == SetEnabled(old(jobs), id, on, ticks, now)
      ensures found <==> Find(old(jobs), id) < |old(jobs)|
      ensures saved == if found then jobs else old(saved)
      ensures found <==> !NoneHas(old(jobs), id)
      ensures !found ==> jobs == old(jobs)
      ensures forall i: nat :: IsFirst(old(jobs), id, i) ==>
        OnlyOne(old(jobs), jobs, i) && IsSwitched(old(jobs)[i], jobs[i], on, ticks, now)
    {
      FoundIs(jobs, id);
      var i := IndexOf(id);
      if i == |jobs| {
        return false;
      }
      var job := jobs[i].(enabled := on);
      if on {
        job := job.(nextRun := ComputeNextRun(ticks, job.schedule, now));
      } else {
        job := job.(nextRun := None);
      }
      jobs := jobs[i := job];
      saved := jobs;
      return true;
    }

    method AddJob(id: string, s: Schedule, now: int) returns (job: Job)
      modifies this`jobs, this`saved
      ensures job == NewJob(id, s, ticks, now) && jobs == old(jobs) + [job] && saved == jobs
      ensures job == Job(id, true, s, s.At?, job.nextRun, None, None) && IsNextRun(ticks, s, now, job.nextRun)
    {
      job := Job(id, true, s, s.At?, ComputeNextRun(ticks, s, now), None, None);
      jobs := jobs + [job];
      saved := jobs;
    }
  }
}
