/**
 The worker's scheduler (apps/worker/src/schedule.ts), one tick at a time with no other tick
 beside it: which jobs a tick runs, over which tenants, and what a failing job changes.
 SchedulerRaces has the ticks that overlap.
 */
module Scheduler {
  import opened Options

  datatype Scope = PerTenant | Global

  datatype Job = Job(name: string, everySeconds: nat, scope: Scope, retention: bool)

  datatype JobRun = JobRun(job: string, tenant: string, ok: bool)

  /**
   What a tick meets outside: its clock at the start, the tenant list each job is given (None
   when it cannot be read), which bodies throw, when each job's slot is given back, and whether
   there is a connection that may delete.
   */
  datatype World = World(
    now: int,
    tenants: string -> Option<seq<string>>,
    throws: (string, string) -> bool,
    finished: string -> int,
    hasRetention: bool)

  type Times = map<string, int>

  predicate DistinctNames(jobs: seq<Job>) {
    forall i, j | 0 <= i < j < |jobs| :: jobs[i].name != jobs[j].name
  }

  // ---------- What a tick should do ----------

  /** The tenants a job is run over; a list that cannot be read is empty. */
  function TenantsOf(job: Job, w: World): seq<string> {
    match w.tenants(job.name)
    case None => []
    case Some(list) =>
      if job.scope.PerTenant? then list
      else if list == [] || list[0] == "" then []
      else [list[0]]
  }

  predicate Succeeds(job: Job, tenant: string, w: World) {
    (job.retention ==> w.hasRetention) && !w.throws(job.name, tenant)
  }

  function RunsOver(job: Job, tenants: seq<string>, w: World): (runs: seq<JobRun>)
    ensures |runs| == |tenants|
    ensures forall i | 0 <= i < |tenants| :: runs[i] == JobRun(job.name, tenants[i], Succeeds(job, tenants[i], w))
  {
    if tenants == [] then []
    else [JobRun(job.name, tenants[0], Succeeds(job, tenants[0], w))] + RunsOver(job, tenants[1..], w)
  }

  function DueTime(times: Times, name: string): int {
    if name in times then times[name] else 0
  }

  /** Due by its time, and no earlier run of it still going. */
  predicate Due(job: Job, times: Times, running: set<string>, now: int) {
    DueTime(times, job.name) <= now && job.name !in running
  }

  /** The jobs that are due when the tick starts, in order, each over its tenants. */
  function ExpectedRuns(jobs: seq<Job>, times: Times, running: set<string>, w: World): seq<JobRun> {
    if jobs == [] then []
    else
      var last := |jobs| - 1;
      ExpectedRuns(jobs[..last], times, running, w)
      + if Due(jobs[last], times, running, w.now) then RunsOver(jobs[last], TenantsOf(jobs[last], w), w) else []
  }

  /** Every job that is due when the tick starts is rescheduled from the instant its slot was given back. */
  function Rescheduled(jobs: seq<Job>, times: Times, running: set<string>, w: World): Times {
    if jobs == [] then times
    else
      var last := |jobs| - 1;
      var before := Rescheduled(jobs[..last], times, running, w);
      if Due(jobs[last], times, running, w.now)
      then before[jobs[last].name := w.finished(jobs[last].name) + jobs[last].everySeconds * 1000]
      else before
  }

  ghost predicate SameAt(a: Times, b: Times, name: string) {
    (name in a <==> name in b) && (name in a ==> a[name] == b[name])
  }

  ghost predicate Names(jobs: seq<Job>, name: string) {
    exists k :: 0 <= k < |jobs| && jobs[k].name == name
  }

  lemma {:induction false} OthersKeepTheirTime(jobs: seq<Job>, times: Times, running: set<string>,
                                               w: World, name: string)
    requires !Names(jobs, name)
    ensures SameAt(Rescheduled(jobs, times, running, w), times, name)
  {
    if jobs != [] {
      var last := |jobs| - 1;
      assert jobs[last].name != name;
      assert !Names(jobs[..last], name) by {
        assert forall k | 0 <= k < last :: jobs[..last][k] == jobs[k];
      }
      OthersKeepTheirTime(jobs[..last], times, running, w, name);
    }
  }

  /** A due job waits its whole interval from the instant it finished; every other time stays. */
  lemma {:induction false} JobsAreRescheduled(jobs: seq<Job>, times: Times, running: set<string>, w: World, k: nat)
    requires DistinctNames(jobs) && k < |jobs|
    ensures Due(jobs[k], times, running, w.now) ==>
              var after := Rescheduled(jobs, times, running, w);
              jobs[k].name in after
              && after[jobs[k].name] == w.finished(jobs[k].name) + jobs[k].everySeconds * 1000
    ensures !Due(jobs[k], times, running, w.now) ==>
              SameAt(Rescheduled(jobs, times, running, w), times, jobs[k].name)
  {
    var last := |jobs| - 1;
    if k < last {
      assert jobs[last].name != jobs[k].name;
      JobsAreRescheduled(jobs[..last], times, running, w, k);
    } else {
      FreshName(jobs, last);
      OthersKeepTheirTime(jobs[..last], times, running, w, jobs[k].name);
    }
  }

  lemma FreshName(jobs: seq<Job>, i: nat)
    requires DistinctNames(jobs) && i < |jobs|
    ensures !Names(jobs[..i], jobs[i].name)
  {
    forall k | 0 <= k < i
      ensures jobs[..i][k].name != jobs[i].name
    {
      assert jobs[..i][k] == jobs[k];
    }
  }

  // ---------- The tick as the program runs it ----------

  class Scheduler {
    const jobs: seq<Job>
    var dueAt: Times
    var running: set<string>
    var stopped: bool

    /** Everything is due at startup. */
    constructor (jobs: seq<Job>, now: int)
      ensures this.jobs == jobs && running == {} && !stopped
      ensures forall name :: name in dueAt <==> Names(jobs, name)
      ensures forall name | name in dueAt :: dueAt[name] == now
    {
      this.jobs := jobs;
      dueAt := map[];
      running, stopped := {}, false;
      new;
      for i := 0 to |jobs|
        invariant this.jobs == jobs && running == {} && !stopped
        invariant forall name :: name in dueAt <==> Names(jobs[..i], name)
        invariant forall name | name in dueAt :: dueAt[name] == now
      {
        dueAt := dueAt[jobs[i].name := now];
        forall name
          ensures Names(jobs[..i + 1], name) <==> name == jobs[i].name || Names(jobs[..i], name)
        {
          NamesGrow(jobs, i, name);
        }
      }
      assert jobs[..|jobs|] == jobs;
    }

    method Tick(w: World) returns (runs: seq<JobRun>)
      requires DistinctNames(jobs)
      modifies this
      ensures running == old(running) && stopped == old(stopped)
      ensures stopped ==> runs == [] && dueAt == old(dueAt)
      ensures !stopped ==>
                && runs == ExpectedRuns(jobs, old(dueAt), running, w)
                && dueAt == Rescheduled(jobs, old(dueAt), running, w)
    {
      runs := [];
      assert jobs[..0] == [];
      assert ExpectedRuns(jobs[..0], dueAt, running, w) == [] && Rescheduled(jobs[..0], dueAt, running, w) == dueAt;
      hide ExpectedRuns, Rescheduled, RunsOver, TenantsOf, Succeeds, DistinctNames;
      for i := 0 to |jobs|
        invariant running == old(running) && stopped == old(stopped)
        invariant stopped ==> runs == [] && dueAt == old(dueAt)
        invariant !stopped ==> runs == ExpectedRuns(jobs[..i], old(dueAt), running, w)
        invariant !stopped ==> dueAt == Rescheduled(jobs[..i], old(dueAt), running, w)
      {
        if stopped {
          break;
        }
        var job := jobs[i];
        OneMore(jobs, i, old(dueAt), running, w);
        if (if job.name in dueAt then dueAt[job.name] else 0) > w.now {
          continue;
        }
        if job.name in running {
          continue;
        }
        running := running + {job.name};
        var ran := RunJob(job, w);
        runs := runs + ran;
        running := running - {job.name};
        dueAt := dueAt[job.name := w.finished(job.name) + job.everySeconds * 1000];
      }
      assert jobs[..|jobs|] == jobs;
    }

    method RunJob(job: Job, w: World) returns (runs: seq<JobRun>)
      ensures !stopped || job.scope.Global? ==> runs == RunsOver(job, TenantsOf(job, w), w)
      ensures stopped && job.scope.PerTenant? ==> runs == []
    {
      var list := Tenants(job, w);
      if job.scope == Global {
        if list == [] || list[0] == "" {
          return [];
        }
        var run := RunOnce(job, list[0], w);
        return [run];
      }
      runs := [];
      for i := 0 to |list|
        invariant runs == if stopped then [] else RunsOver(job, list[..i], w)
      {
        if stopped {
          break;
        }
        var run := RunOnce(job, list[i], w);
        runs := runs + [run];
        assert forall k | 0 <= k < i + 1 :: runs[k] == JobRun(job.name, list[k], Succeeds(job, list[k], w));
      }
      assert list[..|list|] == list;
    }

    method RunOnce(job: Job, tenant: string, w: World) returns (run: JobRun)
      ensures run == JobRun(job.name, tenant, Succeeds(job, tenant, w))
    {
      if job.retention && !w.hasRetention {
        return JobRun(job.name, tenant, false);
      }
      if w.throws(job.name, tenant) {
        return JobRun(job.name, tenant, false);
      }
      return JobRun(job.name, tenant, true);
    }

    method Tenants(job: Job, w: World) returns (list: seq<string>)
      ensures w.tenants(job.name) == Some(list) || (w.tenants(job.name) == None && list == [])
    {
      match w.tenants(job.name)
      case None => list := [];
      case Some(read) => list := read;
    }
  }

  lemma NamesGrow(jobs: seq<Job>, i: nat, name: string)
    requires i < |jobs|
    ensures Names(jobs[..i + 1], name) <==> name == jobs[i].name || Names(jobs[..i], name)
  {
    var shorter, longer := jobs[..i], jobs[..i + 1];
    assert longer[i] == jobs[i] && forall k | 0 <= k < i :: longer[k] == shorter[k];
  }

  /** The next job is judged by the time it had when the tick started: no earlier job shares its name. */
  lemma OneMore(jobs: seq<Job>, i: nat, times: Times, running: set<string>, w: World)
    requires DistinctNames(jobs) && i < |jobs|
    ensures SameAt(Rescheduled(jobs[..i], times, running, w), times, jobs[i].name)
    ensures ExpectedRuns(jobs[..i + 1], times, running, w)
            == ExpectedRuns(jobs[..i], times, running, w)
               + if Due(jobs[i], times, running, w.now) then RunsOver(jobs[i], TenantsOf(jobs[i], w), w) else []
    ensures Rescheduled(jobs[..i + 1], times, running, w)
            == var before := Rescheduled(jobs[..i], times, running, w);
               if Due(jobs[i], times, running, w.now)
               then before[jobs[i].name := w.finished(jobs[i].name) + jobs[i].everySeconds * 1000]
               else before
  {
    hide RunsOver, TenantsOf;
    FreshName(jobs, i);
    OthersKeepTheirTime(jobs[..i], times, running, w, jobs[i].name);
    assert jobs[..i + 1][..i] == jobs[..i];
  }

  // ---------- One bad job does not stop the others ----------

  /** What ran, without how it went. */
  function Attempts(runs: seq<JobRun>): (r: seq<(string, string)>)
    ensures |r| == |runs| && forall i | 0 <= i < |runs| :: r[i] == (runs[i].job, runs[i].tenant)
  {
    if runs == [] then [] else [(runs[0].job, runs[0].tenant)] + Attempts(runs[1..])
  }

  ghost predicate SameButFailures(w: World, w': World) {
    w.now == w'.now && w.tenants == w'.tenants && w.finished == w'.finished
  }

  /**
   Whatever throws, and with or without the deleting connection, a tick attempts the same jobs
   over the same tenants in the same order.
   */
  lemma {:induction false} FailuresAreIsolated(jobs: seq<Job>, times: Times, running: set<string>, w: World, w': World)
    requires SameButFailures(w, w')
    ensures Attempts(ExpectedRuns(jobs, times, running, w)) == Attempts(ExpectedRuns(jobs, times, running, w'))
  {
    hide RunsOver, Succeeds, Due;
    if jobs != [] {
      var last := |jobs| - 1;
      FailuresAreIsolated(jobs[..last], times, running, w, w');
      var a, a' := ExpectedRuns(jobs[..last], times, running, w), ExpectedRuns(jobs[..last], times, running, w');
      var r, r' := RunsOver(jobs[last], TenantsOf(jobs[last], w), w),
                   RunsOver(jobs[last], TenantsOf(jobs[last], w'), w');
      if Due(jobs[last], times, running, w.now) {
        assert Attempts(r) == Attempts(r');
        AttemptsConcat(a, r);
        AttemptsConcat(a', r');
      }
    }
  }

  lemma AttemptsConcat(a: seq<JobRun>, b: seq<JobRun>)
    ensures Attempts(a + b) == Attempts(a) + Attempts(b)
  {
  }

  /**
   A run that should be: of a job that is due and not running, over one of its tenants, or the
   first for a global one if it has a name, and ok unless its body threw or there was nobody to delete.
   */
  predicate Explains(job: Job, run: JobRun, times: Times, running: set<string>, w: World) {
    && (job.name in times ==> times[job.name] <= w.now) && (job.name !in times ==> 0 <= w.now)
    && job.name !in running
    && run.job == job.name
    && match w.tenants(job.name)
       case None => false
       case Some(list) =>
         && (if job.scope.PerTenant? then run.tenant in list
             else list != [] && run.tenant == list[0] && run.tenant != "")
         && (run.ok <==> !w.throws(job.name, run.tenant) && (!job.retention || w.hasRetention))
  }

  /**
   The runs are exactly the due jobs over their tenants, and a run is not ok exactly when its
   body threw or the job needed the deleting connection and there was none.
   */
  lemma {:induction false} RunsExactly(jobs: seq<Job>, times: Times, running: set<string>, w: World, run: JobRun)
    ensures run in ExpectedRuns(jobs, times, running, w) <==>
            exists k :: 0 <= k < |jobs| && Explains(jobs[k], run, times, running, w)
  {
    hide RunsOver, Explains;
    if jobs != [] {
      var last := |jobs| - 1;
      RunsExactly(jobs[..last], times, running, w, run);
      RunsOfOne(jobs[last], times, running, w, run);
      assert forall k | 0 <= k < last :: jobs[..last][k] == jobs[k];
    }
  }

  lemma {:induction false} EarlierRunsComeFirst(jobs: seq<Job>, times: Times, running: set<string>, w: World, k: nat)
    requires k <= |jobs|
    ensures ExpectedRuns(jobs[..k], times, running, w) <= ExpectedRuns(jobs, times, running, w)
  {
    hide TenantsOf, RunsOver, Due;
    var last := |jobs| - 1;
    if k <= last {
      EarlierRunsComeFirst(jobs[..last], times, running, w, k);
      assert jobs[..last][..k] == jobs[..k];
    } else {
      assert jobs[..k] == jobs;
    }
  }

  /**
   In job order: after the runs of the jobs before it come a due job's own, one a tenant in the
   list's order, and then those of the jobs after it; a job that is not due adds none.
   */
  lemma RunsAreInJobOrder(jobs: seq<Job>, times: Times, running: set<string>, w: World, k: nat)
    requires k < |jobs|
    ensures var before, all := ExpectedRuns(jobs[..k], times, running, w), ExpectedRuns(jobs, times, running, w);
            if Due(jobs[k], times, running, w.now) then
              var tenants := TenantsOf(jobs[k], w);
              && before <= all && |before| + |tenants| <= |all|
              && forall i | 0 <= i < |tenants| ::
                   all[|before| + i] == JobRun(jobs[k].name, tenants[i], Succeeds(jobs[k], tenants[i], w))
            else
              before <= all && before == ExpectedRuns(jobs[..k + 1], times, running, w)
  {
    hide ExpectedRuns, RunsOver, TenantsOf, Succeeds, Due;
    BlockOfJob(jobs, times, running, w, k);
    EarlierRunsComeFirst(jobs, times, running, w, k);
    EarlierRunsComeFirst(jobs, times, running, w, k + 1);
    if Due(jobs[k], times, running, w.now) {
      Placed(ExpectedRuns(jobs[..k], times, running, w), RunsOver(jobs[k], TenantsOf(jobs[k], w), w),
             ExpectedRuns(jobs, times, running, w));
    }
  }

  lemma BlockOfJob(jobs: seq<Job>, times: Times, running: set<string>, w: World, k: nat)
    requires k < |jobs|
    ensures var before := ExpectedRuns(jobs[..k], times, running, w);
            ExpectedRuns(jobs[..k + 1], times, running, w) ==
            if Due(jobs[k], times, running, w.now) then before + RunsOver(jobs[k], TenantsOf(jobs[k], w), w) else before
  {
    hide TenantsOf, RunsOver, Due;
    assert jobs[..k + 1][..k] == jobs[..k] && jobs[..k + 1][k] == jobs[k];
  }

  lemma Placed(before: seq<JobRun>, mine: seq<JobRun>, all: seq<JobRun>)
    requires before + mine <= all
    ensures |before| + |mine| <= |all| && forall i | 0 <= i < |mine| :: all[|before| + i] == mine[i]
  {
    forall i | 0 <= i < |mine|
      ensures all[|before| + i] == mine[i]
    {
      assert (before + mine)[|before| + i] == mine[i];
    }
  }

  lemma RunsOfOne(job: Job, times: Times, running: set<string>, w: World, run: JobRun)
    ensures Due(job, times, running, w.now) && run in RunsOver(job, TenantsOf(job, w), w)
            <==> Explains(job, run, times, running, w)
  {
    RunsOverExactly(job, TenantsOf(job, w), w, run);
    hide RunsOver;
  }

  lemma RunsOverExactly(job: Job, tenants: seq<string>, w: World, run: JobRun)
    ensures run in RunsOver(job, tenants, w) <==>
            run.job == job.name && run.tenant in tenants && run.ok == Succeeds(job, run.tenant, w)
  {
    hide Succeeds;
    var mine := RunsOver(job, tenants, w);
    if run in mine {
      var i :| 0 <= i < |mine| && mine[i] == run;
      assert tenants[i] in tenants;
    }
    if run.job == job.name && run.tenant in tenants && run.ok == Succeeds(job, run.tenant, w) {
      var i :| 0 <= i < |tenants| && tenants[i] == run.tenant;
      assert mine[i] == run;
    }
  }
}
