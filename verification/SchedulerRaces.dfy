/**
 The worker's scheduler with ticks that overlap (apps/worker/src/schedule.ts).  A step is a
 stretch of code between two awaits; any number of ticks, from timers or from callers, are in
 flight at once, and stop may be called at any point.
 */
module SchedulerRaces {
  datatype Job = Job(everySeconds: nat, global: bool)

  /** Where one tick stands: looking at job j, or holding its slot in one of four ways, or done. */
  datatype Phase =
    | Scan(now: int, j: nat)
    | Listing(now: int, j: nat)
    | Walk(now: int, j: nat, tenants: seq<string>, i: nat)
    | InBody(now: int, j: nat, tenants: seq<string>, i: nat)
    | Leaving(now: int, j: nat)
    | Over

  /** What happened to the jobs' slots: a history the program does not keep. */
  datatype Event = Took(j: nat, at: int) | Gave(j: nat, at: int)

  datatype State = State(
    clock: int,
    dueAt: seq<int>,
    running: set<nat>,
    stopped: bool,
    resolved: bool,
    ticks: seq<Phase>,
    log: seq<Event>)

  datatype Step =
    | Advance(elapsed: nat)
    | StartTick
    | Consider(t: nat)
    | List(t: nat, tenants: seq<string>)
    | Enter(t: nat)
    | EndBody(t: nat)
    | Finish(t: nat)
    | Stop
    | StopResolves

  predicate Enabled(s: State, st: Step) {
    match st
    case Advance(_) => true
    case StartTick => true
    case Consider(t) => t < |s.ticks| && s.ticks[t].Scan?
    case List(t, _) => t < |s.ticks| && s.ticks[t].Listing?
    case Enter(t) => t < |s.ticks| && s.ticks[t].Walk?
    case EndBody(t) => t < |s.ticks| && s.ticks[t].InBody?
    case Finish(t) => t < |s.ticks| && s.ticks[t].Leaving?
    case Stop => true
    case StopResolves => s.stopped && s.running == {}
  }

  /** The loop over the tenants, or the first one alone for a global job. */
  function AfterWalk(p: Phase, job: Job, stopped: bool): Phase
    requires p.Walk?
  {
    if job.global then
      if p.i == 0 && p.tenants != [] && p.tenants[0] != "" then InBody(p.now, p.j, p.tenants, 0)
      else Leaving(p.now, p.j)
    else
      if stopped || |p.tenants| <= p.i then Leaving(p.now, p.j) else InBody(p.now, p.j, p.tenants, p.i)
  }

  function Next(jobs: seq<Job>, s: State, st: Step): State
    requires Enabled(s, st) && Sized(jobs, s)
  {
    match st
    case Advance(elapsed) => s.(clock := s.clock + elapsed)
    case StartTick => s.(ticks := s.ticks + [Scan(s.clock, 0)])
    case Consider(t) =>
      var p := s.ticks[t];
      if |jobs| <= p.j || s.stopped then s.(ticks := s.ticks[t := Over])
      else if s.dueAt[p.j] > p.now || p.j in s.running then s.(ticks := s.ticks[t := Scan(p.now, p.j + 1)])
      else s.(running := s.running + {p.j}, ticks := s.ticks[t := Listing(p.now, p.j)],
              log := s.log + [Took(p.j, s.clock)])
    case List(t, tenants) =>
      s.(ticks := s.ticks[t := Walk(s.ticks[t].now, s.ticks[t].j, tenants, 0)])
    case Enter(t) =>
      s.(ticks := s.ticks[t := AfterWalk(s.ticks[t], jobs[s.ticks[t].j], s.stopped)])
    case EndBody(t) =>
      var p := s.ticks[t];
      s.(ticks := s.ticks[t := Walk(p.now, p.j, p.tenants, p.i + 1)])
    case Finish(t) =>
      var p := s.ticks[t];
      s.(running := s.running - {p.j}, dueAt := s.dueAt[p.j := s.clock + jobs[p.j].everySeconds * 1000],
         ticks := s.ticks[t := Scan(p.now, p.j + 1)], log := s.log + [Gave(p.j, s.clock)])
    case Stop => s.(stopped := true)
    case StopResolves => s.(resolved := true)
  }

  predicate Holds(p: Phase) {
    p.Listing? || p.Walk? || p.InBody? || p.Leaving?
  }

  predicate Sized(jobs: seq<Job>, s: State) {
    |s.dueAt| == |jobs| && forall t | 0 <= t < |s.ticks| && Holds(s.ticks[t]) :: s.ticks[t].j < |jobs|
  }

  predicate Initial(jobs: seq<Job>, s: State) {
    && |s.dueAt| == |jobs| && (forall j | 0 <= j < |jobs| :: s.dueAt[j] == s.clock)
    && s.running == {} && !s.stopped && !s.resolved && s.ticks == [] && s.log == []
  }

  datatype Run = Run(states: seq<State>, steps: seq<Step>)

  ghost predicate Steps(jobs: seq<Job>, run: Run, n: nat)
    requires n < |run.steps| && |run.states| == |run.steps| + 1
  {
    && Sized(jobs, run.states[n])
    && Enabled(run.states[n], run.steps[n])
    && run.states[n + 1] == Next(jobs, run.states[n], run.steps[n])
  }

  ghost predicate IsRun(jobs: seq<Job>, run: Run) {
    && |run.states| == |run.steps| + 1
    && Initial(jobs, run.states[0])
    && forall n | 0 <= n < |run.steps| :: Steps(jobs, run, n)
  }

  // ---------- One tick to a slot ----------

  /** The slots in `running` are exactly the ones ticks hold, each held by one. */
  ghost predicate SlotsGood(s: State) {
    && HoldersListed(s)
    && HoldersDiffer(s)
    && (forall j | j in s.running :: Held(s, j))
  }

  predicate HoldersListed(s: State) {
    forall t | 0 <= t < |s.ticks| && Holds(s.ticks[t]) :: s.ticks[t].j in s.running
  }

  predicate HoldersDiffer(s: State) {
    forall t, u | 0 <= t < u < |s.ticks| && Holds(s.ticks[t]) && Holds(s.ticks[u]) :: s.ticks[t].j != s.ticks[u].j
  }

  ghost predicate Held(s: State, j: nat) {
    exists t :: 0 <= t < |s.ticks| && Holds(s.ticks[t]) && s.ticks[t].j == j
  }

  lemma StepKeepsListed(jobs: seq<Job>, s: State, st: Step)
    requires Sized(jobs, s) && HoldersListed(s) && HoldersDiffer(s) && Enabled(s, st)
    ensures var s' := Next(jobs, s, st); Sized(jobs, s') && HoldersListed(s')
  {
  }

  lemma StepKeepsDiffer(jobs: seq<Job>, s: State, st: Step)
    requires Sized(jobs, s) && HoldersListed(s) && HoldersDiffer(s) && Enabled(s, st)
    ensures HoldersDiffer(Next(jobs, s, st))
  {
    var s' := Next(jobs, s, st);
    forall t, u | 0 <= t < u < |s'.ticks| && Holds(s'.ticks[t]) && Holds(s'.ticks[u])
      ensures s'.ticks[t].j != s'.ticks[u].j
    {
      if Holds(s.ticks[t]) && u < |s.ticks| && Holds(s.ticks[u]) {
        assert s'.ticks[t].j == s.ticks[t].j && s'.ticks[u].j == s.ticks[u].j;
      }
    }
  }

  lemma StepKeepsHeld(jobs: seq<Job>, s: State, st: Step, j: nat)
    requires Sized(jobs, s) && (j in s.running ==> Held(s, j)) && Enabled(s, st)
    requires j in Next(jobs, s, st).running
    ensures Held(Next(jobs, s, st), j)
  {
    var s' := Next(jobs, s, st);
    if j in s.running {
      var t :| 0 <= t < |s.ticks| && Holds(s.ticks[t]) && s.ticks[t].j == j;
      assert Holds(s'.ticks[t]) && s'.ticks[t].j == j;
    } else {
      assert Holds(s'.ticks[st.t]) && s'.ticks[st.t].j == j;
    }
  }

  lemma StepKeepsSlots(jobs: seq<Job>, s: State, st: Step)
    requires Sized(jobs, s) && SlotsGood(s) && Enabled(s, st)
    ensures Sized(jobs, Next(jobs, s, st)) && SlotsGood(Next(jobs, s, st))
  {
    hide Next, Enabled, Held, HoldersListed, HoldersDiffer, Sized;
    StepKeepsListed(jobs, s, st);
    StepKeepsDiffer(jobs, s, st);
    forall j | j in Next(jobs, s, st).running
      ensures Held(Next(jobs, s, st), j)
    {
      StepKeepsHeld(jobs, s, st, j);
    }
  }

  // ---------- Spacing ----------

  /** Whether job j's slot is taken after these events. */
  predicate Open(log: seq<Event>, j: nat) {
    log != [] &&
    var last := |log| - 1;
    if log[last].j == j then log[last].Took? else Open(log[..last], j)
  }

  /** A slot is taken only when it is free and given back only when it is taken. */
  predicate Alternates(log: seq<Event>) {
    log == [] ||
    var last := |log| - 1;
    Alternates(log[..last]) && (log[last].Took? <==> !Open(log[..last], log[last].j))
  }

  /** A job is taken up no earlier than its whole interval after it was last given back. */
  ghost predicate Spaced(jobs: seq<Job>, log: seq<Event>) {
    forall i, k | 0 <= i < k < |log| && log[i].Gave? && log[k].Took? && log[k].j == log[i].j ::
      log[i].j < |jobs| && log[i].at + jobs[log[i].j].everySeconds * 1000 <= log[k].at
  }

  ghost predicate TimesGood(jobs: seq<Job>, s: State)
    requires |s.dueAt| == |jobs|
  {
    && (forall t | 0 <= t < |s.ticks| && !s.ticks[t].Over? :: s.ticks[t].now <= s.clock)
    && (forall i | 0 <= i < |s.log| && s.log[i].Gave? ::
          s.log[i].j < |jobs| && s.log[i].at <= s.clock
          && s.log[i].at + jobs[s.log[i].j].everySeconds * 1000 <= s.dueAt[s.log[i].j])
    && Spaced(jobs, s.log)
  }

  lemma StepKeepsTimes(jobs: seq<Job>, s: State, st: Step)
    requires Sized(jobs, s) && TimesGood(jobs, s) && Enabled(s, st)
    ensures TimesGood(jobs, Next(jobs, s, st))
  {
    var s' := Next(jobs, s, st);
    if s'.log == s.log {
      assert s'.dueAt == s.dueAt && s.clock <= s'.clock;
    } else if st.Consider? {
      TakingKeepsTimes(jobs, s, st.t);
    } else {
      GivingKeepsTimes(jobs, s, st.t);
    }
  }

  lemma TakingKeepsTimes(jobs: seq<Job>, s: State, t: nat)
    requires Sized(jobs, s) && TimesGood(jobs, s) && Enabled(s, Consider(t))
    ensures TimesGood(jobs, Next(jobs, s, Consider(t)))
  {
  }

  lemma GivingKeepsTimes(jobs: seq<Job>, s: State, t: nat)
    requires Sized(jobs, s) && TimesGood(jobs, s) && Enabled(s, Finish(t))
    ensures TimesGood(jobs, Next(jobs, s, Finish(t)))
  {
  }

  ghost predicate LogGood(s: State) {
    Alternates(s.log) && forall j: nat :: j in s.running <==> Open(s.log, j)
  }

  lemma StepKeepsLog(jobs: seq<Job>, s: State, st: Step)
    requires Sized(jobs, s) && SlotsGood(s) && LogGood(s) && Enabled(s, st)
    ensures LogGood(Next(jobs, s, st))
  {
    hide Held, HoldersDiffer, Alternates, Open;
    var s' := Next(jobs, s, st);
    if s'.log != s.log {
      var event := s'.log[|s.log|];
      assert s'.log == s.log + [event] && (event.Took? <==> event.j !in s.running);
      assert s'.running == if event.Took? then s.running + {event.j} else s.running - {event.j};
      LogGrows(s.log, event);
      forall j: nat
        ensures j in s'.running <==> Open(s'.log, j)
      {
        OpenAfter(s.log, event, j);
      }
    }
  }

  lemma OpenAfter(log: seq<Event>, event: Event, j: nat)
    ensures Open(log + [event], j) <==> if event.j == j then event.Took? else Open(log, j)
  {
    assert (log + [event])[..|log|] == log;
  }

  lemma LogGrows(log: seq<Event>, event: Event)
    requires Alternates(log) && (event.Took? <==> !Open(log, event.j))
    ensures Alternates(log + [event])
  {
    assert (log + [event])[..|log|] == log;
  }

  ghost predicate Good(jobs: seq<Job>, s: State) {
    && Sized(jobs, s) && SlotsGood(s) && TimesGood(jobs, s) && LogGood(s)
    && (s.resolved ==> s.stopped && s.running == {})
  }

  lemma {:induction false} AlwaysGood(jobs: seq<Job>, run: Run, n: nat)
    requires IsRun(jobs, run) && n < |run.states|
    ensures Good(jobs, run.states[n])
  {
    if n > 0 {
      AlwaysGood(jobs, run, n - 1);
      assert Steps(jobs, run, n - 1);
      var s, st := run.states[n - 1], run.steps[n - 1];
      StepKeepsSlots(jobs, s, st);
      StepKeepsTimes(jobs, s, st);
      StepKeepsLog(jobs, s, st);
      StepKeepsResolved(jobs, s, st);
    }
  }

  lemma StepKeepsResolved(jobs: seq<Job>, s: State, st: Step)
    requires Sized(jobs, s) && Enabled(s, st) && (s.resolved ==> s.stopped && s.running == {})
    ensures Next(jobs, s, st).resolved ==> Next(jobs, s, st).stopped && Next(jobs, s, st).running == {}
  {
  }

  /**
   However ticks overlap and whatever fails: no two ticks hold the same job, a slot is held
   exactly while a tick holds it, and between two runs of a job its whole interval passes.
   */
  lemma JobsNeverOverlap(jobs: seq<Job>, run: Run, n: nat)
    requires IsRun(jobs, run) && n < |run.states|
    ensures var s := run.states[n];
            && (forall t, u | 0 <= t < u < |s.ticks| && Holds(s.ticks[t]) && Holds(s.ticks[u])
                :: s.ticks[t].j != s.ticks[u].j)
            && (forall j :: j in s.running <==> Held(s, j))
            && Alternates(s.log)
            && Spaced(jobs, s.log)
  {
    AlwaysGood(jobs, run, n);
  }

  // ---------- When a job is due ----------

  /** Event i is the last at which job j was given back. */
  predicate LastGiven(log: seq<Event>, j: nat, i: nat) {
    && i < |log| && log[i].Gave? && log[i].j == j
    && forall k | i < k < |log| :: !(log[k].Gave? && log[k].j == j)
  }

  predicate NeverGiven(log: seq<Event>, j: nat) {
    forall k | 0 <= k < |log| :: !(log[k].Gave? && log[k].j == j)
  }

  /** Job j is due its interval after it was last given back, and at the start when it never was. */
  ghost predicate DueGood(jobs: seq<Job>, s: State, start: int, j: nat)
    requires |s.dueAt| == |jobs| && j < |jobs|
  {
    && (forall i: nat | LastGiven(s.log, j, i) :: s.dueAt[j] == s.log[i].at + jobs[j].everySeconds * 1000)
    && (NeverGiven(s.log, j) ==> s.dueAt[j] == start)
  }

  lemma StepKeepsDue(jobs: seq<Job>, s: State, st: Step, start: int, j: nat)
    requires Sized(jobs, s) && Enabled(s, st) && Sized(jobs, Next(jobs, s, st))
    requires j < |jobs| && DueGood(jobs, s, start, j)
    ensures DueGood(jobs, Next(jobs, s, st), start, j)
  {
    var s' := Next(jobs, s, st);
    if s'.log != s.log {
      var event := s'.log[|s.log|];
      assert s'.log == s.log + [event];
      assert event.Gave? && event.j == j ==> s'.dueAt[j] == event.at + jobs[j].everySeconds * 1000;
      assert !(event.Gave? && event.j == j) ==> s'.dueAt[j] == s.dueAt[j];
      LastGivenGrows(s.log, event, j);
    }
  }

  lemma LastGivenGrows(log: seq<Event>, event: Event, j: nat)
    ensures forall i: nat :: LastGiven(log + [event], j, i) <==>
              if event.Gave? && event.j == j then i == |log| else LastGiven(log, j, i)
    ensures NeverGiven(log + [event], j) <==> NeverGiven(log, j) && !(event.Gave? && event.j == j)
  {
    var more := log + [event];
    assert more[|log|] == event;
    forall i: nat
      ensures LastGiven(more, j, i) <==>
              if event.Gave? && event.j == j then i == |log| else LastGiven(log, j, i)
    {
      if i < |log| && LastGiven(log, j, i) && !(event.Gave? && event.j == j) {
        assert forall k | i < k < |more| :: !(more[k].Gave? && more[k].j == j);
      }
      if LastGiven(more, j, i) && i < |log| {
        assert forall k | i < k < |log| :: log[k] == more[k];
      }
    }
    if NeverGiven(more, j) {
      assert forall k | 0 <= k < |log| :: log[k] == more[k];
    }
  }

  /** In every run each job is due exactly its interval after its last run ended, or at the start. */
  lemma {:induction false} DueExactly(jobs: seq<Job>, run: Run, n: nat, j: nat)
    requires IsRun(jobs, run) && n < |run.states| && j < |jobs|
    ensures |run.states[n].dueAt| == |jobs| && DueGood(jobs, run.states[n], run.states[0].clock, j)
  {
    hide DueGood, SlotsGood, TimesGood, LogGood;
    AlwaysGood(jobs, run, n);
    if n == 0 {
      DueAtTheStart(jobs, run.states[0], j);
    } else {
      DueExactly(jobs, run, n - 1, j);
      assert Steps(jobs, run, n - 1);
      StepKeepsDue(jobs, run.states[n - 1], run.steps[n - 1], run.states[0].clock, j);
    }
  }

  lemma DueAtTheStart(jobs: seq<Job>, s: State, j: nat)
    requires Initial(jobs, s) && j < |jobs|
    ensures DueGood(jobs, s, s.clock, j)
  {
  }

  /**
   A tick looks at the jobs one after another from the first, with the clock it started at: it
   is done only at the end of the list or once stopped, and no step lets it leave one out.
   */
  lemma LooksAtEveryJobInTurn(jobs: seq<Job>, run: Run, n: nat, t: nat)
    requires IsRun(jobs, run) && n < |run.steps| && t < |run.states[n + 1].ticks|
    ensures t == |run.states[n].ticks| ==> run.states[n + 1].ticks[t] == Scan(run.states[n].clock, 0)
    ensures t <= |run.states[n].ticks|
    ensures t < |run.states[n].ticks| ==>
              var p, q := run.states[n].ticks[t], run.states[n + 1].ticks[t];
              p == q
              || (q.Over? && p.Scan? && (|jobs| <= p.j || run.states[n].stopped))
              || (!p.Over? && !q.Over? && q.now == p.now && q.j == if q.Scan? then p.j + 1 else p.j)
  {
    assert Steps(jobs, run, n);
  }

  // ---------- What is due runs, over its tenants ----------

  /** A tick takes a slot exactly when the scheduler runs on, the job is due by the tick's clock and nobody holds it. */
  lemma TakesWhatIsDueExactly(jobs: seq<Job>, run: Run, n: nat, t: nat)
    requires IsRun(jobs, run) && n < |run.steps| && run.steps[n] == Consider(t)
    ensures |run.states[n + 1].ticks| == |run.states[n].ticks|
    ensures Good(jobs, run.states[n]) && t < |run.states[n].ticks| && run.states[n].ticks[t].Scan?
    ensures var s, s', j, now := run.states[n], run.states[n + 1], run.states[n].ticks[t].j, run.states[n].ticks[t].now;
            && (s'.ticks[t] == Listing(now, j) <==> j < |jobs| && !s.stopped && s.dueAt[j] <= now && !Held(s, j))
            && (s'.ticks[t] == Over <==> |jobs| <= j || s.stopped)
            && (s'.ticks[t] != Listing(now, j) && s'.ticks[t] != Over ==> s'.ticks[t] == Scan(now, j + 1))
  {
    AlwaysGood(jobs, run, n);
    assert Steps(jobs, run, n);
  }

  /** How many bodies a visit to a job begins when nobody stops it. */
  function Owed(job: Job, tenants: seq<string>): nat {
    if !job.global then |tenants| else if tenants != [] && tenants[0] != "" then 1 else 0
  }

  /** The bodies a visit has begun. */
  function BegunSoFar(p: Phase): nat {
    match p
    case Walk(_, _, _, i) => i
    case InBody(_, _, _, i) => i + 1
    case _ => 0
  }

  predicate VisitGood(jobs: seq<Job>, p: Phase) {
    && (Holds(p) ==> p.j < |jobs|)
    && (p.Walk? ==> p.i <= Owed(jobs[p.j], p.tenants))
    && (p.InBody? ==>
          p.i < Owed(jobs[p.j], p.tenants) && p.i < |p.tenants| && (jobs[p.j].global ==> p.tenants[p.i] != ""))
  }

  lemma StepKeepsVisits(jobs: seq<Job>, s: State, st: Step, t: nat)
    requires Sized(jobs, s) && Enabled(s, st) && t < |s.ticks| && VisitGood(jobs, s.ticks[t])
    ensures VisitGood(jobs, Next(jobs, s, st).ticks[t])
    ensures !s.ticks[t].Listing? && Holds(s.ticks[t]) && !s.ticks[t].Leaving?
            && !Next(jobs, s, st).ticks[t].Leaving? ==>
              BegunSoFar(Next(jobs, s, st).ticks[t]) == BegunSoFar(s.ticks[t]) + if Begins(jobs, s, st, t) then 1 else 0
  {
  }

  lemma {:induction false} VisitsAreGood(jobs: seq<Job>, run: Run, n: nat, t: nat)
    requires IsRun(jobs, run) && n < |run.states| && t < |run.states[n].ticks|
    ensures VisitGood(jobs, run.states[n].ticks[t])
  {
    assert n > 0;
    assert Steps(jobs, run, n - 1);
    if t < |run.states[n - 1].ticks| {
      VisitsAreGood(jobs, run, n - 1, t);
      StepKeepsVisits(jobs, run.states[n - 1], run.steps[n - 1], t);
    }
  }

  /** The visit of tick t that got its tenants just before state n is still walking them at state m. */
  ghost predicate SameVisit(run: Run, t: nat, n: nat, m: nat)
    requires n <= m < |run.states|
  {
    forall k | n <= k <= m ::
      t < |run.states[k].ticks| && (run.states[k].ticks[t].Walk? || run.states[k].ticks[t].InBody?)
  }

  lemma {:induction false} VisitCounts(jobs: seq<Job>, run: Run, t: nat, n: nat, m: nat)
    requires IsRun(jobs, run) && n <= m < |run.states| && SameVisit(run, t, n, m)
    ensures BodiesBegun(jobs, run, t, n, m) + BegunSoFar(run.states[n].ticks[t]) == BegunSoFar(run.states[m].ticks[t])
  {
    if n < m {
      VisitCounts(jobs, run, t, n, m - 1);
      assert Steps(jobs, run, m - 1);
      VisitsAreGood(jobs, run, m - 1, t);
      StepKeepsVisits(jobs, run.states[m - 1], run.steps[m - 1], t);
    }
  }

  /**
   A visit that nobody stops begins one body for each of the tenants it was given, or the one of a
   global job with a first tenant, and only then leaves.
   */
  lemma VisitsItsTenants(jobs: seq<Job>, run: Run, t: nat, n: nat, m: nat, tenants: seq<string>)
    requires IsRun(jobs, run) && 0 < n <= m < |run.steps| && SameVisit(run, t, n, m)
    requires run.steps[n - 1] == List(t, tenants) && run.steps[m] == Enter(t)
    requires t < |run.states[m + 1].ticks| && run.states[m + 1].ticks[t].Leaving? && !run.states[m].stopped
    ensures run.states[n].ticks[t].j < |jobs|
    ensures BodiesBegun(jobs, run, t, n, m) == Owed(jobs[run.states[n].ticks[t].j], tenants)
  {
    assert Steps(jobs, run, n - 1) && Steps(jobs, run, m);
    VisitCounts(jobs, run, t, n, m);
    VisitKeepsTenants(jobs, run, t, n, m);
    VisitsAreGood(jobs, run, m, t);
  }

  lemma {:induction false} VisitKeepsTenants(jobs: seq<Job>, run: Run, t: nat, n: nat, m: nat)
    requires IsRun(jobs, run) && n <= m < |run.states| && SameVisit(run, t, n, m)
    ensures run.states[m].ticks[t].tenants == run.states[n].ticks[t].tenants
    ensures run.states[m].ticks[t].j == run.states[n].ticks[t].j
  {
    if n < m {
      VisitKeepsTenants(jobs, run, t, n, m - 1);
      assert Steps(jobs, run, m - 1);
    }
  }

  // ---------- stop is a barrier ----------

  /** How many bodies a tick may still begin once the scheduler is stopped. */
  function MayBegin(jobs: seq<Job>, s: State, t: nat): nat
    requires Sized(jobs, s)
  {
    if t < |s.ticks| && (s.ticks[t].Listing? || (s.ticks[t].Walk? && s.ticks[t].i == 0)) && jobs[s.ticks[t].j].global
    then 1 else 0
  }

  predicate Begins(jobs: seq<Job>, s: State, st: Step, t: nat)
    requires Sized(jobs, s) && Enabled(s, st)
  {
    st == Enter(t) && Next(jobs, s, st).ticks[t].InBody?
  }

  /** The bodies tick t begins from state n to state m. */
  ghost function BodiesBegun(jobs: seq<Job>, run: Run, t: nat, n: nat, m: nat): nat
    requires IsRun(jobs, run) && n <= m < |run.states|
  {
    if n == m then 0
    else
      assert Steps(jobs, run, m - 1);
      BodiesBegun(jobs, run, t, n, m - 1)
      + if Begins(jobs, run.states[m - 1], run.steps[m - 1], t) then 1 else 0
  }

  lemma StoppedSpendsItsTurn(jobs: seq<Job>, s: State, st: Step, t: nat)
    requires Sized(jobs, s) && SlotsGood(s) && Enabled(s, st) && s.stopped
    ensures Sized(jobs, Next(jobs, s, st)) && Next(jobs, s, st).stopped
    ensures (if Begins(jobs, s, st, t) then 1 else 0) + MayBegin(jobs, Next(jobs, s, st), t) <= MayBegin(jobs, s, t)
  {
    StepKeepsSlots(jobs, s, st);
  }

  lemma {:induction false} StoppedBudget(jobs: seq<Job>, run: Run, t: nat, n: nat, m: nat)
    requires IsRun(jobs, run) && n <= m < |run.states| && run.states[n].stopped
    ensures Good(jobs, run.states[n]) && Good(jobs, run.states[m]) && run.states[m].stopped
    ensures BodiesBegun(jobs, run, t, n, m) + MayBegin(jobs, run.states[m], t) <= MayBegin(jobs, run.states[n], t)
  {
    AlwaysGood(jobs, run, n);
    AlwaysGood(jobs, run, m);
    if n < m {
      hide SlotsGood, TimesGood, LogGood, MayBegin, Begins, Next, Enabled;
      StoppedBudget(jobs, run, t, n, m - 1);
      assert Steps(jobs, run, m - 1);
      StoppedSpendsItsTurn(jobs, run.states[m - 1], run.steps[m - 1], t);
    }
  }

  /**
   Once stopped, a tick begins at most one more body, and only for a global job it was already
   fetching or holding the tenant list for.
   */
  lemma AtMostOneMoreBody(jobs: seq<Job>, run: Run, t: nat, n: nat, m: nat)
    requires IsRun(jobs, run) && n <= m < |run.states| && run.states[n].stopped
    ensures BodiesBegun(jobs, run, t, n, m) <= 1
    ensures BodiesBegun(jobs, run, t, n, m) == 1 ==>
              && t < |run.states[n].ticks|
              && (run.states[n].ticks[t].Listing? || (run.states[n].ticks[t].Walk? && run.states[n].ticks[t].i == 0))
              && run.states[n].ticks[t].j < |jobs| && jobs[run.states[n].ticks[t].j].global
  {
    StoppedBudget(jobs, run, t, n, m);
  }

  /** Once stop has resolved nothing is in flight and nothing ever starts, whatever was pending. */
  lemma {:induction false} StopIsABarrier(jobs: seq<Job>, run: Run, n: nat, m: nat)
    requires IsRun(jobs, run) && n <= m < |run.states| && run.states[n].resolved
    ensures forall t | 0 <= t < |run.states[m].ticks| :: !Holds(run.states[m].ticks[t])
    ensures forall t: nat :: BodiesBegun(jobs, run, t, n, m) == 0
  {
    StaysResolved(jobs, run, n, m);
    AlwaysGood(jobs, run, m);
    AlwaysGood(jobs, run, n);
    forall t: nat
      ensures BodiesBegun(jobs, run, t, n, m) == 0
    {
      StoppedBudget(jobs, run, t, n, m);
    }
  }

  lemma {:induction false} StaysResolved(jobs: seq<Job>, run: Run, n: nat, m: nat)
    requires IsRun(jobs, run) && n <= m < |run.states| && run.states[n].resolved
    ensures run.states[m].resolved
  {
    if n < m {
      StaysResolved(jobs, run, n, m - 1);
      assert Steps(jobs, run, m - 1);
    }
  }

  // ---------- stop is not kept waiting for ever ----------

  /** What a holder still has to do once the scheduler is stopped. */
  function Work(p: Phase): nat {
    match p
    case Listing(_, _) => 5
    case Walk(_, _, _, i) => if i == 0 then 4 else 2
    case InBody(_, _, _, i) => 3
    case Leaving(_, _) => 1
    case Scan(_, _) => 0
    case Over => 0
  }

  /** The step the code takes next for a tick that holds a slot. */
  function Own(t: nat, p: Phase, tenants: seq<string>): Step
    requires Holds(p)
  {
    match p
    case Listing(_, _) => List(t, tenants)
    case Walk(_, _, _, _) => Enter(t)
    case InBody(_, _, _, _) => EndBody(t)
    case Leaving(_, _) => Finish(t)
  }

  function Total(ticks: seq<Phase>): nat {
    if ticks == [] then 0 else Total(ticks[..|ticks| - 1]) + Work(ticks[|ticks| - 1])
  }

  lemma {:induction false} TotalAt(ticks: seq<Phase>, t: nat, p: Phase)
    requires t < |ticks|
    ensures Total(ticks[t := p]) + Work(ticks[t]) == Total(ticks) + Work(p)
  {
    hide Work;
    var last := |ticks| - 1;
    if t < last {
      TotalAt(ticks[..last], t, p);
      assert ticks[t := p][..last] == ticks[..last][t := p];
    } else {
      assert ticks[t := p][..last] == ticks[..last];
    }
  }

  /** A step of a tick that holds a slot. */
  predicate ByHolder(st: Step) {
    st.List? || st.Enter? || st.EndBody? || st.Finish?
  }

  /** Steps of holders alone, taken one after another from s, after which nobody holds a slot. */
  ghost predicate DrainsBy(jobs: seq<Job>, s: State, steps: seq<Step>)
    requires Sized(jobs, s)
    decreases |steps|
  {
    if steps == [] then s.running == {}
    else
      && ByHolder(steps[0]) && Enabled(s, steps[0]) && Sized(jobs, Next(jobs, s, steps[0]))
      && DrainsBy(jobs, Next(jobs, s, steps[0]), steps[1..])
  }

  lemma OwnStepIsWork(jobs: seq<Job>, s: State, t: nat)
    requires Sized(jobs, s) && s.stopped && t < |s.ticks| && Holds(s.ticks[t])
    ensures var st := Own(t, s.ticks[t], []);
            Enabled(s, st) && ByHolder(st)
            && Next(jobs, s, st).stopped
            && Next(jobs, s, st).ticks == s.ticks[t := Next(jobs, s, st).ticks[t]]
            && Work(Next(jobs, s, st).ticks[t]) < Work(s.ticks[t])
  {
  }

  /**
   stop does not wait for ever: from every stopped state the ticks in flight, each doing only
   what it does next, give all their slots back.
   */
  lemma {:induction false} StopCanResolve(jobs: seq<Job>, s: State)
    requires Sized(jobs, s) && SlotsGood(s) && s.stopped
    ensures exists steps: seq<Step> :: DrainsBy(jobs, s, steps)
    decreases Total(s.ticks)
  {
    if s.running == {} {
      assert DrainsBy(jobs, s, []);
    } else {
      var j :| j in s.running;
      var t :| 0 <= t < |s.ticks| && Holds(s.ticks[t]) && s.ticks[t].j == j;
      var st := Own(t, s.ticks[t], []);
      OwnStepIsWork(jobs, s, t);
      StopAfterOwnStep(jobs, s, t, st);
    }
  }

  lemma {:induction false} StopAfterOwnStep(jobs: seq<Job>, s: State, t: nat, st: Step)
    requires Sized(jobs, s) && SlotsGood(s) && s.stopped && t < |s.ticks| && Enabled(s, st) && ByHolder(st)
    requires Next(jobs, s, st).stopped && Next(jobs, s, st).ticks == s.ticks[t := Next(jobs, s, st).ticks[t]]
    requires Work(Next(jobs, s, st).ticks[t]) < Work(s.ticks[t])
    ensures exists steps: seq<Step> :: DrainsBy(jobs, s, steps)
    decreases Total(s.ticks), 0
  {
    hide Next, Work, SlotsGood, Enabled, Sized;
    var s' := Next(jobs, s, st);
    StepKeepsSlots(jobs, s, st);
    TotalAt(s.ticks, t, s'.ticks[t]);
    StopCanResolve(jobs, s');
    var rest :| DrainsBy(jobs, s', rest);
    assert ([st] + rest)[1..] == rest;
    assert DrainsBy(jobs, s, [st] + rest);
  }

  // ---------- ... whatever else is scheduled ----------

  /** How many steps holders take from state n to state m. */
  ghost function HolderSteps(run: Run, n: nat, m: nat): nat
    requires n <= m <= |run.steps|
  {
    if n == m then 0 else HolderSteps(run, n, m - 1) + if ByHolder(run.steps[m - 1]) then 1 else 0
  }

  /** Once stopped, every step of a holder is work done and no other step makes any. */
  lemma StoppedStepsWork(jobs: seq<Job>, s: State, st: Step)
    requires Sized(jobs, s) && Enabled(s, st) && s.stopped
    ensures Total(Next(jobs, s, st).ticks) + (if ByHolder(st) then 1 else 0) <= Total(s.ticks)
  {
    var s' := Next(jobs, s, st);
    if st.StartTick? {
      assert s'.ticks[..|s.ticks|] == s.ticks;
    } else if ByHolder(st) || st.Consider? {
      assert s'.ticks == s.ticks[st.t := s'.ticks[st.t]];
      OneTickWorks(jobs, s, st);
      TotalAt(s.ticks, st.t, s'.ticks[st.t]);
    }
  }

  lemma OneTickWorks(jobs: seq<Job>, s: State, st: Step)
    requires Sized(jobs, s) && Enabled(s, st) && s.stopped && (ByHolder(st) || st.Consider?)
    ensures Work(Next(jobs, s, st).ticks[st.t]) + (if ByHolder(st) then 1 else 0) <= Work(s.ticks[st.t])
  {
  }

  lemma {:induction false} NoWorkNoHolder(ticks: seq<Phase>)
    ensures Total(ticks) == 0 <==> forall t | 0 <= t < |ticks| :: !Holds(ticks[t])
  {
    if ticks != [] {
      var last := |ticks| - 1;
      NoWorkNoHolder(ticks[..last]);
      assert forall t | 0 <= t < last :: ticks[..last][t] == ticks[t];
    }
  }

  /**
   Every schedule drains: after stop, holders take no more steps than the work they had, however
   many ticks, clocks and stops come between, and when the work is done stop can resolve; until
   then some holder can take a step.
   */
  lemma {:induction false} EveryScheduleDrains(jobs: seq<Job>, run: Run, n: nat, m: nat)
    requires IsRun(jobs, run) && n <= m < |run.states| && run.states[n].stopped
    ensures Good(jobs, run.states[n]) && Good(jobs, run.states[m]) && run.states[m].stopped
    ensures HolderSteps(run, n, m) + Total(run.states[m].ticks) <= Total(run.states[n].ticks)
    ensures Enabled(run.states[m], StopResolves) <==> Total(run.states[m].ticks) == 0
    ensures Enabled(run.states[m], StopResolves) ==> Next(jobs, run.states[m], StopResolves).resolved
    ensures !Enabled(run.states[m], StopResolves) ==> exists st: Step :: ByHolder(st) && Enabled(run.states[m], st)
  {
    hide SlotsGood, TimesGood, LogGood, Total, Next, Enabled, ByHolder;
    AlwaysGood(jobs, run, n);
    AlwaysGood(jobs, run, m);
    if n < m {
      EveryScheduleDrains(jobs, run, n, m - 1);
      assert Steps(jobs, run, m - 1);
      StoppedStepsWork(jobs, run.states[m - 1], run.steps[m - 1]);
      StaysStopped(jobs, run.states[m - 1], run.steps[m - 1]);
    }
    WorkOrResolve(jobs, run.states[m]);
  }

  lemma StaysStopped(jobs: seq<Job>, s: State, st: Step)
    requires Sized(jobs, s) && Enabled(s, st) && s.stopped
    ensures Next(jobs, s, st).stopped
  {
  }

  lemma WorkOrResolve(jobs: seq<Job>, s: State)
    requires Good(jobs, s) && s.stopped
    ensures Enabled(s, StopResolves) <==> Total(s.ticks) == 0
    ensures Enabled(s, StopResolves) ==> Next(jobs, s, StopResolves).resolved
    ensures !Enabled(s, StopResolves) ==> exists st: Step :: ByHolder(st) && Enabled(s, st)
  {
    NoWorkNoHolder(s.ticks);
    if s.running != {} {
      var j :| j in s.running;
      var t :| 0 <= t < |s.ticks| && Holds(s.ticks[t]) && s.ticks[t].j == j;
      OwnStepIsWork(jobs, s, t);
      assert ByHolder(Own(t, s.ticks[t], [])) && Enabled(s, Own(t, s.ticks[t], []));
    }
  }
}
