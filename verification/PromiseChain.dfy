/**
 The chain that serialises writers and statements:

   result = queue.then(body);  queue = result, with its failure swallowed.

 The sealed file's puts and a connection's statements are both issued this way
 (packages/providers/src/sealed-store.ts, packages/db/src/client.ts).
 */
module PromiseChain {
  /** The promise handed to the caller: its body waits, runs, is over, or never ran at all. */
  datatype Job = Waiting | Running | Done(ok: bool) | Skipped

  /** The promise the next caller waits for. */
  datatype Tail = Pending | Fulfilled | Rejected

  datatype State = State(jobs: seq<Job>, tails: seq<Tail>)

  datatype Step = Issue | Start(i: nat) | Skip(i: nat) | Finish(i: nat, ok: bool) | Settle(i: nat)

  const EMPTY := State([], [])

  function TailBefore(s: State, i: nat): Tail
    requires i <= |s.tails|
  {
    if i == 0 then Fulfilled else s.tails[i - 1]
  }

  predicate Enabled(s: State, st: Step) {
    |s.jobs| == |s.tails|
    && match st
       case Issue => true
       case Start(i) => i < |s.jobs| && s.jobs[i].Waiting? && TailBefore(s, i).Fulfilled?
       case Skip(i) => i < |s.jobs| && s.jobs[i].Waiting? && TailBefore(s, i).Rejected?
       case Finish(i, _) => i < |s.jobs| && s.jobs[i].Running?
       case Settle(i) => i < |s.jobs| && s.tails[i].Pending? && Over(s.jobs[i])
  }

  predicate Over(j: Job) {
    j.Done? || j.Skipped?
  }

  /** `guarded` is the chain as written; without it the queue would be the result itself. */
  function Next(s: State, st: Step, guarded: bool): State
    requires Enabled(s, st)
  {
    match st
    case Issue => State(s.jobs + [Waiting], s.tails + [Pending])
    case Start(i) => s.(jobs := s.jobs[i := Running])
    case Skip(i) => s.(jobs := s.jobs[i := Skipped])
    case Finish(i, ok) => s.(jobs := s.jobs[i := Done(ok)])
    case Settle(i) => s.(tails := s.tails[i := if guarded || s.jobs[i] == Done(true) then Fulfilled else Rejected])
  }

  /** What every step keeps: a job starts only when all before it are over, and none is skipped. */
  ghost predicate InOrder(s: State) {
    && |s.jobs| == |s.tails|
    && (forall i | 0 <= i < |s.jobs| :: s.jobs[i] != Skipped && s.tails[i] != Rejected)
    && (forall i | 0 <= i < |s.jobs| && s.tails[i].Fulfilled? :: s.jobs[i].Done?)
    && (forall i, j | 0 <= i < j < |s.jobs| && !s.jobs[j].Waiting? :: s.jobs[i].Done?)
  }

  lemma StepKeepsOrder(s: State, st: Step)
    requires InOrder(s) && Enabled(s, st)
    ensures InOrder(Next(s, st, true))
  {
    var s' := Next(s, st, true);
    if st.Start? {
      forall i | 0 <= i < st.i
        ensures s'.jobs[i].Done?
      {
        assert s.tails[st.i - 1].Fulfilled? && s.jobs[st.i - 1].Done?;
        if i < st.i - 1 {
          assert !s.jobs[st.i - 1].Waiting?;
        }
      }
    }
  }

  /** The steps can be taken one after another. */
  predicate Runs(steps: seq<Step>, guarded: bool)
    decreases |steps|, 0
  {
    steps == [] ||
    (Runs(steps[..|steps| - 1], guarded) && Enabled(After(steps[..|steps| - 1], guarded), steps[|steps| - 1]))
  }

  /** The chain they lead to from the empty one. */
  function After(steps: seq<Step>, guarded: bool): State
    requires Runs(steps, guarded)
    decreases |steps|, 1
  {
    if steps == [] then EMPTY else Next(After(steps[..|steps| - 1], guarded), steps[|steps| - 1], guarded)
  }

  /**
   Whatever fails: no body is skipped, no two run at once, they start in the order they were
   issued, and while any is left something can happen.
   */
  lemma {:induction false} ChainSerialises(steps: seq<Step>)
    requires Runs(steps, true)
    ensures var s := After(steps, true);
            && InOrder(s)
            && (forall i, j | 0 <= i < |s.jobs| && 0 <= j < |s.jobs|
                  && s.jobs[i].Running? && s.jobs[j].Running? :: i == j)
            && ((exists i :: 0 <= i < |s.jobs| && !s.jobs[i].Done?) ==> exists st: Step :: !st.Issue? && Enabled(s, st))
    decreases |steps|
  {
    var s := After(steps, true);
    if steps != [] {
      ChainSerialises(steps[..|steps| - 1]);
      StepKeepsOrder(After(steps[..|steps| - 1], true), steps[|steps| - 1]);
    }
    if i :| 0 <= i < |s.jobs| && !s.jobs[i].Done? {
      SomethingCanHappen(s, i);
    }
  }

  lemma {:induction false} SomethingCanHappen(s: State, i: nat)
    requires InOrder(s) && i < |s.jobs| && !s.jobs[i].Done?
    ensures exists st: Step :: !st.Issue? && Enabled(s, st)
  {
    if s.jobs[i].Running? {
      assert Enabled(s, Finish(i, true));
    } else if TailBefore(s, i).Fulfilled? {
      assert Enabled(s, Start(i));
    } else if s.jobs[i - 1].Done? {
      assert Enabled(s, Settle(i - 1));
    } else {
      SomethingCanHappen(s, i - 1);
    }
  }

  /** A job between the promise it waits for and its own, when the queue is the result itself. */
  predicate Passes(before: Tail, job: Job, tail: Tail) {
    match job
    case Waiting => tail.Pending?
    case Running => before.Fulfilled? && tail.Pending?
    case Skipped => before.Rejected? && !tail.Fulfilled?
    case Done(ok) => before.Fulfilled? && (tail.Pending? || tail.Fulfilled? == ok)
  }

  /** What the chain without its catch keeps: a body runs only after one that succeeded. */
  ghost predicate FailsThrough(s: State) {
    && |s.jobs| == |s.tails|
    && (forall i | 0 <= i < |s.jobs| :: Passes(TailBefore(s, i), s.jobs[i], s.tails[i]))
  }

  lemma StepKeepsFailure(s: State, st: Step)
    requires FailsThrough(s) && Enabled(s, st)
    ensures FailsThrough(Next(s, st, false))
  {
    var s' := Next(s, st, false);
    forall i | 0 <= i < |s'.jobs|
      ensures Passes(TailBefore(s', i), s'.jobs[i], s'.tails[i])
    {
      if i < |s.jobs| {
        assert Passes(TailBefore(s, i), s.jobs[i], s.tails[i]);
      }
    }
  }

  lemma {:induction false} SkippedHasACause(s: State, j: nat) returns (i: nat)
    requires FailsThrough(s) && j < |s.jobs| && s.jobs[j] == Skipped
    ensures i < j && s.jobs[i] == Done(false)
  {
    if s.jobs[j - 1] == Skipped {
      i := SkippedHasACause(s, j - 1);
    } else {
      i := j - 1;
    }
  }

  lemma {:induction false} AllBeforeSucceeded(s: State, i: nat, j: nat)
    requires FailsThrough(s) && i < j < |s.jobs| && (s.jobs[j].Running? || s.jobs[j].Done?)
    ensures s.jobs[i] == Done(true)
  {
    if i < j - 1 {
      AllBeforeSucceeded(s, i, j - 1);
    }
  }

  /**
   What the catch is for: without it, in any run, a body runs only when all before it succeeded,
   so one failure stops the rest; and a body is skipped only for a failure before it.
   */
  lemma {:induction false} OneFailureWouldStopTheRest(steps: seq<Step>)
    requires Runs(steps, false)
    ensures var s := After(steps, false);
            && FailsThrough(s)
            && (forall i, j | 0 <= i < j < |s.jobs| && (s.jobs[j].Running? || s.jobs[j].Done?) ::
                  s.jobs[i] == Done(true))
            && (forall j | 0 <= j < |s.jobs| && s.jobs[j] == Skipped ::
                  exists i :: 0 <= i < j && s.jobs[i] == Done(false))
    decreases |steps|
  {
    var s := After(steps, false);
    if steps != [] {
      OneFailureWouldStopTheRest(steps[..|steps| - 1]);
      StepKeepsFailure(After(steps[..|steps| - 1], false), steps[|steps| - 1]);
    }
    forall i, j | 0 <= i < j < |s.jobs| && (s.jobs[j].Running? || s.jobs[j].Done?)
      ensures s.jobs[i] == Done(true)
    {
      AllBeforeSucceeded(s, i, j);
    }
    forall j | 0 <= j < |s.jobs| && s.jobs[j] == Skipped
      ensures exists i :: 0 <= i < j && s.jobs[i] == Done(false)
    {
      var i := SkippedHasACause(s, j);
    }
  }

  function Failing(): seq<Step> {
    [Issue, Issue, Start(0), Finish(0, false), Settle(0)]
  }

  /** Where five steps lead: two bodies issued, the first of which failed and was heard of. */
  function AfterFailing(guarded: bool): State {
    State([Done(false), Waiting], [if guarded then Fulfilled else Rejected, Pending])
  }

  lemma FailingRuns(guarded: bool)
    ensures Runs(Failing(), guarded) && After(Failing(), guarded) == AfterFailing(guarded)
  {
    hide Runs, After;
    NoSteps(guarded);
    StepsTo([], EMPTY, Issue, guarded, [Issue], State([Waiting], [Pending]));
    StepsTo([Issue], State([Waiting], [Pending]), Issue, guarded, [Issue, Issue],
            State([Waiting, Waiting], [Pending, Pending]));
    SecondHalf(guarded);
  }

  lemma SecondHalf(guarded: bool)
    requires Runs([Issue, Issue], guarded)
    requires After([Issue, Issue], guarded) == State([Waiting, Waiting], [Pending, Pending])
    ensures Runs(Failing(), guarded) && After(Failing(), guarded) == AfterFailing(guarded)
  {
    hide Runs, After;
    var running := State([Running, Waiting], [Pending, Pending]);
    var failed := State([Done(false), Waiting], [Pending, Pending]);
    var started, finished := [Issue, Issue, Start(0)], [Issue, Issue, Start(0), Finish(0, false)];
    StepsTo([Issue, Issue], State([Waiting, Waiting], [Pending, Pending]), Start(0), guarded, started, running);
    StepsTo(started, running, Finish(0, false), guarded, finished, failed);
    StepsTo(finished, failed, Settle(0), guarded, Failing(), AfterFailing(guarded));
  }

  /** After a first body that fails the second can start with the catch, and is skipped without it. */
  lemma FirstOfTwoFails(guarded: bool)
    ensures Runs(Failing(), guarded)
    ensures guarded ==> Enabled(After(Failing(), guarded), Start(1))
    ensures !guarded ==>
              && Runs(Failing() + [Skip(1)], guarded)
              && After(Failing() + [Skip(1)], guarded).jobs == [Done(false), Skipped]
  {
    hide Runs, After, Failing;
    FailingRuns(guarded);
    if !guarded {
      var skipped := State([Done(false), Skipped], [Rejected, Pending]);
      StepsTo(Failing(), AfterFailing(guarded), Skip(1), guarded, Failing() + [Skip(1)], skipped);
    }
  }

  lemma NoSteps(guarded: bool)
    ensures Runs([], guarded) && After([], guarded) == EMPTY
  {
  }

  lemma StepsTo(steps: seq<Step>, s: State, st: Step, guarded: bool, more: seq<Step>, s': State)
    requires Runs(steps, guarded) && After(steps, guarded) == s && Enabled(s, st)
    requires more == steps + [st] && s' == Next(s, st, guarded)
    ensures Runs(more, guarded) && After(more, guarded) == s'
  {
    assert more[..|steps|] == steps;
  }
}
