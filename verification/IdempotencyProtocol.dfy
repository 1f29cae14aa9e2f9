/**
 Every request of every process, racing on the table (apps/api/src/idempotency.ts around
 packages/core/src/idempotency.ts).  One step is one committed statement, one clock advance,
 one arrival or one death; a run is any sequence of them.
 */
module IdempotencyProtocol {
  import opened CanonicalJson
  import opened IdempotentRequests

  datatype Request = Request(key: Key, text: Text)

  /** Where one request stands. `now` is its claim transaction's clock, sampled once. */
  datatype Phase =
    | Arrived
    | Claiming(attempt: nat, now: int, version: nat)
    | Reading(attempt: nat, now: int, version: nat)
    | Handling(fingerprint: Fingerprint, version: nat, claimedAt: int)
    | Answered(answer: Answer)
    | Gone

  datatype State = State(clock: int, rows: Rows, phases: seq<Phase>)

  /**
   Begin samples the clock under whatever key version is current then, so rotations need no
   step of their own.  Die is a process that is killed, or whose last write failed: the
   request is over and its row stays as it is.
   */
  datatype Step =
    | Tick(elapsed: nat)
    | Begin(r: nat, newVersion: nat)
    | TryClaim(r: nat)
    | Read(r: nat)
    | Record(r: nat, response: Response)
    | Release(r: nat)
    | Die(r: nat)

  predicate Enabled(s: State, st: Step) {
    match st
    case Tick(_) => true
    case Begin(r, _) => r < |s.phases| && s.phases[r].Arrived?
    case TryClaim(r) => r < |s.phases| && s.phases[r].Claiming?
    case Read(r) => r < |s.phases| && s.phases[r].Reading?
    case Record(r, _) => r < |s.phases| && s.phases[r].Handling?
    case Release(r) => r < |s.phases| && s.phases[r].Handling?
    case Die(r) => r < |s.phases|
  }

  function Next(iv: Intervals, reqs: seq<Request>, s: State, st: Step): State
    requires Enabled(s, st) && |s.phases| == |reqs|
  {
    if st.Tick? then s.(clock := s.clock + st.elapsed) else
    var req, phase := reqs[st.r], s.phases[st.r];
    match st
    case Begin(r, version) =>
      s.(phases := s.phases[r := Claiming(0, s.clock, version)])
    case TryClaim(r) =>
      var fp := FingerprintFor(req.key, phase.version, req.text);
      s.(rows := Execute(s.rows, ClaimRow(req.key, fp, phase.version, phase.now, iv)),
         phases := s.phases[r := if CanClaim(s.rows, req.key, fp, phase.version, phase.now, iv)
                                 then Handling(fp, phase.version, phase.now)
                                 else Reading(phase.attempt, phase.now, phase.version)])
    case Read(r) =>
      s.(phases := s.phases[r := if req.key in s.rows
                                 then Answered(Judge(s.rows[req.key], req.key, req.text, phase.version))
                                 else if phase.attempt == 0 then Claiming(1, phase.now, phase.version)
                                 else Answered(Unclaimable)])
    case Record(r, response) =>
      s.(rows := Execute(s.rows, RecordRow(req.key, phase.fingerprint, response, s.clock)),
         phases := s.phases[r := Gone])
    case Release(r) =>
      s.(rows := Execute(s.rows, ReleaseRow(req.key, phase.fingerprint)),
         phases := s.phases[r := Gone])
    case Die(r) =>
      s.(phases := s.phases[r := Gone])
  }

  predicate Initial(reqs: seq<Request>, s: State) {
    s.rows == map[] && |s.phases| == |reqs| && forall r | 0 <= r < |reqs| :: s.phases[r] == Arrived
  }

  /** states[n + 1] follows from states[n] by steps[n]. */
  datatype Run = Run(states: seq<State>, steps: seq<Step>)

  ghost predicate IsRun(iv: Intervals, reqs: seq<Request>, run: Run) {
    && |run.states| == |run.steps| + 1
    && Initial(reqs, run.states[0])
    && forall n | 0 <= n < |run.steps| :: Steps(iv, reqs, run, n)
  }

  ghost predicate Steps(iv: Intervals, reqs: seq<Request>, run: Run, n: nat)
    requires n < |run.steps| && |run.states| == |run.steps| + 1
  {
    && |run.states[n].phases| == |reqs|
    && Enabled(run.states[n], run.steps[n])
    && run.states[n + 1] == Next(iv, reqs, run.states[n], run.steps[n])
  }

  // ---------- What every step keeps, with no timing assumed ----------

  predicate Handles(reqs: seq<Request>, s: State, r: nat) {
    r < |s.phases| == |reqs| && s.phases[r].Handling?
  }

  ghost predicate Good(iv: Intervals, reqs: seq<Request>, s: State) {
    && |s.phases| == |reqs|
    && AllWellShaped(s.rows)
    && (forall k | k in s.rows :: s.rows[k].claimedAt <= s.clock
          && s.rows[k].expiresAt == s.rows[k].claimedAt + iv.window)
    && (forall r | 0 <= r < |reqs| :: PhaseGood(reqs[r], s.phases[r], s.clock))
  }

  predicate PhaseGood(req: Request, p: Phase, clock: int) {
    && (p.Claiming? || p.Reading? ==> p.attempt < 2 && p.now <= clock)
    && (p.Handling? ==> p.claimedAt <= clock && p.fingerprint == FingerprintFor(req.key, p.version, req.text))
    && (p.Answered? ==> !p.answer.Claimed? && !p.answer.NoRecordedAnswer?)
  }

  lemma StepKeepsGood(iv: Intervals, reqs: seq<Request>, s: State, st: Step)
    requires Good(iv, reqs, s) && Enabled(s, st)
    ensures Good(iv, reqs, Next(iv, reqs, s, st))
  {
    if !st.Tick? {
      var req := reqs[st.r];
      assert PhaseGood(req, s.phases[st.r], s.clock);
      if st.Read? && req.key in s.rows {
        JudgeReadsTheCell(s.rows, req.key, req.text, s.phases[st.r].version);
      }
    }
  }

  lemma {:induction false} AlwaysGood(iv: Intervals, reqs: seq<Request>, run: Run, n: nat)
    requires IsRun(iv, reqs, run) && n < |run.states|
    ensures Good(iv, reqs, run.states[n])
  {
    if n > 0 {
      AlwaysGood(iv, reqs, run, n - 1);
      assert Steps(iv, reqs, run, n - 1);
      StepKeepsGood(iv, reqs, run.states[n - 1], run.steps[n - 1]);
    }
  }

  /**
   Row shape, in every reachable state: an in-flight row carries no response and a completed
   row carries all of it, so no request is ever answered with the half-recorded error.
   */
  lemma RowShapeAlways(iv: Intervals, reqs: seq<Request>, run: Run, n: nat)
    requires IsRun(iv, reqs, run) && n < |run.states|
    ensures forall k | k in run.states[n].rows ::
              var row := run.states[n].rows[k];
              if row.status == Completed
              then row.responseStatus.Some? && row.responseBody.Some? && row.responseContentType.Some?
              else row.responseStatus.None? && row.responseBody.None? && row.responseContentType.None?
    ensures Answered(NoRecordedAnswer) !in run.states[n].phases
  {
    AlwaysGood(iv, reqs, run, n);
    var s := run.states[n];
    forall k | k in s.rows
      ensures WellShaped(k, s.rows[k])
    {
    }
    forall r | 0 <= r < |s.phases|
      ensures s.phases[r] != Answered(NoRecordedAnswer)
    {
      assert PhaseGood(reqs[r], s.phases[r], s.clock);
    }
  }

  /**
   The answer a read gives is true of what the key holds at that instant, inside the call,
   and a claim that succeeds turns what the key held into this request's own.
   */
  lemma AnswersLinearise(iv: Intervals, reqs: seq<Request>, run: Run, n: nat, r: nat)
    requires IsRun(iv, reqs, run) && n < |run.steps| && r < |reqs|
    ensures Good(iv, reqs, run.states[n]) && Good(iv, reqs, run.states[n + 1])
    ensures run.states[n + 1].phases[r].Answered? && !run.states[n].phases[r].Answered? ==>
              && run.steps[n] == Read(r)
              && TrueOf(run.states[n + 1].phases[r].answer, CellOf(run.states[n].rows, reqs[r].key), reqs[r].text)
              && run.states[n + 1].rows == run.states[n].rows
    ensures run.states[n + 1].phases[r].Handling? && !run.states[n].phases[r].Handling? ==>
              && run.steps[n] == TryClaim(r)
              && CellOf(run.states[n + 1].rows, reqs[r].key) == Held(reqs[r].text)
  {
    hide Next, CellOf, TrueOf, AllWellShaped, PhaseGood, Enabled;
    AlwaysGood(iv, reqs, run, n);
    AlwaysGood(iv, reqs, run, n + 1);
    assert Steps(iv, reqs, run, n);
    StepLinearises(iv, reqs, run.states[n], run.steps[n], r);
  }

  lemma StepLinearises(iv: Intervals, reqs: seq<Request>, s: State, st: Step, r: nat)
    requires r < |reqs| && Enabled(s, st) && Good(iv, reqs, s) && Good(iv, reqs, Next(iv, reqs, s, st))
    ensures var s' := Next(iv, reqs, s, st);
            && (s'.phases[r].Answered? && !s.phases[r].Answered? ==>
                st == Read(r) && TrueOf(s'.phases[r].answer, CellOf(s.rows, reqs[r].key), reqs[r].text)
                && s'.rows == s.rows)
            && (s'.phases[r].Handling? && !s.phases[r].Handling? ==>
                st == TryClaim(r) && CellOf(s'.rows, reqs[r].key) == Held(reqs[r].text))
  {
    hide Next, CellOf, TrueOf;
    if st == Read(r) {
      ReadIsTrueOfTheCell(iv, reqs, s, r);
    } else if st == TryClaim(r) {
      ClaimTakesTheCell(iv, reqs, s, r);
    } else {
      OthersDoNotAnswer(iv, reqs, s, st, r);
    }
  }

  lemma ReadIsTrueOfTheCell(iv: Intervals, reqs: seq<Request>, s: State, r: nat)
    requires r < |reqs| && Enabled(s, Read(r)) && Good(iv, reqs, s)
    ensures var s' := Next(iv, reqs, s, Read(r));
            && s'.rows == s.rows && |s'.phases| == |reqs| && !s'.phases[r].Handling?
            && (s'.phases[r].Answered? ==> TrueOf(s'.phases[r].answer, CellOf(s.rows, reqs[r].key), reqs[r].text))
  {
    if reqs[r].key in s.rows {
      JudgeReadsTheCell(s.rows, reqs[r].key, reqs[r].text, s.phases[r].version);
    }
  }

  lemma ClaimTakesTheCell(iv: Intervals, reqs: seq<Request>, s: State, r: nat)
    requires r < |reqs| && Enabled(s, TryClaim(r)) && Good(iv, reqs, s)
    requires Good(iv, reqs, Next(iv, reqs, s, TryClaim(r)))
    ensures var s' := Next(iv, reqs, s, TryClaim(r));
            !s'.phases[r].Answered? && (s'.phases[r].Handling? ==> CellOf(s'.rows, reqs[r].key) == Held(reqs[r].text))
  {
  }

  lemma OthersDoNotAnswer(iv: Intervals, reqs: seq<Request>, s: State, st: Step, r: nat)
    requires r < |reqs| && st != Read(r) && st != TryClaim(r) && Enabled(s, st) && Good(iv, reqs, s)
    ensures var s' := Next(iv, reqs, s, st);
            && |s'.phases| == |reqs|
            && (s'.phases[r].Answered? ==> s.phases[r].Answered?) && (s'.phases[r].Handling? ==> s.phases[r].Handling?)
  {
  }

  /** The steps of the abstract cell, seen from one key. */
  datatype CellStep = Stays | Taken(text: Text) | Answers(response: Response) | LetGo

  predicate CellMoves(c: Cell, m: CellStep, c': Cell) {
    match m
    case Stays => c' == c
    case Taken(text) => c' == Held(text)
    case Answers(response) => c.Held? && c' == Done(c.text, response)
    case LetGo => c.Held? && c' == Free
  }

  /** What a step is on the abstract cell of a key. */
  function Abstractly(iv: Intervals, reqs: seq<Request>, s: State, st: Step, k: Key): CellStep
    requires |s.phases| == |reqs| && Enabled(s, st)
  {
    if st.Tick? || reqs[st.r].key != k then Stays else
    var req, phase := reqs[st.r], s.phases[st.r];
    match st
    case TryClaim(_) =>
      if CanClaim(s.rows, k, FingerprintFor(k, phase.version, req.text), phase.version, phase.now, iv)
      then Taken(req.text) else Stays
    case Record(_, response) => if HeldUnder(s.rows, k, phase.fingerprint) then Answers(response) else Stays
    case Release(_) => if HeldUnder(s.rows, k, phase.fingerprint) then LetGo else Stays
    case _ => Stays
  }

  /**
   The table refines one abstract cell a key: free, held for a request, or done with its
   answer.  A cell is taken only if it was free, its window was over, or it was held for the
   same request past the lease; it is answered or let go only by a holder of the same
   request; and nothing else moves it.
   */
  lemma RefinesCells(iv: Intervals, reqs: seq<Request>, run: Run, n: nat, k: Key)
    requires IsRun(iv, reqs, run) && n < |run.steps|
    ensures Good(iv, reqs, run.states[n]) && Good(iv, reqs, run.states[n + 1])
    ensures Enabled(run.states[n], run.steps[n])
    ensures var s, st, s' := run.states[n], run.steps[n], run.states[n + 1];
            var c, m := CellOf(s.rows, k), Abstractly(iv, reqs, s, st, k);
            && CellMoves(c, m, CellOf(s'.rows, k))
            && (m.Taken? ==> c.Free? || s.rows[k].expiresAt <= s.clock
                             || (c == Held(m.text) && s.rows[k].claimedAt + iv.lease <= s.clock))
            && (m.Answers? || m.LetGo? ==> Handles(reqs, s, st.r) && c == Held(reqs[st.r].text))
  {
    AlwaysGood(iv, reqs, run, n);
    AlwaysGood(iv, reqs, run, n + 1);
    assert Steps(iv, reqs, run, n);
    var s, st := run.states[n], run.steps[n];
    hide Good, Next, CellMoves, Abstractly, Handles, CellOf;
    if st.TryClaim? {
      ClaimMovesCell(iv, reqs, s, st, k);
    } else if st.Record? || st.Release? {
      HolderMovesCell(iv, reqs, s, st, k);
    } else {
      OthersLeaveCells(iv, reqs, s, st, k);
    }
  }

  lemma ClaimMovesCell(iv: Intervals, reqs: seq<Request>, s: State, st: Step, k: Key)
    requires st.TryClaim? && Enabled(s, st) && Good(iv, reqs, s) && Good(iv, reqs, Next(iv, reqs, s, st))
    ensures var c, m := CellOf(s.rows, k), Abstractly(iv, reqs, s, st, k);
            && (m.Stays? || m.Taken?)
            && CellMoves(c, m, CellOf(Next(iv, reqs, s, st).rows, k))
            && (m.Taken? ==> c.Free? || s.rows[k].expiresAt <= s.clock
                             || (c == Held(m.text) && s.rows[k].claimedAt + iv.lease <= s.clock))
  {
    assert PhaseGood(reqs[st.r], s.phases[st.r], s.clock);
    if k in s.rows {
      assert WellShaped(k, s.rows[k]);
    }
  }

  lemma HolderMovesCell(iv: Intervals, reqs: seq<Request>, s: State, st: Step, k: Key)
    requires st.Record? || st.Release?
    requires Enabled(s, st) && Good(iv, reqs, s) && Good(iv, reqs, Next(iv, reqs, s, st))
    ensures var c, m := CellOf(s.rows, k), Abstractly(iv, reqs, s, st, k);
            && !m.Taken?
            && CellMoves(c, m, CellOf(Next(iv, reqs, s, st).rows, k))
            && (m.Answers? || m.LetGo? ==> Handles(reqs, s, st.r) && c == Held(reqs[st.r].text))
  {
    assert PhaseGood(reqs[st.r], s.phases[st.r], s.clock);
    if k in s.rows {
      assert WellShaped(k, s.rows[k]);
    }
  }

  lemma OthersLeaveCells(iv: Intervals, reqs: seq<Request>, s: State, st: Step, k: Key)
    requires !st.TryClaim? && !st.Record? && !st.Release?
    requires Enabled(s, st) && Good(iv, reqs, s) && Good(iv, reqs, Next(iv, reqs, s, st))
    ensures Abstractly(iv, reqs, s, st, k) == Stays
    ensures CellMoves(CellOf(s.rows, k), Stays, CellOf(Next(iv, reqs, s, st).rows, k))
  {
  }

  /** A late record or release of a holder whose key is held under another fingerprint changes nothing. */
  lemma StaleHolderIsHarmless(iv: Intervals, reqs: seq<Request>, run: Run, n: nat, r: nat)
    requires IsRun(iv, reqs, run) && n < |run.steps|
    requires run.steps[n].Record? || run.steps[n].Release?
    requires r == run.steps[n].r
    ensures Handles(reqs, run.states[n], r)
    ensures run.states[n + 1].rows != run.states[n].rows ==>
              && reqs[r].key in run.states[n].rows
              && run.states[n].rows[reqs[r].key].fingerprint == run.states[n].phases[r].fingerprint
              && run.states[n].rows[reqs[r].key].fingerprint.text == reqs[r].text
              && run.states[n].rows[reqs[r].key].keyVersion == run.states[n].phases[r].version
    ensures forall k | k != reqs[r].key ::
              && (k in run.states[n].rows <==> k in run.states[n + 1].rows)
              && (k in run.states[n].rows ==> run.states[n + 1].rows[k] == run.states[n].rows[k])
  {
    AlwaysGood(iv, reqs, run, n);
    assert Steps(iv, reqs, run, n);
    assert PhaseGood(reqs[r], run.states[n].phases[r], run.states[n].clock);
    if reqs[r].key in run.states[n].rows {
      assert WellShaped(reqs[r].key, run.states[n].rows[reqs[r].key]);
    }
  }

  /**
   A claim's upsert succeeds exactly when its key may be had by its own clock, and a key whose
   window is over may be, whatever it holds; otherwise the request reads, and a read that finds
   the row answers.
   */
  lemma ClaimsAndReadsExactly(iv: Intervals, reqs: seq<Request>, run: Run, n: nat, r: nat)
    requires IsRun(iv, reqs, run) && n < |run.steps| && r < |reqs|
    ensures Good(iv, reqs, run.states[n]) && Good(iv, reqs, run.states[n + 1])
    ensures run.steps[n] == TryClaim(r) ==>
              var p, p', k := run.states[n].phases[r], run.states[n + 1].phases[r], reqs[r].key;
              && p.Claiming?
              && (if Claimable(run.states[n].rows, k, reqs[r].text, p.version, p.now, iv)
                  then p'.Handling? && p'.claimedAt == p.now && CellOf(run.states[n + 1].rows, k) == Held(reqs[r].text)
                  else p'.Reading? && run.states[n + 1].rows == run.states[n].rows)
    ensures run.steps[n] == TryClaim(r) && reqs[r].key in run.states[n].rows
            && run.states[n].rows[reqs[r].key].expiresAt <= run.states[n].phases[r].now ==>
              run.states[n + 1].phases[r].Handling?
    ensures run.steps[n] == Read(r) ==>
              && run.states[n].phases[r].Reading?
              && (run.states[n + 1].phases[r].Answered? <==>
                  reqs[r].key in run.states[n].rows || run.states[n].phases[r].attempt == 1)
  {
    AlwaysGood(iv, reqs, run, n);
    AlwaysGood(iv, reqs, run, n + 1);
    assert Steps(iv, reqs, run, n);
    StepClaimsAndReads(iv, reqs, run.states[n], run.steps[n], r);
  }

  lemma StepClaimsAndReads(iv: Intervals, reqs: seq<Request>, s: State, st: Step, r: nat)
    requires Good(iv, reqs, s) && Enabled(s, st) && r < |reqs|
    requires Good(iv, reqs, Next(iv, reqs, s, st))
    ensures st == TryClaim(r) ==>
              var s', p, k := Next(iv, reqs, s, st), s.phases[r], reqs[r].key;
              && p.Claiming?
              && (if Claimable(s.rows, k, reqs[r].text, p.version, p.now, iv)
                  then s'.phases[r].Handling? && s'.phases[r].claimedAt == p.now
                       && CellOf(s'.rows, k) == Held(reqs[r].text)
                  else s'.phases[r].Reading? && s'.rows == s.rows)
    ensures st == Read(r) ==>
              (Next(iv, reqs, s, st).phases[r].Answered? <==> reqs[r].key in s.rows || s.phases[r].attempt == 1)
  {
    assert PhaseGood(reqs[r], s.phases[r], s.clock);
    if st == TryClaim(r) {
      hide CellOf, Claimable, CanClaim;
      ClaimsExactly(s.rows, reqs[r].key, reqs[r].text, s.phases[r].version, s.phases[r].now, iv);
    }
  }

  // ---------- A recorded answer is stable ----------

  /** Until its window ends, no step of anybody changes a completed row. */
  lemma {:induction false} RecordedAnswerIsStable(iv: Intervals, reqs: seq<Request>, run: Run, n: nat, m: nat, k: Key)
    requires IsRun(iv, reqs, run) && n <= m < |run.states|
    requires k in run.states[n].rows && run.states[n].rows[k].status.Completed?
    requires run.states[m].clock < run.states[n].rows[k].expiresAt
    ensures k in run.states[m].rows && run.states[m].rows[k] == run.states[n].rows[k]
    decreases m
  {
    if n < m {
      assert Steps(iv, reqs, run, m - 1);
      var s, st := run.states[m - 1], run.steps[m - 1];
      RecordedAnswerIsStable(iv, reqs, run, n, m - 1, k);
      AlwaysGood(iv, reqs, run, m - 1);
      if st.TryClaim? {
        assert PhaseGood(reqs[st.r], s.phases[st.r], s.clock);
      }
    }
  }

  /**
   While the window lasts, every upsert under the key fails, and every read under it replays
   the recorded status, body and content type to the same request, whatever key versions
   either was made under, and refuses every other request.
   */
  lemma RecordedAnswerIsReplayed(iv: Intervals, reqs: seq<Request>, run: Run, n: nat, m: nat, r: nat)
    requires IsRun(iv, reqs, run) && n <= m < |run.steps| && r < |reqs|
    requires var k := reqs[r].key;
             && k in run.states[n].rows && run.states[n].rows[k].status.Completed?
             && run.states[m].clock < run.states[n].rows[k].expiresAt
    ensures Good(iv, reqs, run.states[n]) && Good(iv, reqs, run.states[m + 1])
    ensures run.steps[m] == TryClaim(r) ==> run.states[m + 1].phases[r].Reading?
    ensures run.steps[m] == Read(r) ==>
              var cell := CellOf(run.states[n].rows, reqs[r].key);
              && cell.Done?
              && run.states[m + 1].phases[r].Answered?
              && var answer := run.states[m + 1].phases[r].answer;
              if cell.text == reqs[r].text
              then answer.Replay? && answer.response == cell.response
              else answer == Mismatch
  {
    hide Next, AllWellShaped, CellOf, PhaseGood;
    var k := reqs[r].key;
    AlwaysGood(iv, reqs, run, n);
    AlwaysGood(iv, reqs, run, m);
    AlwaysGood(iv, reqs, run, m + 1);
    RecordedAnswerIsStable(iv, reqs, run, n, m, k);
    assert Steps(iv, reqs, run, m);
    if run.steps[m] == Read(r) {
      ReadOfCompleted(iv, reqs, run.states[m], r);
      SameRowSameCell(run.states[n].rows, run.states[m].rows, k);
    } else if run.steps[m] == TryClaim(r) {
      ClaimOfCompleted(iv, reqs, run.states[m], r);
    }
  }

  lemma SameRowSameCell(a: Rows, b: Rows, k: Key)
    requires AllWellShaped(a) && AllWellShaped(b) && k in a && k in b && a[k] == b[k]
    ensures CellOf(a, k) == CellOf(b, k)
  {
  }

  lemma ReadOfCompleted(iv: Intervals, reqs: seq<Request>, s: State, r: nat)
    requires Good(iv, reqs, s) && r < |reqs| && Enabled(s, Read(r))
    requires reqs[r].key in s.rows && s.rows[reqs[r].key].status.Completed?
    ensures var cell, phase := CellOf(s.rows, reqs[r].key), Next(iv, reqs, s, Read(r)).phases[r];
            && cell.Done? && phase.Answered?
            && if cell.text == reqs[r].text
               then phase.answer.Replay? && phase.answer.response == cell.response
               else phase.answer == Mismatch
  {
    var k := reqs[r].key;
    assert WellShaped(k, s.rows[k]);
    JudgeReadsTheCell(s.rows, k, reqs[r].text, s.phases[r].version);
  }

  lemma ClaimOfCompleted(iv: Intervals, reqs: seq<Request>, s: State, r: nat)
    requires Good(iv, reqs, s) && r < |reqs| && Enabled(s, TryClaim(r))
    requires reqs[r].key in s.rows && s.rows[reqs[r].key].status.Completed?
    requires s.clock < s.rows[reqs[r].key].expiresAt
    ensures Next(iv, reqs, s, TryClaim(r)).phases[r].Reading?
  {
    assert PhaseGood(reqs[r], s.phases[r], s.clock);
  }

  // ---------- The retry loop ----------

  function Upserts(steps: seq<Step>, r: nat): nat {
    if steps == [] then 0
    else Upserts(steps[..|steps| - 1], r) + if steps[|steps| - 1] == TryClaim(r) then 1 else 0
  }

  predicate UpsertsSpent(p: Phase, spent: nat) {
    match p
    case Arrived => spent == 0
    case Claiming(attempt, _, _) => spent == attempt <= 1
    case Reading(attempt, _, _) => spent == attempt + 1 <= 2
    case _ => spent <= 2
  }

  /** A request makes at most two upserts, whatever the others do. */
  lemma {:induction false} AtMostTwoUpserts(iv: Intervals, reqs: seq<Request>, run: Run, n: nat, r: nat)
    requires IsRun(iv, reqs, run) && n < |run.states| && r < |reqs|
    ensures |run.states[n].phases| == |reqs|
    ensures UpsertsSpent(run.states[n].phases[r], Upserts(run.steps[..n], r)) && Upserts(run.steps[..n], r) <= 2
  {
    if n == 0 {
    } else {
      AtMostTwoUpserts(iv, reqs, run, n - 1, r);
      assert Steps(iv, reqs, run, n - 1);
      assert run.steps[..n][..n - 1] == run.steps[..n - 1];
    }
  }

  /** Between an instant that has a key's row and a later one that has none, some request released it. */
  lemma {:induction false} AbsenceNeedsRelease(iv: Intervals, reqs: seq<Request>, run: Run, n: nat, m: nat, k: Key)
    returns (d: nat)
    requires IsRun(iv, reqs, run) && n <= m < |run.states|
    requires k in run.states[n].rows && k !in run.states[m].rows
    ensures n <= d < m && ReleasesRow(reqs, run, d, k)
    decreases m
  {
    assert Steps(iv, reqs, run, m - 1);
    if k in run.states[m - 1].rows {
      d := m - 1;
    } else {
      d := AbsenceNeedsRelease(iv, reqs, run, n, m - 1, k);
    }
  }

  ghost predicate ReleasesRow(reqs: seq<Request>, run: Run, d: nat, k: Key) {
    && d < |run.steps| && |run.states| == |run.steps| + 1
    && run.steps[d].Release? && run.steps[d].r < |reqs| && reqs[run.steps[d].r].key == k
    && k in run.states[d].rows && k !in run.states[d + 1].rows
  }

  /** A request that is reading got there by an upsert the row refused. */
  lemma {:induction false} ReadingSince(iv: Intervals, reqs: seq<Request>, run: Run, n: nat, r: nat) returns (u: nat)
    requires IsRun(iv, reqs, run) && n < |run.states| && r < |reqs|
    requires |run.states[n].phases| == |reqs| && run.states[n].phases[r].Reading?
    ensures u < n && run.steps[u] == TryClaim(r) && reqs[r].key in run.states[u + 1].rows
    ensures |run.states[u].phases| == |reqs| && run.states[u].phases[r].Claiming?
    ensures run.states[u].phases[r].attempt == run.states[n].phases[r].attempt
  {
    if n == 0 {
      assert false;
    } else {
      assert Steps(iv, reqs, run, n - 1);
      if run.steps[n - 1] == TryClaim(r) {
        u := n - 1;
      } else {
        u := ReadingSince(iv, reqs, run, n - 1, r);
      }
    }
  }

  /** A request on its second attempt got there by a read that found no row. */
  lemma {:induction false} RetryingSince(iv: Intervals, reqs: seq<Request>, run: Run, n: nat, r: nat) returns (q: nat)
    requires IsRun(iv, reqs, run) && n < |run.states| && r < |reqs|
    requires |run.states[n].phases| == |reqs| && run.states[n].phases[r].Claiming?
             && run.states[n].phases[r].attempt > 0
    ensures q < n && run.steps[q] == Read(r) && reqs[r].key !in run.states[q].rows
    ensures |run.states[q].phases| == |reqs| && run.states[q].phases[r].Reading?
  {
    if n == 0 {
      assert false;
    } else {
      assert Steps(iv, reqs, run, n - 1);
      if run.steps[n - 1] == Read(r) {
        q := n - 1;
      } else {
        q := RetryingSince(iv, reqs, run, n - 1, r);
      }
    }
  }

  /**
   "The idempotency key could not be claimed" is reached only if the key's row was released
   by somebody between the upsert and the read of both attempts.
   */
  lemma UnclaimableNeedsTwoReleases(iv: Intervals, reqs: seq<Request>, run: Run, n: nat, r: nat)
    returns (u0: nat, d0: nat, q0: nat, u1: nat, d1: nat)
    requires IsRun(iv, reqs, run) && n < |run.steps| && r < |reqs|
    requires run.steps[n] == Read(r)
    requires |run.states[n + 1].phases| == |reqs| && run.states[n + 1].phases[r] == Answered(Unclaimable)
    ensures u0 < d0 < q0 < u1 < d1 < n
    ensures run.steps[u0] == TryClaim(r) && run.steps[q0] == Read(r) && run.steps[u1] == TryClaim(r)
    ensures ReleasesRow(reqs, run, d0, reqs[r].key) && ReleasesRow(reqs, run, d1, reqs[r].key)
  {
    var k := reqs[r].key;
    AlwaysGood(iv, reqs, run, n);
    assert Steps(iv, reqs, run, n);
    if k in run.states[n].rows {
      JudgeReadsTheCell(run.states[n].rows, k, reqs[r].text, run.states[n].phases[r].version);
    }
    u1 := ReadingSince(iv, reqs, run, n, r);
    d1 := AbsenceNeedsRelease(iv, reqs, run, u1 + 1, n, k);
    q0 := RetryingSince(iv, reqs, run, u1, r);
    u0 := ReadingSince(iv, reqs, run, q0, r);
    d0 := AbsenceNeedsRelease(iv, reqs, run, u0 + 1, q0, k);
  }

  // ---------- At most one handler, and exactly when ----------

  /** Every handler that is still running started less than d ago. */
  ghost predicate Within(d: nat, s: State) {
    forall r | 0 <= r < |s.phases| && s.phases[r].Handling? :: s.clock < s.phases[r].claimedAt + d
  }

  ghost predicate RunWithin(d: nat, iv: Intervals, reqs: seq<Request>, run: Run) {
    IsRun(iv, reqs, run) && forall n | 0 <= n < |run.states| :: Within(d, run.states[n])
  }

  ghost predicate AtMostOneHandler(reqs: seq<Request>, s: State) {
    forall i: nat, j: nat | Handles(reqs, s, i) && Handles(reqs, s, j) && reqs[i].key == reqs[j].key :: i == j
  }

  /** A running handler's row is in flight under its own fingerprint and claim time. */
  ghost predicate Tied(reqs: seq<Request>, s: State, r: nat)
    requires Handles(reqs, s, r)
  {
    var k, p := reqs[r].key, s.phases[r];
    && k in s.rows && s.rows[k].status.InFlight?
    && s.rows[k].fingerprint == p.fingerprint && s.rows[k].keyVersion == p.version && s.rows[k].claimedAt == p.claimedAt
  }

  ghost predicate Exclusive(reqs: seq<Request>, s: State) {
    && (forall r: nat | Handles(reqs, s, r) :: Tied(reqs, s, r))
    && AtMostOneHandler(reqs, s)
  }

  lemma TimelyStepKeepsExclusive(d: nat, iv: Intervals, reqs: seq<Request>, s: State, st: Step)
    requires d <= iv.lease && d <= iv.window
    requires Good(iv, reqs, s) && Within(d, s) && Exclusive(reqs, s) && Enabled(s, st)
    ensures Exclusive(reqs, Next(iv, reqs, s, st))
  {
    var s' := Next(iv, reqs, s, st);
    if st.Tick? {
      assert forall r: nat :: Handles(reqs, s', r) ==> Handles(reqs, s, r) && Tied(reqs, s, r);
    } else {
      assert PhaseGood(reqs[st.r], s.phases[st.r], s.clock);
      forall r: nat | Handles(reqs, s', r)
        ensures Tied(reqs, s', r)
        ensures r != st.r ==> Handles(reqs, s, r) && (s'.phases[st.r].Handling? ==> reqs[r].key != reqs[st.r].key)
      {
        if r != st.r {
          assert Handles(reqs, s, r) && Tied(reqs, s, r);
        }
      }
    }
  }

  /**
   Safety over whole runs: if handlers run for less than both the lease and the replay window,
   no two handlers ever run under one key, and each one's row is its own.
   */
  lemma {:induction false} TimelyRunsAreExclusive(d: nat, iv: Intervals, reqs: seq<Request>, run: Run, n: nat)
    requires d <= iv.lease && d <= iv.window
    requires RunWithin(d, iv, reqs, run) && n < |run.states|
    ensures Exclusive(reqs, run.states[n])
  {
    if n == 0 {
    } else {
      TimelyRunsAreExclusive(d, iv, reqs, run, n - 1);
      AlwaysGood(iv, reqs, run, n - 1);
      assert Steps(iv, reqs, run, n - 1);
      TimelyStepKeepsExclusive(d, iv, reqs, run.states[n - 1], run.steps[n - 1]);
    }
  }

  /** Two arrivals of one request, the second claiming after a wait. */
  function TwiceAfter(iv: Intervals, req: Request, wait: nat): Run
  {
    var fp := FingerprintFor(req.key, 1, req.text);
    var s0 := State(0, map[], [Arrived, Arrived]);
    var s1 := s0.(phases := [Claiming(0, 0, 1), Arrived]);
    var s2 := State(0, map[req.key := FreshRow(fp, 1, 0, iv)], [Handling(fp, 1, 0), Arrived]);
    var s3 := s2.(clock := wait);
    var s4 := s3.(phases := [Handling(fp, 1, 0), Claiming(0, wait, 1)]);
    var s5 := State(wait, map[req.key := FreshRow(fp, 1, wait, iv)], [Handling(fp, 1, 0), Handling(fp, 1, wait)]);
    Run([s0, s1, s2, s3, s4, s5], [Begin(0, 1), TryClaim(0), Tick(wait), Begin(1, 1), TryClaim(1)])
  }

  /**
   A handler that outlives its lease, or the window, is not alone: the same request claims the
   key again and both run.
   */
  lemma OverrunLetsTwoRun(iv: Intervals, req: Request, wait: nat)
    requires iv.lease <= wait || iv.window <= wait
    ensures IsRun(iv, [req, req], TwiceAfter(iv, req, wait))
    ensures !AtMostOneHandler([req, req], TwiceAfter(iv, req, wait).states[5])
    ensures forall d: nat | wait < d :: RunWithin(d, iv, [req, req], TwiceAfter(iv, req, wait))
  {
    var reqs, run := [req, req], TwiceAfter(iv, req, wait);
    var fp := FingerprintFor(req.key, 1, req.text);
    assert run.states[2].rows == Execute(map[], ClaimRow(req.key, fp, 1, 0, iv));
    assert run.states[5].rows == Execute(run.states[4].rows, ClaimRow(req.key, fp, 1, wait, iv));
    assert Steps(iv, reqs, run, 0) && Steps(iv, reqs, run, 1) && Steps(iv, reqs, run, 2);
    assert Steps(iv, reqs, run, 3) && Steps(iv, reqs, run, 4);
    assert Handles(reqs, run.states[5], 0) && Handles(reqs, run.states[5], 1);
  }

  ghost predicate SafeWithin(d: nat, iv: Intervals) {
    forall reqs, run, n: nat | RunWithin(d, iv, reqs, run) && n < |run.states| :: AtMostOneHandler(reqs, run.states[n])
  }

  /** Handlers that run for less than d are alone exactly when d is at most the lease and the window. */
  lemma SafeExactly(d: nat, iv: Intervals)
    ensures SafeWithin(d, iv) <==> d <= iv.lease && d <= iv.window
  {
    if d <= iv.lease && d <= iv.window {
      forall reqs, run, n: nat | RunWithin(d, iv, reqs, run) && n < |run.states|
        ensures AtMostOneHandler(reqs, run.states[n])
      {
        TimelyRunsAreExclusive(d, iv, reqs, run, n);
      }
    } else {
      var req, wait := Request(Key([], [], []), []), if iv.lease < iv.window then iv.lease else iv.window;
      OverrunLetsTwoRun(iv, req, wait);
      var run := TwiceAfter(iv, req, wait);
      assert RunWithin(d, iv, [req, req], run) && |run.states| == 6;
      assert !AtMostOneHandler([req, req], run.states[5]);
    }
  }

  /** So handlers that finish within the lease are alone exactly when the lease is no longer than the window. */
  lemma TimelySafetyExactly(iv: Intervals)
    ensures SafeWithin(iv.lease, iv) <==> iv.lease <= iv.window
  {
    SafeExactly(iv.lease, iv);
  }

  /** The intervals the code ships with are of that kind: ten minutes and a day. */
  lemma ShippedIntervalsAreSafe(d: nat)
    ensures DEFAULT_INTERVALS.window == 86400 && DEFAULT_INTERVALS.lease == 600
    ensures SafeWithin(d, DEFAULT_INTERVALS) <==> d <= 600
  {
    SafeExactly(d, DEFAULT_INTERVALS);
  }
}
