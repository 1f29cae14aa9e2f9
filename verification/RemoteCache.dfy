/**
 The secret manager behind HTTP and the copy kept of its answers (HttpSecretStore in
 packages/providers/src/credentials.ts): as an object, one call at a time, and as a machine in
 which calls, puts, other writers and the clock interleave over one reference.
 */
module RemoteCache {
  import opened Options
  import SecretLayers

  type Ref = string
  type Material = map<string, string>

  /** Material with no fields is nothing stored. */
  predicate IsStored(content: Option<Material>) {
    content.Some? && content.value != map[]
  }

  // ---------- The machine ----------

  /** A version of the content, and when it was asked for, answered and put in the cache. */
  datatype Served = Served(version: nat, requestedAt: int, answeredAt: int, filledAt: int)

  /** One call: a fetch or a describe, which load alike, or a put. */
  datatype Call =
    | Asked
    | Requesting(requestedAt: int)
    | Answered(version: nat, requestedAt: int, answeredAt: int)
    | Returned(served: Option<Served>, at: int)
    | Putting(material: Material)
    | Applied(version: nat)
    | Over

  /** versions[v] is what the manager holds from since[v] on; the last one is current. */
  datatype State = State(
    clock: int,
    versions: seq<Option<Material>>,
    since: seq<int>,
    cache: Option<Served>,
    calls: seq<Call>)

  datatype Step =
    | Advance(elapsed: nat)
    | External(content: Option<Material>)
    | Ask
    | Check(c: nat)
    | Answer(c: nat)
    | Fill(c: nat)
    | AskPut(material: Material)
    | Apply(c: nat)
    | ForgetAfterPut(c: nat)
    | Fail(c: nat)
    | ForgetAll

  predicate Enabled(s: State, st: Step) {
    match st
    case Advance(_) => true
    case External(_) => true
    case Ask => true
    case Check(c) => c < |s.calls| && s.calls[c].Asked?
    case Answer(c) => c < |s.calls| && s.calls[c].Requesting?
    case Fill(c) => c < |s.calls| && s.calls[c].Answered?
    case AskPut(_) => true
    case Apply(c) => c < |s.calls| && s.calls[c].Putting?
    case ForgetAfterPut(c) => c < |s.calls| && s.calls[c].Applied?
    case Fail(c) => c < |s.calls| && !s.calls[c].Returned? && !s.calls[c].Asked?
    case ForgetAll => true
  }

  function Changed(s: State, content: Option<Material>): State {
    s.(versions := s.versions + [content], since := s.since + [s.clock])
  }

  /** A put that fails may have been applied: the answer is what was lost. */
  function Next(s: State, st: Step, cacheMs: nat): State
    requires Enabled(s, st) && s.versions != []
  {
    match st
    case Advance(elapsed) => s.(clock := s.clock + elapsed)
    case External(content) => Changed(s, content)
    case Ask => s.(calls := s.calls + [Asked])
    case Check(c) =>
      s.(calls := s.calls[c := if s.cache.Some? && s.cache.value.filledAt + cacheMs > s.clock
                               then Returned(s.cache, s.clock) else Requesting(s.clock)])
    case Answer(c) =>
      var current := |s.versions| - 1;
      s.(calls := s.calls[c := if IsStored(s.versions[current])
                               then Answered(current, s.calls[c].requestedAt, s.clock)
                               else Returned(None, s.clock)])
    case Fill(c) =>
      var call := s.calls[c];
      var served := Some(Served(call.version, call.requestedAt, call.answeredAt, s.clock));
      s.(cache := served, calls := s.calls[c := Returned(served, s.clock)])
    case AskPut(material) => s.(calls := s.calls + [Putting(material)])
    case Apply(c) =>
      Changed(s, Some(s.calls[c].material)).(calls := s.calls[c := Applied(|s.versions|)])
    case ForgetAfterPut(c) => s.(cache := None, calls := s.calls[c := Over])
    case Fail(c) => s.(calls := s.calls[c := Over])
    case ForgetAll => s.(cache := None)
  }

  predicate Initial(s: State) {
    |s.versions| == |s.since| == 1 && s.since[0] <= s.clock && s.cache.None? && s.calls == []
  }

  datatype Run = Run(states: seq<State>, steps: seq<Step>)

  ghost predicate Steps(run: Run, n: nat, cacheMs: nat)
    requires n < |run.steps| && |run.states| == |run.steps| + 1
  {
    && run.states[n].versions != []
    && Enabled(run.states[n], run.steps[n])
    && run.states[n + 1] == Next(run.states[n], run.steps[n], cacheMs)
  }

  ghost predicate IsRun(run: Run, cacheMs: nat) {
    && |run.states| == |run.steps| + 1
    && Initial(run.states[0])
    && forall n | 0 <= n < |run.steps| :: Steps(run, n, cacheMs)
  }

  // ---------- Bounded staleness ----------

  /** Version v was what the manager held at instant t. */
  predicate HeldAt(s: State, v: nat, t: int)
    requires |s.versions| == |s.since|
  {
    v < |s.versions| && s.since[v] <= t <= s.clock && (v + 1 < |s.versions| ==> t <= s.since[v + 1])
  }

  predicate ServedGood(s: State, served: Served)
    requires |s.versions| == |s.since|
  {
    && HeldAt(s, served.version, served.answeredAt)
    && IsStored(s.versions[served.version])
    && served.requestedAt <= served.answeredAt <= served.filledAt <= s.clock
  }

  /** Returned as it was put in the cache, or before the cache time since then was over. */
  predicate Timely(served: Served, at: int, cacheMs: nat) {
    at == served.filledAt || served.filledAt <= at < served.filledAt + cacheMs
  }

  predicate CallGood(s: State, call: Call, cacheMs: nat)
    requires |s.versions| == |s.since|
  {
    match call
    case Requesting(requestedAt) => requestedAt <= s.clock
    case Answered(version, requestedAt, answeredAt) =>
      HeldAt(s, version, answeredAt) && IsStored(s.versions[version]) && requestedAt <= answeredAt
    case Returned(served, at) =>
      && at <= s.clock
      && (served.Some? ==> ServedGood(s, served.value) && Timely(served.value, at, cacheMs))
    case Asked => true
    case Putting(_) => true
    case Applied(version) => version < |s.versions|
    case Over => true
  }

  predicate Good(s: State, cacheMs: nat) {
    && s.versions != [] && |s.versions| == |s.since| && s.since[|s.since| - 1] <= s.clock
    && (s.cache.Some? ==> ServedGood(s, s.cache.value))
    && (forall c | 0 <= c < |s.calls| :: CallGood(s, s.calls[c], cacheMs))
  }

  /** What was good stays good when the clock moves on or the content changes. */
  lemma GoodGrows(s: State, s': State, call: Call, cacheMs: nat)
    requires s.versions != [] && |s.versions| == |s.since| && s.clock <= s'.clock
    requires s' == s.(clock := s'.clock, cache := s'.cache, calls := s'.calls)
             || exists content :: s' == Changed(s, content).(calls := s'.calls)
    requires CallGood(s, call, cacheMs)
    ensures CallGood(s', call, cacheMs)
  {
  }

  lemma StepKeepsGood(s: State, st: Step, cacheMs: nat)
    requires Good(s, cacheMs) && Enabled(s, st)
    ensures Good(Next(s, st, cacheMs), cacheMs)
  {
    hide CallGood, ServedGood;
    var s' := Next(s, st, cacheMs);
    StepKeepsOwnCall(s, st, cacheMs);
    StepKeepsCache(s, st, cacheMs);
    forall c | 0 <= c < |s'.calls|
      ensures CallGood(s', s'.calls[c], cacheMs)
    {
      if c < |s.calls| && s'.calls[c] == s.calls[c] {
        assert s' == s.(clock := s'.clock, cache := s'.cache, calls := s'.calls)
               || exists content :: s' == Changed(s, content).(calls := s'.calls) by {
          if st.External? {
            assert s' == Changed(s, st.content).(calls := s'.calls);
          } else if st.Apply? {
            assert s' == Changed(s, Some(s.calls[st.c].material)).(calls := s'.calls);
          }
        }
        GoodGrows(s, s', s.calls[c], cacheMs);
      }
    }
  }

  lemma StepKeepsOwnCall(s: State, st: Step, cacheMs: nat)
    requires Good(s, cacheMs) && Enabled(s, st)
    ensures var s' := Next(s, st, cacheMs);
            |s'.versions| == |s'.since|
            && forall c | 0 <= c < |s'.calls| && (c == |s.calls| || s'.calls[c] != s.calls[c])
               :: CallGood(s', s'.calls[c], cacheMs)
  {
    if st.Check? || st.Answer? || st.Fill? || st.Apply? || st.ForgetAfterPut? || st.Fail? {
      assert CallGood(s, s.calls[st.c], cacheMs);
    }
  }

  lemma StepKeepsCache(s: State, st: Step, cacheMs: nat)
    requires Good(s, cacheMs) && Enabled(s, st)
    ensures var s' := Next(s, st, cacheMs);
            |s'.versions| == |s'.since| && (s'.cache.Some? ==> ServedGood(s', s'.cache.value))
  {
    if st.Fill? {
      assert CallGood(s, s.calls[st.c], cacheMs);
    }
  }

  lemma {:induction false} AlwaysGood(run: Run, n: nat, cacheMs: nat)
    requires IsRun(run, cacheMs) && n < |run.states|
    ensures Good(run.states[n], cacheMs)
  {
    if n > 0 {
      AlwaysGood(run, n - 1, cacheMs);
      assert Steps(run, n - 1, cacheMs);
      StepKeepsGood(run.states[n - 1], run.steps[n - 1], cacheMs);
    }
  }

  /**
   Whatever interleaves: the material a call returns is what the manager held at some instant,
   and when it is returned that instant is no further back than the cache time plus the duration
   of the load that fetched it.
   */
  lemma StalenessIsBounded(run: Run, n: nat, c: nat, cacheMs: nat)
    requires IsRun(run, cacheMs) && n < |run.states|
    requires c < |run.states[n].calls| && run.states[n].calls[c].Returned? && run.states[n].calls[c].served.Some?
    ensures |run.states[n].versions| == |run.states[n].since|
    ensures var s := run.states[n];
            var served, at := s.calls[c].served.value, s.calls[c].at;
            && HeldAt(s, served.version, served.answeredAt)
            && s.versions[served.version].Some? && s.versions[served.version].value != map[]
            && served.requestedAt <= served.answeredAt <= served.filledAt <= at
            && (at == served.filledAt || at < served.filledAt + cacheMs)
            && at - served.answeredAt <= cacheMs + (served.filledAt - served.requestedAt)
  {
    AlwaysGood(run, n, cacheMs);
    assert CallGood(run.states[n], run.states[n].calls[c], cacheMs);
  }

  // ---------- When a put is seen ----------

  predicate CanRun(s: State, steps: seq<Step>, cacheMs: nat)
    requires s.versions != []
    decreases |steps|, 0
  {
    steps == [] ||
    (CanRun(s, steps[..|steps| - 1], cacheMs)
     && After(s, steps[..|steps| - 1], cacheMs).versions != []
     && Enabled(After(s, steps[..|steps| - 1], cacheMs), steps[|steps| - 1]))
  }

  function After(s: State, steps: seq<Step>, cacheMs: nat): State
    requires s.versions != [] && CanRun(s, steps, cacheMs)
    decreases |steps|, 1
  {
    if steps == [] then s else Next(After(s, steps[..|steps| - 1], cacheMs), steps[|steps| - 1], cacheMs)
  }

  /** Nothing older than version v can be served any more. */
  predicate Fresh(s: State, v: nat, from: nat) {
    && v < |s.versions|
    && (s.cache.Some? ==> v <= s.cache.value.version)
    && (forall c | 0 <= c < |s.calls| && s.calls[c].Answered? :: v <= s.calls[c].version)
    && SeesFrom(s, v, from)
  }

  /** Every call made from the from-th on that got material got version v or a later one. */
  predicate SeesFrom(s: State, v: nat, from: nat) {
    forall c | from <= c < |s.calls| && s.calls[c].Returned? && s.calls[c].served.Some?
      :: v <= s.calls[c].served.value.version
  }

  lemma StepKeepsFresh(s: State, st: Step, v: nat, from: nat, cacheMs: nat)
    requires Fresh(s, v, from) && Enabled(s, st)
    ensures Fresh(Next(s, st, cacheMs), v, from)
  {
  }

  lemma {:induction false} StaysFresh(s: State, steps: seq<Step>, v: nat, from: nat, cacheMs: nat)
    requires Fresh(s, v, from) && CanRun(s, steps, cacheMs)
    ensures Fresh(After(s, steps, cacheMs), v, from)
    decreases |steps|
  {
    if steps != [] {
      StaysFresh(s, steps[..|steps| - 1], v, from, cacheMs);
      StepKeepsFresh(After(s, steps[..|steps| - 1], cacheMs), steps[|steps| - 1], v, from, cacheMs);
    }
  }

  /** A load answered before version v that has still to fill the cache. */
  predicate OldLoadInFlight(s: State, v: nat) {
    exists c :: 0 <= c < |s.calls| && s.calls[c].Answered? && s.calls[c].version < v
  }

  ghost predicate AlwaysSees(s: State, v: nat, cacheMs: nat)
    requires s.versions != []
  {
    forall steps: seq<Step> :: CanRun(s, steps, cacheMs) ==> SeesFrom(After(s, steps, cacheMs), v, |s.calls|)
  }

  lemma ThreeSteps(s: State, a: Step, b: Step, d: Step, cacheMs: nat)
    requires s.versions != [] && Enabled(s, a)
    requires Next(s, a, cacheMs).versions != [] && Enabled(Next(s, a, cacheMs), b)
    requires Next(Next(s, a, cacheMs), b, cacheMs).versions != []
    requires Enabled(Next(Next(s, a, cacheMs), b, cacheMs), d)
    ensures CanRun(s, [a, b, d], cacheMs)
    ensures After(s, [a, b, d], cacheMs) == Next(Next(Next(s, a, cacheMs), b, cacheMs), d, cacheMs)
  {
    hide Next, Enabled;
    var none: seq<Step> := [];
    assert CanRun(s, none, cacheMs) && After(s, none, cacheMs) == s;
    assert [a][..0] == none;
    assert CanRun(s, [a], cacheMs) && After(s, [a], cacheMs) == Next(s, a, cacheMs);
    assert [a, b][..1] == [a];
    assert CanRun(s, [a, b], cacheMs) && After(s, [a, b], cacheMs) == Next(Next(s, a, cacheMs), b, cacheMs);
    assert [a, b, d][..2] == [a, b];
  }

  /** With no cache time nothing is served from the cache, so old loads on their way do no harm to later calls. */
  predicate Uncached(s: State, v: nat, from: nat) {
    && v < |s.versions|
    && from <= |s.calls|
    && (s.cache.Some? ==> s.cache.value.filledAt <= s.clock)
    && (forall c | from <= c < |s.calls| && s.calls[c].Answered? :: v <= s.calls[c].version)
    && SeesFrom(s, v, from)
  }

  lemma {:induction false} StaysUncached(s: State, steps: seq<Step>, v: nat, from: nat)
    requires Uncached(s, v, from) && CanRun(s, steps, 0)
    ensures Uncached(After(s, steps, 0), v, from)
    decreases |steps|
  {
    if steps != [] {
      StaysUncached(s, steps[..|steps| - 1], v, from);
      StepKeepsUncached(After(s, steps[..|steps| - 1], 0), steps[|steps| - 1], v, from);
    }
  }

  lemma StepKeepsUncached(s: State, st: Step, v: nat, from: nat)
    requires Uncached(s, v, from) && Enabled(s, st)
    ensures Uncached(Next(s, st, 0), v, from)
  {
  }

  /** With nothing cached, every later call sees version v or a newer one exactly when no older answer can fill it. */
  lemma EmptySeesExactly(s: State, v: nat, cacheMs: nat)
    requires v < |s.versions| && s.cache.None?
    ensures AlwaysSees(s, v, cacheMs) <==> !OldLoadInFlight(s, v) || cacheMs == 0
  {
    var from := |s.calls|;
    if cacheMs == 0 {
      forall steps: seq<Step> | CanRun(s, steps, cacheMs)
        ensures SeesFrom(After(s, steps, cacheMs), v, from)
      {
        StaysUncached(s, steps, v, from);
      }
    } else if !OldLoadInFlight(s, v) {
      assert Fresh(s, v, from);
      forall steps: seq<Step> | CanRun(s, steps, cacheMs)
        ensures SeesFrom(After(s, steps, cacheMs), v, from)
      {
        StaysFresh(s, steps, v, from, cacheMs);
      }
    } else {
      var c :| 0 <= c < |s.calls| && s.calls[c].Answered? && s.calls[c].version < v;
      OldLoadIsServed(s, c, v, cacheMs);
    }
  }

  /**
   A put that was applied as version v drops the copy when it hears so.  From there on every
   call sees that version or a newer one, for ever, if and only if no load that the manager
   answered before the put is still on its way, or there is no cache time.  When calls do not
   overlap none is.
   */
  lemma PutIsSeenExactly(s: State, c: nat, v: nat, cacheMs: nat)
    requires v < |s.versions| && c < |s.calls| && s.calls[c] == Applied(v)
    ensures Enabled(s, ForgetAfterPut(c)) && Next(s, ForgetAfterPut(c), cacheMs).versions == s.versions
    ensures AlwaysSees(Next(s, ForgetAfterPut(c), cacheMs), v, cacheMs) <==>
            cacheMs == 0 || forall k | 0 <= k < |s.calls| && s.calls[k].Answered? :: v <= s.calls[k].version
  {
    hide CanRun, After;
    var after := Next(s, ForgetAfterPut(c), cacheMs);
    EmptySeesExactly(after, v, cacheMs);
    if k :| 0 <= k < |s.calls| && s.calls[k].Answered? && s.calls[k].version < v {
      assert after.calls[k] == s.calls[k];
    }
  }

  /** What is applied is the put's material, as the version from then on. */
  lemma PutIsAppliedExactly(s: State, c: nat, cacheMs: nat)
    requires s.versions != [] && c < |s.calls| && s.calls[c].Putting?
    ensures var after := Next(s, Apply(c), cacheMs);
            && after.calls[c].Applied?
            && after.calls[c].version == |s.versions| == |after.versions| - 1
            && after.versions[..|s.versions|] == s.versions
            && after.versions[|s.versions|] == Some(s.calls[c].material)
            && after.since == s.since + [s.clock]
  {
  }

  /** However long it waits, a call is served the copy exactly while its cache time is not over. */
  lemma ServedTheCopyExactly(s: State, c: nat, elapsed: nat, cacheMs: nat)
    requires s.versions != [] && c < |s.calls| && s.calls[c].Asked?
    ensures var now := s.clock + elapsed;
            Next(Next(s, Advance(elapsed), cacheMs), Check(c), cacheMs).calls[c] ==
            if s.cache.Some? && now - s.cache.value.filledAt < cacheMs then Returned(s.cache, now) else Requesting(now)
  {
  }

  /** The old answer fills the cache after the put emptied it, and the next call is given it. */
  lemma OldLoadIsServed(s: State, c: nat, v: nat, cacheMs: nat)
    requires s.versions != [] && 0 < cacheMs
    requires c < |s.calls| && s.calls[c].Answered? && s.calls[c].version < v
    ensures CanRun(s, [Fill(c), Ask, Check(|s.calls|)], cacheMs)
    ensures !SeesFrom(After(s, [Fill(c), Ask, Check(|s.calls|)], cacheMs), v, |s.calls|)
  {
    var s1 := Next(s, Fill(c), cacheMs);
    var s2 := Next(s1, Ask, cacheMs);
    var s3 := Next(s2, Check(|s.calls|), cacheMs);
    assert s3.calls[|s.calls|] == Returned(s1.cache, s.clock);
    ThreeSteps(s, Fill(c), Ask, Check(|s.calls|), cacheMs);
  }

  /** A load is answered, a put is applied, and the put drops the copy before the load fills it. */
  function StaleRun(before: Material, after: Material): Run {
    var one, both := [Some(before)], [Some(before), Some(after)];
    var s3 := State(0, one, [0], None, [Answered(0, 0, 0)]);
    Run([State(0, one, [0], None, []),
         State(0, one, [0], None, [Asked]),
         State(0, one, [0], None, [Requesting(0)]),
         s3,
         s3.(calls := [Answered(0, 0, 0), Putting(after)]),
         State(0, both, [0, 0], None, [Answered(0, 0, 0), Applied(1)]),
         State(0, both, [0, 0], None, [Answered(0, 0, 0), Over])],
        [Ask, Check(0), Answer(0), AskPut(after), Apply(1), ForgetAfterPut(1)])
  }

  lemma StaleLoad(before: Material, after: Material, cacheMs: nat)
    requires before != map[]
    ensures var run := StaleRun(before, after);
            Steps(run, 0, cacheMs) && Steps(run, 1, cacheMs) && Steps(run, 2, cacheMs)
  {
  }

  lemma StalePut(before: Material, after: Material, cacheMs: nat)
    ensures var run := StaleRun(before, after);
            Steps(run, 3, cacheMs) && Steps(run, 4, cacheMs) && Steps(run, 5, cacheMs)
  {
  }

  /** So the state in which an old load is still on its way after a put is reached. */
  lemma OldLoadIsReached(before: Material, after: Material, cacheMs: nat)
    requires before != map[]
    ensures var run := StaleRun(before, after);
            && IsRun(run, cacheMs) && |run.states| == 7
            && var s := run.states[6];
               |s.versions| == 2 && s.versions[1] == Some(after) && s.cache.None? && OldLoadInFlight(s, 1)
  {
    hide Steps;
    StaleLoad(before, after, cacheMs);
    StalePut(before, after, cacheMs);
    assert StaleRun(before, after).states[6].calls[0] == Answered(0, 0, 0);
  }

  // ---------- The store as an object, one call at a time ----------

  datatype Result = Got(material: Material) | NoMaterial | Unavailable

  datatype Cached = Cached(material: Material, expiresAt: int)

  class HttpSecretStore {
    const cacheMs: nat
    var cache: map<Ref, Cached>
    /** What the manager holds, which nothing but this store's puts changes here. */
    var held: map<Ref, Material>

    ghost predicate Valid()
      reads this
    {
      forall ref | ref in cache :: ref in held && held[ref] == cache[ref].material && held[ref] != map[]
    }

    constructor (cacheMs: nat, held: map<Ref, Material>)
      ensures Valid() && this.cacheMs == cacheMs && this.held == held && cache == map[]
    {
      this.cacheMs, this.held, this.cache := cacheMs, held, map[];
    }

    /** One request.  `status` is the manager's answer when it is not the content. */
    method Load(ref: Ref, status: int, now: int) returns (r: Result)
      requires Valid()
      modifies this`cache
      ensures Valid()
      ensures r == if 400 <= status && status != 404 then Unavailable
                   else if status == 404 || ref !in held || held[ref] == map[] then NoMaterial
                   else Got(held[ref])
      ensures cache == if r.Got? then old(cache)[ref := Cached(r.material, now + cacheMs)] else old(cache)
    {
      if status == 404 {
        return NoMaterial;
      }
      if status >= 400 {
        return Unavailable;
      }
      if ref !in held || held[ref] == map[] {
        return NoMaterial;
      }
      cache := cache[ref := Cached(held[ref], now + cacheMs)];
      return Got(held[ref]);
    }

    /** Calls that do not overlap: whatever is served is what the manager holds. */
    method Fetch(ref: Ref, now: int, status: int, later: int) returns (r: Result)
      requires Valid()
      modifies this`cache
      ensures Valid()
      ensures r.Got? ==> ref in held && r.material == held[ref] && r.material != map[]
      ensures r == if ref in old(cache) && old(cache)[ref].expiresAt > now then Got(held[ref])
                   else if 400 <= status && status != 404 then Unavailable
                   else if status == 404 || ref !in held || held[ref] == map[] then NoMaterial
                   else Got(held[ref])
      ensures forall other | other != ref ::
                (other in cache <==> other in old(cache)) && (other in cache ==> cache[other] == old(cache)[other])
    {
      if ref in cache && cache[ref].expiresAt > now {
        return Got(cache[ref].material);
      }
      r := Load(ref, status, later);
    }

    /** The description of what a fetch at the same instant would have been given, if it would have been given any. */
    method Describe(ref: Ref, now: int, status: int, later: int) returns (r: SecretLayers.Described)
      requires Valid()
      modifies this`cache
      ensures Valid()
      ensures r == if ref in old(cache) && old(cache)[ref].expiresAt > now
                   then SecretLayers.Said(SecretLayers.DescribeMaterial(held[ref], None))
                   else if 400 <= status && status != 404 then SecretLayers.Failed(SecretLayers.Unavailable)
                   else if status == 404 || ref !in held || held[ref] == map[] then SecretLayers.Nothing
                   else SecretLayers.Said(SecretLayers.DescribeMaterial(held[ref], None))
    {
      if ref in cache && cache[ref].expiresAt > now {
        return SecretLayers.DescribeStored(Some(cache[ref].material), None);
      }
      var loaded := Load(ref, status, later);
      match loaded
      case Got(material) => return SecretLayers.DescribeStored(Some(material), None);
      case NoMaterial => return SecretLayers.DescribeStored(None, None);
      case Unavailable => return SecretLayers.Failed(SecretLayers.Unavailable);
    }

    method Put(ref: Ref, material: Material, status: int) returns (ok: bool)
      requires Valid()
      modifies this
      ensures Valid()
      ensures ok == (status < 400)
      ensures ok ==> held == old(held)[ref := material] && ref !in cache && cache == old(cache) - {ref}
      ensures !ok ==> held == old(held) && cache == old(cache)
    {
      if status >= 400 {
        return false;
      }
      held := held[ref := material];
      Forget(Some(ref));
      return true;
    }

    method Forget(ref: Option<Ref>)
      modifies this`cache
      ensures cache == if ref.None? then map[] else old(cache) - {ref.value}
    {
      cache := if ref.None? then map[] else cache - {ref.value};
    }

    /** A fetch right after a put that the manager took returns what was put. */
    method PutThenFetch(ref: Ref, material: Material, putStatus: int, now: int, status: int, later: int)
      returns (r: Result)
      requires Valid() && putStatus < 400 && status < 400
      modifies this
      ensures Valid()
      ensures r == if material == map[] then NoMaterial else Got(material)
    {
      var ok := Put(ref, material, putStatus);
      r := Fetch(ref, now, status, later);
    }
  }
}
