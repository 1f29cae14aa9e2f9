/**
 The sealed secret file (packages/providers/src/sealed-store.ts): readers that keep a parsed
 copy under the stat they took before reading, and puts chained one after another, each of
 which reads, reseals and renames a new file over the old one.
 */
module SealedStore {
  import opened Options
  import PromiseChain

  type Ref = string
  type Material = map<string, string>

  type Key = int

  /** The key source: the version to write with, and the key of every version it can read. */
  datatype Keys = Keys(current: nat, held: map<nat, Key>)

  /** The version a secret is sealed with and that version's key. */
  datatype Using = Using(version: nat, key: Key)

  /** An entry names its key version; its ciphertext is of one key, one reference and one material. */
  datatype Entry = Entry(keyVersion: nat, sealedWith: Key, boundTo: Ref, material: Material)

  /** It opens under its own reference, with the key its version has now, if that is the key it was sealed with. */
  function Open(ref: Ref, e: Entry, held: map<nat, Key>): Option<Material> {
    if e.keyVersion in held && held[e.keyVersion] == e.sealedWith && e.boundTo == ref then Some(e.material) else None
  }

  type Entries = map<Ref, Entry>

  /** What is on disk: nothing yet, a file of ours, or something that does not parse. */
  datatype File = Absent | Sealed(entries: Entries) | Garbage

  function EntriesOf(f: File): Entries {
    if f.Sealed? then f.entries else map[]
  }

  /** The cache: the stat of one version and the content of another. */
  datatype Cached = Cached(statOf: nat, contentOf: nat)

  /**
   One call of #read.  `start` is the version on disk when it began, `end` when it returned;
   `stat` is the version whose stat it got, `content` the version it returns.
   */
  datatype Read =
    | Asked(start: nat)
    | Statted(start: nat, stat: nat)
    | Loading(start: nat, stat: nat)
    | Loaded(start: nat, stat: nat, content: nat)
    | Returned(start: nat, content: nat, end: nat)
    | Failed

  datatype Put = Put(ref: Ref, material: Material)

  /** The body of one put: it reads the file, asks for the current version and then for its key, and renames. */
  datatype Body =
    | NotStarted
    | Reads(r: nat)
    | Choosing(r: nat, version: nat)
    | Keyed(r: nat, using: Using)
    | Renamed(using: Using)
    | Saved(using: Using)
    | Lost

  /** Before its rename. */
  predicate Working(b: Body) {
    b.Reads? || b.Choosing? || b.Keyed?
  }

  datatype State = State(
    versions: seq<File>,
    keys: Keys,
    cache: Option<Cached>,
    readers: seq<Read>,
    puts: seq<Put>,
    bodies: seq<Body>,
    chain: PromiseChain.State)

  /** A step is a system call, or a stretch of code between two awaits. */
  datatype Step =
    | External(file: File)
    | ChangeKeys(keys: Keys)
    | Ask
    | Stat(r: nat)
    | Resume(r: nat)
    | Load(r: nat)
    | Parse(r: nat)
    | FailRead(r: nat)
    | Issue(put: Put)
    | StartPut(i: nat)
    | TakeVersion(i: nat)
    | TakeKey(i: nat)
    | Rename(i: nat)
    | Clear(i: nat)
    | FailPut(i: nat)
    | SettlePut(i: nat)

  function Current(s: State): nat
    requires s.versions != []
  {
    |s.versions| - 1
  }

  predicate Sized(s: State) {
    s.versions != [] && |s.puts| == |s.bodies| == |s.chain.jobs| == |s.chain.tails|
  }

  predicate Enabled(s: State, st: Step) {
    Sized(s)
    && match st
       case External(_) => true
       case ChangeKeys(_) => true
       case Ask => true
       case Stat(r) => r < |s.readers| && s.readers[r].Asked?
       case Resume(r) => r < |s.readers| && s.readers[r].Statted? && s.readers[r].stat <= Current(s)
       case Load(r) => r < |s.readers| && s.readers[r].Loading?
       case Parse(r) => r < |s.readers| && s.readers[r].Loaded? && s.readers[r].content <= Current(s)
       case FailRead(r) => r < |s.readers| && !s.readers[r].Returned?
       case Issue(_) => true
       case StartPut(i) =>
         i < |s.puts| && s.bodies[i].NotStarted? && PromiseChain.Enabled(s.chain, PromiseChain.Start(i))
       case TakeVersion(i) =>
         i < |s.puts| && s.bodies[i].Reads? && s.bodies[i].r < |s.readers| && s.readers[s.bodies[i].r].Returned?
       case TakeKey(i) => i < |s.puts| && s.bodies[i].Choosing? && s.bodies[i].version in s.keys.held
       case Rename(i) =>
         i < |s.puts| && s.bodies[i].Keyed? && s.bodies[i].r < |s.readers| && s.readers[s.bodies[i].r].Returned?
         && s.readers[s.bodies[i].r].content <= Current(s)
       case Clear(i) =>
         i < |s.puts| && s.bodies[i].Renamed? && PromiseChain.Enabled(s.chain, PromiseChain.Finish(i, true))
       case FailPut(i) =>
         i < |s.puts| && Working(s.bodies[i]) && PromiseChain.Enabled(s.chain, PromiseChain.Finish(i, false))
       case SettlePut(i) => PromiseChain.Enabled(s.chain, PromiseChain.Settle(i))
  }

  function Chained(s: State, st: PromiseChain.Step): PromiseChain.State
    requires PromiseChain.Enabled(s.chain, st)
  {
    PromiseChain.Next(s.chain, st, true)
  }

  /** `stamp` gives the modification time and size a version is seen with. */
  function Next(s: State, st: Step, stamp: nat -> int): State
    requires Enabled(s, st)
  {
    var cur := Current(s);
    match st
    case External(file) => s.(versions := s.versions + [file])
    case ChangeKeys(keys) => s.(keys := keys)
    case Ask => s.(readers := s.readers + [Asked(cur)])
    case Stat(r) => s.(readers := s.readers[r := Statted(s.readers[r].start, cur)])
    case Resume(r) =>
      var read := s.readers[r];
      s.(readers := s.readers[r :=
        if s.versions[read.stat].Absent? then Returned(read.start, read.stat, cur)
        else if s.cache.Some? && stamp(s.cache.value.statOf) == stamp(read.stat)
        then Returned(read.start, s.cache.value.contentOf, cur)
        else Loading(read.start, read.stat)])
    case Load(r) => s.(readers := s.readers[r := Loaded(s.readers[r].start, s.readers[r].stat, cur)])
    case Parse(r) =>
      var read := s.readers[r];
      if !s.versions[read.content].Sealed? then s.(readers := s.readers[r := Failed])
      else s.(cache := Some(Cached(read.stat, read.content)),
              readers := s.readers[r := Returned(read.start, read.content, cur)])
    case FailRead(r) => s.(readers := s.readers[r := Failed])
    case Issue(put) =>
      s.(puts := s.puts + [put], bodies := s.bodies + [NotStarted], chain := Chained(s, PromiseChain.Issue))
    case StartPut(i) =>
      s.(readers := s.readers + [Asked(cur)], bodies := s.bodies[i := Reads(|s.readers|)],
         chain := Chained(s, PromiseChain.Start(i)))
    case TakeVersion(i) => s.(bodies := s.bodies[i := Choosing(s.bodies[i].r, s.keys.current)])
    case TakeKey(i) =>
      var version := s.bodies[i].version;
      s.(bodies := s.bodies[i := Keyed(s.bodies[i].r, Using(version, s.keys.held[version]))])
    case Rename(i) =>
      var put, read, using := s.puts[i], s.readers[s.bodies[i].r], s.bodies[i].using;
      s.(versions := s.versions + [Sealed(EntriesOf(s.versions[read.content])[put.ref := Seal(put, using)])],
         bodies := s.bodies[i := Renamed(using)])
    case Clear(i) =>
      s.(cache := None, bodies := s.bodies[i := Saved(s.bodies[i].using)],
         chain := Chained(s, PromiseChain.Finish(i, true)))
    case FailPut(i) =>
      s.(bodies := s.bodies[i := Lost], chain := Chained(s, PromiseChain.Finish(i, false)))
    case SettlePut(i) => s.(chain := Chained(s, PromiseChain.Settle(i)))
  }

  function Seal(put: Put, using: Using): Entry {
    Entry(using.version, using.key, put.ref, put.material)
  }

  predicate Initial(s: State) {
    && |s.versions| == 1 && s.cache.None? && s.readers == [] && s.puts == [] && s.bodies == []
    && s.chain == PromiseChain.EMPTY
  }

  datatype Run = Run(states: seq<State>, steps: seq<Step>)

  ghost predicate Steps(run: Run, n: nat, stamp: nat -> int)
    requires n < |run.steps| && |run.states| == |run.steps| + 1
  {
    Enabled(run.states[n], run.steps[n]) && run.states[n + 1] == Next(run.states[n], run.steps[n], stamp)
  }

  ghost predicate IsRun(run: Run, stamp: nat -> int) {
    && |run.states| == |run.steps| + 1
    && Initial(run.states[0])
    && forall n | 0 <= n < |run.steps| :: Steps(run, n, stamp)
  }

  /** No two versions are seen with the same modification time and size. */
  ghost predicate Distinct(stamp: nat -> int) {
    forall i: nat, j: nat :: stamp(i) == stamp(j) ==> i == j
  }

  // ---------- Reading is linearizable ----------

  predicate ReadGood(read: Read, cur: nat) {
    match read
    case Asked(start) => start <= cur
    case Statted(start, stat) => start <= stat <= cur
    case Loading(start, stat) => start <= stat <= cur
    case Loaded(start, stat, content) => start <= stat <= content <= cur
    case Returned(start, content, end) => start <= content <= end <= cur
    case Failed => true
  }

  /** The cache holds the stat of a version and the content of that version or a later one. */
  ghost predicate CacheGood(s: State)
    requires s.versions != []
  {
    s.cache.Some? ==>
      s.cache.value.statOf <= s.cache.value.contentOf <= Current(s) && s.versions[s.cache.value.contentOf].Sealed?
  }

  ghost predicate Good(s: State) {
    && Sized(s)
    && CacheGood(s)
    && (forall r | 0 <= r < |s.readers| :: ReadGood(s.readers[r], Current(s)))
  }

  lemma StepKeepsGood(s: State, st: Step, stamp: nat -> int)
    requires Distinct(stamp) && Good(s) && Enabled(s, st)
    ensures Good(Next(s, st, stamp))
  {
    hide Next, Enabled, ReadGood, CacheGood;
    CacheStaysGood(s, st, stamp);
    forall r | 0 <= r < |Next(s, st, stamp).readers|
      ensures ReadGood(Next(s, st, stamp).readers[r], Current(Next(s, st, stamp)))
    {
      ReaderStaysGood(s, st, stamp, r);
    }
  }

  lemma CacheStaysGood(s: State, st: Step, stamp: nat -> int)
    requires Distinct(stamp) && Good(s) && Enabled(s, st)
    ensures Sized(Next(s, st, stamp)) && CacheGood(Next(s, st, stamp))
  {
    if st.Parse? {
      assert ReadGood(s.readers[st.r], Current(s));
    }
  }

  lemma ReaderStaysGood(s: State, st: Step, stamp: nat -> int, r: nat)
    requires Distinct(stamp) && Good(s) && Enabled(s, st) && r < |Next(s, st, stamp).readers|
    ensures Sized(Next(s, st, stamp)) && ReadGood(Next(s, st, stamp).readers[r], Current(Next(s, st, stamp)))
  {
    if r < |s.readers| {
      assert ReadGood(s.readers[r], Current(s));
    }
  }

  lemma {:induction false} AlwaysGood(run: Run, n: nat, stamp: nat -> int)
    requires Distinct(stamp) && IsRun(run, stamp) && n < |run.states|
    ensures Good(run.states[n])
  {
    if n > 0 {
      AlwaysGood(run, n - 1, stamp);
      assert Steps(run, n - 1, stamp);
      StepKeepsGood(run.states[n - 1], run.steps[n - 1], stamp);
    }
  }

  /**
   Whatever readers, puts and other processes interleave, a read returns a version that was on
   disk at some instant between its start and its return.
   */
  lemma ReadsAreLinearizable(run: Run, n: nat, r: nat, stamp: nat -> int)
    requires Distinct(stamp) && IsRun(run, stamp) && n < |run.states|
    requires r < |run.states[n].readers| && run.states[n].readers[r].Returned?
    ensures var read := run.states[n].readers[r];
            read.start <= read.content <= read.end < |run.states[n].versions|
  {
    AlwaysGood(run, n, stamp);
    assert ReadGood(run.states[n].readers[r], Current(run.states[n]));
  }

  // ---------- ... exactly when versions do not look alike ----------

  ghost predicate AlwaysLinearizable(stamp: nat -> int) {
    forall run: Run, n: nat, r: nat ::
      IsRun(run, stamp) && n < |run.states| && r < |run.states[n].readers| && run.states[n].readers[r].Returned? ==>
        run.states[n].readers[r].start <= run.states[n].readers[r].content <= run.states[n].readers[r].end
  }

  function Last(run: Run): State
    requires run.states != []
  {
    run.states[|run.states| - 1]
  }

  function Extended(run: Run, st: Step, stamp: nat -> int): Run
    requires run.states != [] && Enabled(Last(run), st)
  {
    Run(run.states + [Next(Last(run), st, stamp)], run.steps + [st])
  }

  lemma ExtendedIsRun(run: Run, st: Step, stamp: nat -> int)
    requires IsRun(run, stamp) && Enabled(Last(run), st)
    ensures IsRun(Extended(run, st, stamp), stamp)
    ensures Last(Extended(run, st, stamp)) == Next(Last(run), st, stamp)
  {
    hide Enabled, Next;
    var run' := Extended(run, st, stamp);
    forall n | 0 <= n < |run'.steps|
      ensures Steps(run', n, stamp)
    {
      if n < |run.steps| {
        assert Steps(run, n, stamp);
      }
    }
  }

  ghost predicate AllSealed(s: State) {
    forall v | 0 <= v < |s.versions| :: s.versions[v].Sealed?
  }

  lemma {:induction false} Grow(run: Run, k: nat, stamp: nat -> int) returns (run': Run)
    requires IsRun(run, stamp) && Sized(Last(run)) && AllSealed(Last(run))
    ensures IsRun(run', stamp) && Sized(Last(run')) && AllSealed(Last(run'))
    ensures Current(Last(run')) == Current(Last(run)) + k
    ensures Last(run').cache == Last(run).cache && Last(run').readers == Last(run).readers
  {
    if k == 0 {
      run' := run;
    } else {
      var before := Grow(run, k - 1, stamp);
      ExtendedIsRun(before, External(Sealed(map[])), stamp);
      run' := Extended(before, External(Sealed(map[])), stamp);
    }
  }

  /** A read of a file that is not in the cache puts it there. */
  lemma FillCache(run: Run, stamp: nat -> int) returns (run': Run)
    requires IsRun(run, stamp) && Sized(Last(run)) && AllSealed(Last(run)) && Last(run).cache.None?
    ensures IsRun(run', stamp) && Sized(Last(run')) && AllSealed(Last(run'))
    ensures Current(Last(run')) == Current(Last(run))
    ensures Last(run').cache == Some(Cached(Current(Last(run)), Current(Last(run))))
  {
    var r := |Last(run).readers|;
    hide IsRun;
    ExtendedIsRun(run, Ask, stamp);
    run' := Extended(run, Ask, stamp);
    ExtendedIsRun(run', Stat(r), stamp);
    run' := Extended(run', Stat(r), stamp);
    ExtendedIsRun(run', Resume(r), stamp);
    run' := Extended(run', Resume(r), stamp);
    ExtendedIsRun(run', Load(r), stamp);
    run' := Extended(run', Load(r), stamp);
    ExtendedIsRun(run', Parse(r), stamp);
    run' := Extended(run', Parse(r), stamp);
  }

  /** A read that starts when the current file looks like the cached one is served the cached one. */
  lemma ServeLookalike(run: Run, i: nat, stamp: nat -> int) returns (run': Run)
    requires IsRun(run, stamp) && Sized(Last(run)) && AllSealed(Last(run))
    requires Last(run).cache == Some(Cached(i, i)) && stamp(i) == stamp(Current(Last(run)))
    ensures IsRun(run', stamp) && |Last(run').readers| == |Last(run).readers| + 1
    ensures Last(run').readers[|Last(run).readers|] == Returned(Current(Last(run)), i, Current(Last(run)))
  {
    var r := |Last(run).readers|;
    hide IsRun;
    ExtendedIsRun(run, Ask, stamp);
    run' := Extended(run, Ask, stamp);
    ExtendedIsRun(run', Stat(r), stamp);
    run' := Extended(run', Stat(r), stamp);
    ExtendedIsRun(run', Resume(r), stamp);
    run' := Extended(run', Resume(r), stamp);
  }

  lemma LookalikesBreakIt(i: nat, j: nat, stamp: nat -> int)
    requires i < j && stamp(i) == stamp(j)
    ensures !AlwaysLinearizable(stamp)
  {
    var start := State([Sealed(map[])], Keys(0, map[]), None, [], [], [], PromiseChain.EMPTY);
    var run := Grow(Run([start], []), i, stamp);
    run := FillCache(run, stamp);
    var r := |Last(run).readers|;
    run := Grow(run, j - i, stamp);
    assert Current(Last(run)) == j;
    run := ServeLookalike(run, i, stamp);
    var n := |run.states| - 1;
    assert run.states[n].readers[r] == Returned(j, i, j);
  }

  /** Every read of every run is linearizable if and only if no two versions look alike to stat. */
  lemma LinearizableExactly(stamp: nat -> int)
    ensures AlwaysLinearizable(stamp) <==> Distinct(stamp)
  {
    if Distinct(stamp) {
      forall run: Run, n: nat, r: nat | IsRun(run, stamp) && n < |run.states| && r < |run.states[n].readers|
                                        && run.states[n].readers[r].Returned?
        ensures run.states[n].readers[r].start <= run.states[n].readers[r].content <= run.states[n].readers[r].end
      {
        ReadsAreLinearizable(run, n, r, stamp);
      }
    } else {
      var i: nat, j: nat :| stamp(i) == stamp(j) && i != j;
      LookalikesBreakIt(if i < j then i else j, if i < j then j else i, stamp);
    }
  }

  // ---------- No put is lost ----------

  /** The entries after the first n puts, those that landed applied in the order they were issued. */
  function Folded(initial: Entries, puts: seq<Put>, bodies: seq<Body>, n: nat): Entries
    requires n <= |puts| == |bodies|
  {
    if n == 0 then initial
    else
      var before := Folded(initial, puts, bodies, n - 1);
      if Landed(bodies[n - 1]) then before[puts[n - 1].ref := Seal(puts[n - 1], bodies[n - 1].using)]
      else before
  }

  predicate Landed(b: Body) {
    b.Renamed? || b.Saved?
  }

  /** A put's body and its place in the chain. */
  predicate InStep(b: Body, j: PromiseChain.Job) {
    match b
    case NotStarted => j.Waiting?
    case Reads(_) => j.Running?
    case Choosing(_, _) => j.Running?
    case Keyed(_, _) => j.Running?
    case Renamed(_) => j.Running?
    case Saved(_) => j == PromiseChain.Done(true)
    case Lost => j == PromiseChain.Done(false)
  }

  ghost predicate Serial(s: State, initial: Entries) {
    && Sized(s)
    && PromiseChain.InOrder(s.chain)
    && (forall i | 0 <= i < |s.puts| :: InStep(s.bodies[i], s.chain.jobs[i]))
    && (forall i | 0 <= i < |s.puts| && Working(s.bodies[i]) :: OwnRead(s, s.bodies[i].r))
    && EntriesOf(s.versions[Current(s)]) == Folded(initial, s.puts, s.bodies, |s.puts|)
  }

  /** A put's own read began at the version that is still current. */
  predicate OwnRead(s: State, r: nat)
    requires s.versions != []
  {
    r < |s.readers| && (s.readers[r].Failed? || s.readers[r].start == Current(s))
  }

  lemma {:induction false} FoldedIgnoresUnstarted(initial: Entries, puts: seq<Put>, bodies: seq<Body>,
                                                  bodies': seq<Body>, i: nat, n: nat)
    requires i < n <= |puts| == |bodies| == |bodies'|
    requires forall k | i < k < |puts| :: !Landed(bodies[k]) && bodies'[k] == bodies[k]
    requires forall k | 0 <= k < i :: bodies'[k] == bodies[k]
    requires !Landed(bodies[i]) && Landed(bodies'[i])
    ensures Folded(initial, puts, bodies', n) ==
            Folded(initial, puts, bodies, n)[puts[i].ref := Seal(puts[i], bodies'[i].using)]
  {
    if n == i + 1 {
      FoldedDependsOnLanded(initial, puts, bodies, bodies', i);
    } else {
      FoldedIgnoresUnstarted(initial, puts, bodies, bodies', i, n - 1);
    }
  }

  predicate SameLanding(b: Body, b': Body) {
    Landed(b) == Landed(b') && (Landed(b) ==> b.using == b'.using)
  }

  lemma {:induction false} FoldedDependsOnLanded(initial: Entries, puts: seq<Put>, bodies: seq<Body>,
                                                 bodies': seq<Body>, n: nat)
    requires n <= |puts| == |bodies| == |bodies'|
    requires forall k | 0 <= k < n :: SameLanding(bodies[k], bodies'[k])
    ensures Folded(initial, puts, bodies', n) == Folded(initial, puts, bodies, n)
  {
    if n > 0 {
      assert SameLanding(bodies[n - 1], bodies'[n - 1]);
      FoldedDependsOnLanded(initial, puts, bodies, bodies', n - 1);
    }
  }

  lemma {:induction false} FoldedOfLonger(initial: Entries, puts: seq<Put>, bodies: seq<Body>, put: Put, n: nat)
    requires n <= |puts| == |bodies|
    ensures Folded(initial, puts + [put], bodies + [NotStarted], n) == Folded(initial, puts, bodies, n)
  {
    if n > 0 {
      FoldedOfLonger(initial, puts, bodies, put, n - 1);
    }
  }

  lemma IssueKeepsSerial(s: State, put: Put, stamp: nat -> int, initial: Entries)
    requires Good(s) && Serial(s, initial)
    ensures Serial(Next(s, Issue(put), stamp), initial)
  {
    PromiseChain.StepKeepsOrder(s.chain, PromiseChain.Issue);
    FoldedOfLonger(initial, s.puts, s.bodies, put, |s.puts|);
  }

  lemma StartKeepsSerial(s: State, i: nat, stamp: nat -> int, initial: Entries)
    requires Good(s) && Serial(s, initial) && Enabled(s, StartPut(i))
    ensures Serial(Next(s, StartPut(i), stamp), initial)
  {
    var s' := Next(s, StartPut(i), stamp);
    PromiseChain.StepKeepsOrder(s.chain, PromiseChain.Start(i));
    FoldedDependsOnLanded(initial, s.puts, s.bodies, s'.bodies, |s.puts|);
  }

  /** The end of a put's body. */
  lemma EndKeepsSerial(s: State, st: Step, stamp: nat -> int, initial: Entries)
    requires Good(s) && Serial(s, initial) && Enabled(s, st) && (st.Clear? || st.FailPut?)
    ensures Serial(Next(s, st, stamp), initial)
  {
    var s' := Next(s, st, stamp);
    PromiseChain.StepKeepsOrder(s.chain, PromiseChain.Finish(st.i, st.Clear?));
    FoldedDependsOnLanded(initial, s.puts, s.bodies, s'.bodies, |s.puts|);
  }

  lemma SettleKeepsSerial(s: State, i: nat, stamp: nat -> int, initial: Entries)
    requires Good(s) && Serial(s, initial) && Enabled(s, SettlePut(i))
    ensures Serial(Next(s, SettlePut(i), stamp), initial)
  {
    PromiseChain.StepKeepsOrder(s.chain, PromiseChain.Settle(i));
    forall k | 0 <= k < |s.puts| && Working(s.bodies[k])
      ensures OwnRead(Next(s, SettlePut(i), stamp), s.bodies[k].r)
    {
      assert OwnRead(s, s.bodies[k].r);
    }
  }

  /** Choosing a key, and the keys themselves changing. */
  lemma KeyStepKeepsSerial(s: State, st: Step, stamp: nat -> int, initial: Entries)
    requires Good(s) && Serial(s, initial) && Enabled(s, st)
    requires st.TakeVersion? || st.TakeKey? || st.ChangeKeys?
    ensures Serial(Next(s, st, stamp), initial)
  {
    var s' := Next(s, st, stamp);
    FoldedDependsOnLanded(initial, s.puts, s.bodies, s'.bodies, |s.puts|);
    forall i | 0 <= i < |s.puts| && Working(s'.bodies[i])
      ensures OwnRead(s', s'.bodies[i].r)
    {
      assert Working(s.bodies[i]) && OwnRead(s, s.bodies[i].r);
    }
  }

  lemma ReadStepKeepsSerial(s: State, st: Step, stamp: nat -> int, initial: Entries)
    requires Good(s) && Serial(s, initial) && Enabled(s, st)
    requires st.Ask? || st.Stat? || st.Resume? || st.Load? || st.Parse? || st.FailRead?
    ensures Serial(Next(s, st, stamp), initial)
  {
    var s' := Next(s, st, stamp);
    forall i | 0 <= i < |s.puts| && Working(s.bodies[i])
      ensures OwnRead(s', s.bodies[i].r)
    {
      assert OwnRead(s, s.bodies[i].r);
    }
  }

  lemma RenameKeepsSerial(s: State, i: nat, stamp: nat -> int, initial: Entries)
    requires Good(s) && Serial(s, initial) && Enabled(s, Rename(i))
    ensures Serial(Next(s, Rename(i), stamp), initial)
  {
    var s' := Next(s, Rename(i), stamp);
    assert InStep(s.bodies[i], s.chain.jobs[i]);
    assert OwnRead(s, s.bodies[i].r) && ReadGood(s.readers[s.bodies[i].r], Current(s));
    assert s.readers[s.bodies[i].r].content == Current(s);
    forall k | 0 <= k < |s.puts| && k != i
      ensures !Working(s.bodies[k]) && (k > i ==> !Landed(s.bodies[k]))
    {
      assert InStep(s.bodies[k], s.chain.jobs[k]);
    }
    FoldedIgnoresUnstarted(initial, s.puts, s.bodies, s'.bodies, i, |s.puts|);
  }

  lemma {:induction false} AlwaysSerial(run: Run, n: nat, stamp: nat -> int)
    requires Distinct(stamp) && IsRun(run, stamp) && n < |run.states|
    requires forall m | 0 <= m < |run.steps| :: !run.steps[m].External?
    ensures Good(run.states[n]) && Serial(run.states[n], EntriesOf(run.states[0].versions[0]))
  {
    AlwaysGood(run, n, stamp);
    if n > 0 {
      AlwaysSerial(run, n - 1, stamp);
      assert Steps(run, n - 1, stamp);
      var s, st, initial := run.states[n - 1], run.steps[n - 1], EntriesOf(run.states[0].versions[0]);
      if st.Rename? {
        RenameKeepsSerial(s, st.i, stamp, initial);
      } else if st.Issue? {
        IssueKeepsSerial(s, st.put, stamp, initial);
      } else if st.StartPut? {
        StartKeepsSerial(s, st.i, stamp, initial);
      } else if st.Clear? || st.FailPut? {
        EndKeepsSerial(s, st, stamp, initial);
      } else if st.SettlePut? {
        SettleKeepsSerial(s, st.i, stamp, initial);
      } else if st.TakeVersion? || st.TakeKey? || st.ChangeKeys? {
        KeyStepKeepsSerial(s, st, stamp, initial);
      } else {
        ReadStepKeepsSerial(s, st, stamp, initial);
      }
    }
  }

  /**
   No lost update: as long as this process is the only writer, at every instant the file holds
   the initial entries with the puts that landed applied in the order they were issued, and
   puts never overlap.
   */
  lemma NoPutIsLost(run: Run, n: nat, stamp: nat -> int)
    requires Distinct(stamp) && IsRun(run, stamp) && n < |run.states|
    requires forall m | 0 <= m < |run.steps| :: !run.steps[m].External?
    ensures var s := run.states[n];
            && Sized(s)
            && EntriesOf(s.versions[Current(s)]) ==
               Folded(EntriesOf(run.states[0].versions[0]), s.puts, s.bodies, |s.puts|)
            && (forall i, j | 0 <= i < j < |s.puts| && !s.bodies[j].NotStarted? ::
                  s.bodies[i].Saved? || s.bodies[i].Lost?)
  {
    AlwaysSerial(run, n, stamp);
    var s := run.states[n];
    forall i, j | 0 <= i < j < |s.puts| && !s.bodies[j].NotStarted?
      ensures s.bodies[i].Saved? || s.bodies[i].Lost?
    {
      assert InStep(s.bodies[i], s.chain.jobs[i]) && InStep(s.bodies[j], s.chain.jobs[j]);
    }
  }

  /** i is the last put under its reference that landed. */
  predicate LastLanded(puts: seq<Put>, bodies: seq<Body>, i: nat, n: nat) {
    && i < n <= |puts| == |bodies| && Landed(bodies[i])
    && forall k | i < k < n && Landed(bodies[k]) :: puts[k].ref != puts[i].ref
  }

  lemma {:induction false} FoldedHoldsTheLast(initial: Entries, puts: seq<Put>, bodies: seq<Body>, i: nat, n: nat)
    requires LastLanded(puts, bodies, i, n)
    ensures puts[i].ref in Folded(initial, puts, bodies, n)
    ensures Folded(initial, puts, bodies, n)[puts[i].ref] == Seal(puts[i], bodies[i].using)
  {
    if n > i + 1 {
      FoldedHoldsTheLast(initial, puts, bodies, i, n - 1);
    }
  }

  /** The version a put seals with was current at one instant, and had the key at that one or a later one. */
  lemma {:induction false} SealedWithAKeyOfItsVersion(run: Run, n: nat, i: nat, stamp: nat -> int)
    returns (p: nat, q: nat)
    requires IsRun(run, stamp) && n < |run.states| && Sized(run.states[n]) && i < |run.states[n].puts|
    requires run.states[n].bodies[i].Keyed? || Landed(run.states[n].bodies[i])
    ensures var using := run.states[n].bodies[i].using;
            && p <= q <= n && run.states[p].keys.current == using.version
            && HadKey(run.states[q], using)
  {
    if n == 0 {
      assert false;
    } else {
      assert Steps(run, n - 1, stamp);
      var s, st := run.states[n - 1], run.steps[n - 1];
      if st == TakeKey(i) {
        p := ChosenWhileCurrent(run, n - 1, i, stamp);
        q := n - 1;
      } else {
        p, q := SealedWithAKeyOfItsVersion(run, n - 1, i, stamp);
      }
    }
  }

  predicate HadKey(s: State, using: Using) {
    using.version in s.keys.held && s.keys.held[using.version] == using.key
  }

  lemma {:induction false} ChosenWhileCurrent(run: Run, n: nat, i: nat, stamp: nat -> int) returns (p: nat)
    requires IsRun(run, stamp) && n < |run.states| && Sized(run.states[n]) && i < |run.states[n].puts|
    requires run.states[n].bodies[i].Choosing?
    ensures p <= n && run.states[p].keys.current == run.states[n].bodies[i].version
  {
    if n == 0 {
      assert false;
    } else {
      assert Steps(run, n - 1, stamp);
      if run.steps[n - 1] == TakeVersion(i) {
        p := n - 1;
      } else {
        p := ChosenWhileCurrent(run, n - 1, i, stamp);
      }
    }
  }

  /**
   After any puts and any changes of the keys: what is stored under a reference is the last put
   that landed, sealed with the key its version had at instant q, and it opens to that material
   exactly while the version still has that key; it opens under no other reference.
   */
  lemma OpensExactly(run: Run, n: nat, i: nat, stamp: nat -> int) returns (q: nat)
    requires Distinct(stamp) && IsRun(run, stamp) && n < |run.states|
    requires forall m | 0 <= m < |run.steps| :: !run.steps[m].External?
    requires LastLanded(run.states[n].puts, run.states[n].bodies, i, |run.states[n].puts|)
    ensures Sized(run.states[n]) && q <= n
    ensures var s, put := run.states[n], run.states[n].puts[i];
            var entries, v := EntriesOf(s.versions[Current(s)]), s.bodies[i].using.version;
            && put.ref in entries && entries[put.ref].keyVersion == v && v in run.states[q].keys.held
            && (Open(put.ref, entries[put.ref], s.keys.held) == Some(put.material) <==>
                v in s.keys.held && s.keys.held[v] == run.states[q].keys.held[v])
            && (Open(put.ref, entries[put.ref], s.keys.held).Some? ==>
                Open(put.ref, entries[put.ref], s.keys.held) == Some(put.material))
            && forall other | other != put.ref :: Open(other, entries[put.ref], s.keys.held) == None
  {
    AlwaysSerial(run, n, stamp);
    var s := run.states[n];
    FoldedHoldsTheLast(EntriesOf(run.states[0].versions[0]), s.puts, s.bodies, i, |s.puts|);
    var p;
    p, q := SealedWithAKeyOfItsVersion(run, n, i, stamp);
  }

  /** The keys at any instant are the ones set last, or the first ones: putting and reading change none. */
  lemma {:induction false} KeysAreTheLastSet(run: Run, n: nat, m: int, stamp: nat -> int)
    requires IsRun(run, stamp) && -1 <= m < n < |run.states|
    requires m == -1 || run.steps[m].ChangeKeys?
    requires forall k | m < k < n :: !run.steps[k].ChangeKeys?
    ensures run.states[n].keys == if m == -1 then run.states[0].keys else run.steps[m].keys
  {
    if n > 0 {
      assert Steps(run, n - 1, stamp);
      if m < n - 1 {
        KeysAreTheLastSet(run, n - 1, m, stamp);
      }
    }
  }

  /** A rotation: what could be read before still can, with the same key. */
  predicate KeepsOldKeys(before: Keys, after: Keys) {
    forall v | v in before.held :: v in after.held && after.held[v] == before.held[v]
  }

  /** Every change of the keys is a rotation. */
  ghost predicate OnlyRotates(run: Run)
    requires |run.states| == |run.steps| + 1
  {
    forall m | 0 <= m < |run.steps| && run.steps[m].ChangeKeys? :: KeepsOldKeys(run.states[m].keys, run.steps[m].keys)
  }

  lemma {:induction false} OldKeysStay(run: Run, q: nat, n: nat, stamp: nat -> int)
    requires IsRun(run, stamp) && q <= n < |run.states|
    requires OnlyRotates(run)
    ensures KeepsOldKeys(run.states[q].keys, run.states[n].keys)
  {
    if q < n {
      OldKeysStay(run, q, n - 1, stamp);
      assert Steps(run, n - 1, stamp);
    }
  }

  /**
   After any puts and any rotations that keep the old versions readable, a reference opens to the
   last material that landed under it, and that entry opens under no other reference.
   */
  lemma OpensToTheLastPut(run: Run, n: nat, i: nat, stamp: nat -> int)
    requires Distinct(stamp) && IsRun(run, stamp) && n < |run.states|
    requires forall m | 0 <= m < |run.steps| :: !run.steps[m].External?
    requires OnlyRotates(run)
    requires LastLanded(run.states[n].puts, run.states[n].bodies, i, |run.states[n].puts|)
    ensures Sized(run.states[n])
    ensures var s := run.states[n];
            var entries, put := EntriesOf(s.versions[Current(s)]), s.puts[i];
            && put.ref in entries && Open(put.ref, entries[put.ref], s.keys.held) == Some(put.material)
            && forall other | other != put.ref :: Open(other, entries[put.ref], s.keys.held) == None
  {
    var q := OpensExactly(run, n, i, stamp);
    OldKeysStay(run, q, n, stamp);
  }

  // ---------- Nor lost, exactly when versions do not look alike ----------

  /** A run in which no other process writes the file. */
  ghost predicate Alone(run: Run, stamp: nat -> int) {
    IsRun(run, stamp) && forall m | 0 <= m < |run.steps| :: !run.steps[m].External?
  }

  /** A run in which the keys do not change either. */
  ghost predicate Undisturbed(run: Run, stamp: nat -> int) {
    Alone(run, stamp) && forall m | 0 <= m < |run.steps| :: !run.steps[m].ChangeKeys?
  }

  lemma Extend(run: Run, st: Step, stamp: nat -> int) returns (run': Run)
    requires Undisturbed(run, stamp) && Enabled(Last(run), st) && !st.External? && !st.ChangeKeys?
    ensures Undisturbed(run', stamp) && Last(run') == Next(Last(run), st, stamp)
  {
    hide Enabled, Next;
    ExtendedIsRun(run, st, stamp);
    run' := Extended(run, st, stamp);
  }

  /** A put can start at once, and there is a key to seal it with. */
  ghost predicate Ready(s: State) {
    && Sized(s) && AllSealed(s) && s.keys.current in s.keys.held
    && PromiseChain.TailBefore(s.chain, |s.puts|).Fulfilled?
  }

  /** The last put's body is in its read. */
  ghost predicate Underway(s: State, r: nat) {
    && Sized(s) && AllSealed(s) && s.keys.current in s.keys.held && s.puts != [] && r < |s.readers|
    && var i := |s.puts| - 1;
       s.bodies[i] == Reads(r) && s.chain.jobs[i].Running? && s.chain.tails[i].Pending?
  }

  lemma BeginPut(run: Run, put: Put, stamp: nat -> int) returns (run': Run)
    requires Undisturbed(run, stamp) && Ready(Last(run))
    ensures Undisturbed(run', stamp) && Underway(Last(run'), |Last(run).readers|)
    ensures var s, s' := Last(run), Last(run');
            && s'.versions == s.versions && s'.cache == s.cache && s'.keys == s.keys
            && s'.readers == s.readers + [Asked(Current(s))] && s'.puts == s.puts + [put]
            && s.bodies <= s'.bodies
  {
    var i := |Last(run).puts|;
    hide Undisturbed;
    run' := Extend(run, Issue(put), stamp);
    run' := Extend(run', StartPut(i), stamp);
  }

  lemma LastUpdateWins<T>(a: seq<T>, i: nat, x: T, y: T)
    requires i < |a|
    ensures a[i := x][i := y] == a[i := y]
  {
  }

  /** It takes the version and its key, */
  lemma KeyPut(run: Run, r: nat, stamp: nat -> int) returns (run': Run)
    requires Undisturbed(run, stamp) && Underway(Last(run), r) && Last(run).readers[r].Returned?
    ensures Undisturbed(run', stamp)
    ensures var s := Last(run);
            var i, using := |s.puts| - 1, Using(s.keys.current, s.keys.held[s.keys.current]);
            Last(run') == s.(bodies := s.bodies[i := Keyed(r, using)])
  {
    var s := Last(run);
    var i, version := |s.puts| - 1, s.keys.current;
    hide Undisturbed, AllSealed;
    run' := Extend(run, TakeVersion(i), stamp);
    run' := Extend(run', TakeKey(i), stamp);
    LastUpdateWins(s.bodies, i, Choosing(r, version), Keyed(r, Using(version, s.keys.held[version])));
  }

  /** and renames. */
  lemma RenamePut(run: Run, r: nat, stamp: nat -> int) returns (run': Run)
    requires Undisturbed(run, stamp) && Underway(Last(run), r) && Last(run).readers[r].Returned?
    requires Last(run).readers[r].content <= Current(Last(run))
    ensures Undisturbed(run', stamp)
    ensures var s := Last(run);
            var i, content := |s.puts| - 1, s.readers[r].content;
            var using := Using(s.keys.current, s.keys.held[s.keys.current]);
            var entries := EntriesOf(s.versions[content])[s.puts[i].ref := Seal(s.puts[i], using)];
            Last(run') == s.(versions := s.versions + [Sealed(entries)], bodies := s.bodies[i := Renamed(using)])
  {
    var s := Last(run);
    var i, using := |s.puts| - 1, Using(s.keys.current, s.keys.held[s.keys.current]);
    hide Undisturbed, AllSealed, EntriesOf, Seal;
    run' := KeyPut(run, r, stamp);
    run' := Extend(run', Rename(i), stamp);
    LastUpdateWins(s.bodies, i, Keyed(r, using), Renamed(using));
  }

  lemma EndPut(run: Run, r: nat, stamp: nat -> int) returns (run': Run)
    requires Undisturbed(run, stamp) && Underway(Last(run), r) && Last(run).readers[r].Returned?
    requires Last(run).readers[r].content <= Current(Last(run))
    ensures Undisturbed(run', stamp) && Ready(Last(run')) && Last(run').cache.None?
    ensures var s, s' := Last(run), Last(run');
            var put, content := s.puts[|s.puts| - 1], s.readers[r].content;
            && s'.keys == s.keys && s'.readers == s.readers && s'.puts == s.puts && Landed(s'.bodies[|s.puts| - 1])
            && (forall k | 0 <= k < |s.puts| - 1 :: s'.bodies[k] == s.bodies[k])
            && |s'.versions| == |s.versions| + 1 && s.versions <= s'.versions
            && EntriesOf(s'.versions[|s.versions|]).Keys == EntriesOf(s.versions[content]).Keys + {put.ref}
  {
    run' := RenamePut(run, r, stamp);
    run' := FinishPut(run', stamp);
  }

  /** The cache is dropped and the next put may start. */
  lemma FinishPut(run: Run, stamp: nat -> int) returns (run': Run)
    requires Undisturbed(run, stamp) && Sized(Last(run)) && AllSealed(Last(run)) && Last(run).puts != []
    requires Last(run).keys.current in Last(run).keys.held
    requires var s := Last(run);
             var i := |s.puts| - 1;
             s.bodies[i].Renamed? && s.chain.jobs[i].Running? && s.chain.tails[i].Pending?
    ensures Undisturbed(run', stamp) && Ready(Last(run')) && Last(run').cache.None?
    ensures var s, s' := Last(run), Last(run');
            var i := |s.puts| - 1;
            && s'.versions == s.versions && s'.keys == s.keys && s'.readers == s.readers && s'.puts == s.puts
            && s'.bodies == s.bodies[i := Saved(s.bodies[i].using)]
  {
    var i := |Last(run).puts| - 1;
    hide Undisturbed;
    run' := Extend(run, Clear(i), stamp);
    run' := Extend(run', SettlePut(i), stamp);
  }

  /** A reader that has asked reads the current file, as far as its contents. */
  lemma LoadCurrent(run: Run, r: nat, stamp: nat -> int) returns (run': Run)
    requires Undisturbed(run, stamp) && Sized(Last(run)) && AllSealed(Last(run)) && Last(run).cache.None?
    requires r < |Last(run).readers| && Last(run).readers[r].Asked?
    ensures Undisturbed(run', stamp)
    ensures var s := Last(run);
            Last(run') == s.(readers := s.readers[r := Loaded(s.readers[r].start, Current(s), Current(s))])
  {
    var s := Last(run);
    hide Undisturbed;
    run' := Extend(run, Stat(r), stamp);
    run' := Extend(run', Resume(r), stamp);
    run' := Extend(run', Load(r), stamp);
    assert s.readers[r := Statted(s.readers[r].start, Current(s))]
      [r := Loading(s.readers[r].start, Current(s))][r := Loaded(s.readers[r].start, Current(s), Current(s))]
      == s.readers[r := Loaded(s.readers[r].start, Current(s), Current(s))];
  }

  lemma ReadLookalike(run: Run, r: nat, i: nat, stamp: nat -> int) returns (run': Run)
    requires Undisturbed(run, stamp) && Sized(Last(run)) && AllSealed(Last(run))
    requires Last(run).cache == Some(Cached(i, i)) && stamp(i) == stamp(Current(Last(run)))
    requires r < |Last(run).readers| && Last(run).readers[r].Asked?
    ensures Undisturbed(run', stamp)
    ensures var s := Last(run);
            Last(run') == s.(readers := s.readers[r := Returned(s.readers[r].start, i, Current(s))])
  {
    var s := Last(run);
    hide Undisturbed;
    run' := Extend(run, Stat(r), stamp);
    run' := Extend(run', Resume(r), stamp);
    assert s.readers[r := Statted(s.readers[r].start, Current(s))][r := Returned(s.readers[r].start, i, Current(s))]
           == s.readers[r := Returned(s.readers[r].start, i, Current(s))];
  }

  /** What puts under one reference leave: every version a file of ours, and nothing else new in it. */
  ghost predicate Wrote(s: State, s': State, ref: Ref, k: nat)
    requires s.versions != []
  {
    && Ready(s') && s'.cache.None? && s'.keys == s.keys
    && |s'.versions| == |s.versions| + k && s.versions <= s'.versions && s.readers <= s'.readers
    && (k == 0 ==> s'.puts == s.puts)
    && (k > 0 ==> s'.puts != [] && s'.puts[|s'.puts| - 1].ref == ref && Landed(s'.bodies[|s'.puts| - 1]))
    && EntriesOf(s'.versions[Current(s')]).Keys <= EntriesOf(s.versions[Current(s)]).Keys + {ref}
  }

  lemma OnePut(run: Run, put: Put, stamp: nat -> int) returns (run': Run)
    requires Undisturbed(run, stamp) && Ready(Last(run)) && Last(run).cache.None?
    ensures Undisturbed(run', stamp) && Wrote(Last(run), Last(run'), put.ref, 1)
  {
    var s := Last(run);
    var r := |s.readers|;
    run' := BeginPut(run, put, stamp);
    run' := LoadCurrent(run', r, stamp);
    run' := Extend(run', Parse(r), stamp);
    run' := EndPut(run', r, stamp);
  }

  lemma {:induction false} ManyPuts(run: Run, put: Put, k: nat, stamp: nat -> int) returns (run': Run)
    requires Undisturbed(run, stamp) && Ready(Last(run)) && Last(run).cache.None?
    ensures Undisturbed(run', stamp) && Wrote(Last(run), Last(run'), put.ref, k)
  {
    if k == 0 {
      run' := run;
    } else {
      hide Undisturbed, Ready;
      run' := ManyPuts(run, put, k - 1, stamp);
      run' := OnePut(run', put, stamp);
    }
  }

  /** A reader loads version i and is slow to parse it, and other puts go by until version j is current. */
  lemma SlowReaderCaches(i: nat, j: nat, stamp: nat -> int) returns (run: Run)
    requires i < j
    ensures Undisturbed(run, stamp)
    ensures var s := Last(run);
            && Ready(s) && Current(s) == j && s.cache == Some(Cached(i, i)) && "a" !in EntriesOf(s.versions[i])
            && s.puts != [] && s.puts[|s.puts| - 1].ref == "a" && Landed(s.bodies[|s.puts| - 1])
  {
    run := Run([State([Sealed(map[])], Keys(0, map[0 := 0]), None, [], [], [], PromiseChain.EMPTY)], []);
    run := ManyPuts(run, Put("b", map[]), i, stamp);
    assert Current(Last(run)) == i && "a" !in EntriesOf(Last(run).versions[i]);
    var slow := |Last(run).readers|;
    run := Extend(run, Ask, stamp);
    run := LoadCurrent(run, slow, stamp);
    var loaded := Last(run).readers[slow];
    run := ManyPuts(run, Put("a", map[]), j - i, stamp);
    assert Last(run).readers[slow] == loaded;
    run := Extend(run, Parse(slow), stamp);
  }

  /**
   When versions i and j look alike, the put after that is served version i from the cache.  It
   renames it over the puts in between, and the last of those, which landed and was never
   replaced, is gone.
   */
  lemma LookalikeLosesAPut(i: nat, j: nat, stamp: nat -> int) returns (run: Run, lost: nat)
    requires i < j && stamp(i) == stamp(j)
    ensures Undisturbed(run, stamp)
    ensures var s := Last(run);
            && Sized(s) && LastLanded(s.puts, s.bodies, lost, |s.puts|)
            && s.puts[lost].ref !in EntriesOf(s.versions[Current(s)])
  {
    run := SlowReaderCaches(i, j, stamp);
    var r := |Last(run).readers|;
    lost := |Last(run).puts| - 1;
    hide Undisturbed, AllSealed;
    run := BeginPut(run, Put("b", map[]), stamp);
    run := ReadLookalike(run, r, i, stamp);
    run := EndPut(run, r, stamp);
  }

  /** At every instant of every run without another writer the file holds the puts that landed, in issue order. */
  ghost predicate NeverLosesAPut(stamp: nat -> int) {
    forall run: Run, n: nat | Alone(run, stamp) && n < |run.states| :: HoldsItsPuts(run, n)
  }

  ghost predicate HoldsItsPuts(run: Run, n: nat)
    requires n < |run.states|
  {
    var s := run.states[n];
    && Sized(s) && run.states[0].versions != []
    && EntriesOf(s.versions[Current(s)]) == Folded(EntriesOf(run.states[0].versions[0]), s.puts, s.bodies, |s.puts|)
  }

  /** No put is lost, in any such run, if and only if no two versions look alike to stat. */
  lemma NoPutIsLostExactly(stamp: nat -> int)
    ensures NeverLosesAPut(stamp) <==> Distinct(stamp)
  {
    if Distinct(stamp) {
      forall run: Run, n: nat | Alone(run, stamp) && n < |run.states|
        ensures HoldsItsPuts(run, n)
      {
        NoPutIsLost(run, n, stamp);
      }
    } else {
      var run, lost := SomePutIsLost(stamp);
      var n := |run.states| - 1;
      var s := run.states[n];
      FoldedHoldsTheLast(EntriesOf(run.states[0].versions[0]), s.puts, s.bodies, lost, |s.puts|);
      assert !HoldsItsPuts(run, n);
    }
  }

  lemma SomePutIsLost(stamp: nat -> int) returns (run: Run, lost: nat)
    requires !Distinct(stamp)
    ensures Undisturbed(run, stamp)
    ensures var s := Last(run);
            && Sized(s) && LastLanded(s.puts, s.bodies, lost, |s.puts|)
            && s.puts[lost].ref !in EntriesOf(s.versions[Current(s)])
  {
    var i: nat, j: nat :| stamp(i) == stamp(j) && i != j;
    run, lost := LookalikeLosesAPut(if i < j then i else j, if i < j then j else i, stamp);
  }

  /** What landed last under a reference is what it opens to. */
  ghost predicate OpensToIt(s: State, i: nat) {
    && Sized(s) && i < |s.puts|
    && var entries := EntriesOf(s.versions[Current(s)]);
       s.puts[i].ref in entries && Open(s.puts[i].ref, entries[s.puts[i].ref], s.keys.held) == Some(s.puts[i].material)
  }

  ghost predicate AlwaysOpensToTheLast(stamp: nat -> int) {
    forall run: Run, n: nat, i: nat
      | Alone(run, stamp) && OnlyRotates(run) && n < |run.states|
        && LastLanded(run.states[n].puts, run.states[n].bodies, i, |run.states[n].puts|) ::
      OpensToIt(run.states[n], i)
  }

  /** And every reference opens to its last landed put, under rotations, if and only if no two versions look alike. */
  lemma OpensToTheLastExactly(stamp: nat -> int)
    ensures AlwaysOpensToTheLast(stamp) <==> Distinct(stamp)
  {
    if Distinct(stamp) {
      forall run: Run, n: nat, i: nat | Alone(run, stamp) && OnlyRotates(run) && n < |run.states|
                                        && LastLanded(run.states[n].puts, run.states[n].bodies, i, |run.states[n].puts|)
        ensures OpensToIt(run.states[n], i)
      {
        OpensToTheLastPut(run, n, i, stamp);
      }
    } else {
      var run, lost := SomePutIsLost(stamp);
      assert !OpensToIt(run.states[|run.states| - 1], lost);
    }
  }

  // ---------- The store as an object, one call at a time ----------

  datatype Result<T> = Ok(value: T) | NotReadable | NoSecret | NotOpened | NoKey

  class SealedFileSecretStore {
    var disk: File
    var stat: int
    var cache: Option<(int, Entries)>

    ghost predicate Valid()
      reads this
    {
      cache.Some? && cache.value.0 == stat ==> disk.Sealed? && disk.entries == cache.value.1
    }

    constructor (onDisk: File, itsStat: int)
      ensures Valid() && disk == onDisk && stat == itsStat && cache == None
    {
      disk, stat, cache := onDisk, itsStat, None;
    }

    method ReadFile() returns (r: Result<Entries>)
      requires Valid()
      modifies this`cache
      ensures Valid()
      ensures r == if disk.Garbage? then NotReadable else Ok(EntriesOf(disk))
    {
      if disk.Absent? {
        return Ok(map[]);
      }
      if cache.Some? && cache.value.0 == stat {
        return Ok(cache.value.1);
      }
      if disk.Garbage? {
        return NotReadable;
      }
      cache := Some((stat, disk.entries));
      return Ok(disk.entries);
    }

    method Fetch(ref: Ref, held: map<nat, Key>) returns (r: Result<Material>)
      requires Valid()
      modifies this`cache
      ensures Valid()
      ensures r == if disk.Garbage? then NotReadable
                   else if ref !in EntriesOf(disk) then NoSecret
                   else if Open(ref, EntriesOf(disk)[ref], held) == None then NotOpened
                   else if EntriesOf(disk)[ref].material == map[] then NoSecret
                   else Ok(EntriesOf(disk)[ref].material)
    {
      var file := ReadFile();
      if !file.Ok? {
        return NotReadable;
      }
      if ref !in file.value {
        return NoSecret;
      }
      var material := Open(ref, file.value[ref], held);
      if material.None? {
        return NotOpened;
      }
      return if material.value == map[] then NoSecret else Ok(material.value);
    }

    /** One link of the chain; the rename gives the file whatever stat it gives it. */
    method Write(ref: Ref, material: Material, keys: Keys, newStat: int) returns (r: Result<()>)
      requires Valid()
      modifies this
      ensures Valid()
      ensures r == if old(disk).Garbage? then NotReadable else if keys.current !in keys.held then NoKey else Ok(())
      ensures !r.Ok? ==> disk == old(disk) && stat == old(stat)
      ensures r.Ok? ==>
                && stat == newStat && cache == None && disk.Sealed?
                && disk.entries.Keys == EntriesOf(old(disk)).Keys + {ref}
                && (forall other | other in disk.entries && other != ref ::
                      disk.entries[other] == EntriesOf(old(disk))[other])
                && disk.entries[ref].keyVersion == keys.current
                && Open(ref, disk.entries[ref], keys.held) == Some(material)
                && forall other | other != ref :: Open(other, disk.entries[ref], keys.held) == None
    {
      var file := ReadFile();
      if !file.Ok? {
        return NotReadable;
      }
      var version := keys.current;
      if version !in keys.held {
        return NoKey;
      }
      disk := Sealed(file.value[ref := Seal(Put(ref, material), Using(version, keys.held[version]))]);
      stat, cache := newStat, None;
      return Ok(());
    }
  }
}
