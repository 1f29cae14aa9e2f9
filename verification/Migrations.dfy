/**
 The migration runner (packages/db/src/migrator.ts), over an abstract schema: hand-written
 scripts that go up and down, a ledger of what is applied, and a transaction a migration in
 which any statement may fail.
 */
module Migrations {
  import opened Options

  datatype Migration<!S> = Migration(version: int, name: string, checksum: string, up: S -> S, down: S -> S)

  datatype Applied = Applied(version: int, name: string, checksum: string)

  /** The ledger is read in version order. */
  datatype Db<S> = Db(schema: S, ledger: seq<Applied>)

  datatype Stage = AtBegin | AtScript | AtResetRole | AtLedger | AtCommit

  datatype Result =
    | Done(executed: seq<int>)
    | NotContiguous
    | Missing(version: int)
    | Drifted(version: int)
    | Failed(version: int)

  type Faults = int -> Option<Stage>

  predicate Contiguous<S>(ms: seq<Migration<S>>) {
    forall i | 0 <= i < |ms| :: ms[i].version == i + 1
  }

  function RowOf<S>(m: Migration<S>): Applied {
    Applied(m.version, m.name, m.checksum)
  }

  function Inserted(ledger: seq<Applied>, row: Applied): seq<Applied> {
    if ledger == [] || row.version < ledger[0].version then [row] + ledger
    else [ledger[0]] + Inserted(ledger[1..], row)
  }

  /** In order of version, which is how the ledger is read. */
  ghost predicate Ordered(ledger: seq<Applied>) {
    forall i, j | 0 <= i < j < |ledger| :: ledger[i].version < ledger[j].version
  }

  /** A row is added and every other row is kept, whatever rows there are. */
  lemma {:induction false} InsertedExactly(ledger: seq<Applied>, row: Applied)
    ensures multiset(Inserted(ledger, row)) == multiset(ledger) + multiset{row}
  {
    if !(ledger == [] || row.version < ledger[0].version) {
      InsertedExactly(ledger[1..], row);
      assert ledger == [ledger[0]] + ledger[1..];
    }
  }

  lemma PrependOrdered(row: Applied, rest: seq<Applied>)
    requires Ordered(rest) && forall r | r in rest :: row.version < r.version
    ensures Ordered([row] + rest)
  {
  }

  /** In its place. */
  lemma {:induction false} InsertedInOrder(ledger: seq<Applied>, row: Applied)
    requires Ordered(ledger) && forall r | r in ledger :: r.version != row.version
    ensures Ordered(Inserted(ledger, row))
  {
    if ledger == [] || row.version < ledger[0].version {
      PrependOrdered(row, ledger);
    } else {
      var rest := ledger[1..];
      InsertedInOrder(rest, row);
      InsertedExactly(rest, row);
      forall r | r in Inserted(rest, row)
        ensures ledger[0].version < r.version
      {
        assert r in multiset(Inserted(rest, row));
        assert r in rest || r == row;
      }
      hide Ordered;
      PrependOrdered(ledger[0], Inserted(rest, row));
    }
  }

  function Deleted(ledger: seq<Applied>, version: int): seq<Applied> {
    if ledger == [] then []
    else (if ledger[0].version == version then [] else [ledger[0]]) + Deleted(ledger[1..], version)
  }

  /** Deleting takes out the version's rows and nothing else. */
  lemma {:induction false} DeletedExactly(ledger: seq<Applied>, version: int, r: Applied)
    ensures r in Deleted(ledger, version) <==> r in ledger && r.version != version
    ensures Ordered(ledger) ==> Ordered(Deleted(ledger, version))
  {
    if ledger != [] {
      var rest := ledger[1..];
      DeletedExactly(rest, version, r);
      assert ledger == [ledger[0]] + rest;
      if Ordered(ledger) {
        forall x | x in Deleted(rest, version)
          ensures ledger[0].version < x.version
        {
          DeletedExactly(rest, version, x);
        }
      }
    }
  }

  function Find<S>(ms: seq<Migration<S>>, version: int): (r: Option<Migration<S>>)
    ensures r.Some? ==> r.value.version == version && r.value in ms
  {
    if ms == [] then None
    else if ms[0].version == version then Some(ms[0])
    else Find(ms[1..], version)
  }

  // ---------- Drift ----------

  function Drift<S>(ms: seq<Migration<S>>, records: seq<Applied>): (d: Option<Result>)
    ensures d.Some? ==> d.value.Missing? || d.value.Drifted?
  {
    if records == [] then None
    else
      match Find(ms, records[0].version)
      case None => Some(Missing(records[0].version))
      case Some(m) =>
        if m.checksum != records[0].checksum then Some(Drifted(records[0].version)) else Drift(ms, records[1..])
  }

  method AssertNoDrift<S>(ms: seq<Migration<S>>, records: seq<Applied>) returns (error: Option<Result>)
    ensures error == Drift(ms, records)
  {
    for i := 0 to |records|
      invariant Drift(ms, records) == Drift(ms, records[i..])
    {
      var found := Find(ms, records[i].version);
      if found.None? {
        return Some(Missing(records[i].version));
      }
      if found.value.checksum != records[i].checksum {
        return Some(Drifted(records[i].version));
      }
      assert records[i..][1..] == records[i + 1..];
    }
    return None;
  }

  /** No drift exactly when every record has its file, unchanged. */
  lemma {:induction false} NoDriftExactly<S>(ms: seq<Migration<S>>, records: seq<Applied>)
    ensures Drift(ms, records).None? <==>
            forall r | r in records :: Find(ms, r.version).Some? && Find(ms, r.version).value.checksum == r.checksum
  {
    if records != [] {
      NoDriftExactly(ms, records[1..]);
      assert records == [records[0]] + records[1..];
    }
  }

  function UpTo(records: seq<Applied>, target: int): seq<Applied> {
    if records == [] then []
    else (if records[0].version <= target then [records[0]] else []) + UpTo(records[1..], target)
  }

  lemma {:induction false} UpToExactly(records: seq<Applied>, target: int, r: Applied)
    ensures r in UpTo(records, target) <==> r in records && r.version <= target
  {
    if records != [] {
      UpToExactly(records[1..], target, r);
      assert records == [records[0]] + records[1..];
      assert UpTo(records, target) ==
             (if records[0].version <= target then [records[0]] else []) + UpTo(records[1..], target);
    }
  }

  /** A record whose file is there, as it was when it was applied. */
  predicate Unchanged<S>(ms: seq<Migration<S>>, r: Applied) {
    Find(ms, r.version).Some? && Find(ms, r.version).value.checksum == r.checksum
  }

  /** On the way down only what will still be applied is checked: a changed file above the target can be rolled back. */
  lemma DownChecksWhatStays<S>(ms: seq<Migration<S>>, records: seq<Applied>, target: int)
    ensures Drift(ms, UpTo(records, target)).None? <==>
            forall r | r in records && r.version <= target :: Unchanged(ms, r)
  {
    NoDriftExactly(ms, UpTo(records, target));
    forall r
      ensures r in UpTo(records, target) <==> r in records && r.version <= target
    {
      UpToExactly(records, target, r);
    }
  }

  // ---------- What the commands do ----------

  datatype Outcome<S> = Outcome(db: Db<S>, result: Result)

  function Preceded<S>(executed: seq<int>, o: Outcome<S>): Outcome<S> {
    if o.result.Done? then o.(result := Done(executed + o.result.executed)) else o
  }

  function Raised<S>(db: Db<S>, m: Migration<S>): Db<S> {
    Db(m.up(db.schema), Inserted(db.ledger, RowOf(m)))
  }

  function Lowered<S>(db: Db<S>, m: Migration<S>): Db<S> {
    Db(m.down(db.schema), Deleted(db.ledger, m.version))
  }

  predicate Beyond(version: int, to: Option<int>) {
    to.Some? && version > to.value
  }

  function UpFrom<S>(ms: seq<Migration<S>>, i: nat, known: set<int>, to: Option<int>, faults: Faults, db: Db<S>)
    : Outcome<S>
    requires i <= |ms|
    decreases |ms| - i
  {
    if i == |ms| then Outcome(db, Done([]))
    else if ms[i].version in known || Beyond(ms[i].version, to) then UpFrom(ms, i + 1, known, to, faults, db)
    else if faults(ms[i].version).Some? then Outcome(db, Failed(ms[i].version))
    else Preceded([ms[i].version], UpFrom(ms, i + 1, known, to, faults, Raised(db, ms[i])))
  }

  function Versions(ledger: seq<Applied>): set<int> {
    set r | r in ledger :: r.version
  }

  function Up<S>(ms: seq<Migration<S>>, to: Option<int>, faults: Faults, db: Db<S>): Outcome<S> {
    if !Contiguous(ms) then Outcome(db, NotContiguous)
    else
      match Drift(ms, db.ledger)
      case Some(error) => Outcome(db, error)
      case None => UpFrom(ms, 0, Versions(db.ledger), to, faults, db)
  }

  /** The first n records are still to be looked at, latest first. */
  function DownFrom<S>(ms: seq<Migration<S>>, records: seq<Applied>, n: nat,
                    target: int, faults: Faults, db: Db<S>): Outcome<S>
    requires n <= |records|
  {
    if n == 0 then Outcome(db, Done([]))
    else if records[n - 1].version <= target then DownFrom(ms, records, n - 1, target, faults, db)
    else
      match Find(ms, records[n - 1].version)
      case None => Outcome(db, Missing(records[n - 1].version))
      case Some(m) =>
        if faults(m.version).Some? then Outcome(db, Failed(m.version))
        else Preceded([m.version], DownFrom(ms, records, n - 1, target, faults, Lowered(db, m)))
  }

  function Down<S>(ms: seq<Migration<S>>, to: Option<int>, faults: Faults, db: Db<S>): Outcome<S> {
    var target := if to.Some? then to.value else 0;
    if !Contiguous(ms) then Outcome(db, NotContiguous)
    else
      match Drift(ms, UpTo(db.ledger, target))
      case Some(error) => Outcome(db, error)
      case None => DownFrom(ms, db.ledger, |db.ledger|, target, faults, db)
  }

  /**
   What is refused before anything is touched: files whose versions are not 1, 2 and so on, up
   with any applied file missing or changed, and down with one that would stay applied.
   */
  lemma RefusedUntouched<S>(ms: seq<Migration<S>>, to: Option<int>, faults: Faults, db: Db<S>)
    ensures (exists i :: 0 <= i < |ms| && ms[i].version != i + 1) ==>
              && Up(ms, to, faults, db) == Outcome(db, NotContiguous)
              && Down(ms, to, faults, db) == Outcome(db, NotContiguous)
    ensures (forall i | 0 <= i < |ms| :: ms[i].version == i + 1) ==>
              && ((exists r :: r in db.ledger && !Unchanged(ms, r)) ==>
                  Up(ms, to, faults, db).db == db && Refusal(Up(ms, to, faults, db).result))
              && ((exists r ::
                     r in db.ledger && r.version <= (if to.Some? then to.value else 0) && !Unchanged(ms, r)) ==>
                  Down(ms, to, faults, db).db == db && Refusal(Down(ms, to, faults, db).result))
  {
    hide UpFrom, DownFrom, Unchanged, UpTo;
    NoDriftIsUnchanged(ms, db.ledger);
    DownChecksWhatStays(ms, db.ledger, if to.Some? then to.value else 0);
  }

  predicate Refusal(r: Result) {
    r.Missing? || r.Drifted?
  }

  lemma NoDriftIsUnchanged<S>(ms: seq<Migration<S>>, records: seq<Applied>)
    ensures Drift(ms, records).None? <==> forall r | r in records :: Unchanged(ms, r)
  {
    NoDriftExactly(ms, records);
  }

  // ---------- The commands as the program runs them ----------

  /** One connection: the state it sees, and the one its transaction started from. */
  class Client<S> {
    var db: Db<S>
    var before: Option<Db<S>>

    constructor (db: Db<S>)
      ensures this.db == db && before == None
    {
      this.db, before := db, None;
    }

    /** BEGIN, the script, RESET ROLE, the ledger row, COMMIT; ROLLBACK if one of them fails. */
    method Migrate(script: S -> S, ledger: seq<Applied>, fault: Option<Stage>) returns (ok: bool)
      requires before == None
      modifies this
      ensures before == None && ok == fault.None?
      ensures db == if ok then Db(script(old(db).schema), ledger) else old(db)
    {
      if fault == Some(AtBegin) {
        return false;
      }
      before := Some(db);
      ok := fault.None? || !fault.value.AtScript?;
      if ok {
        db := db.(schema := script(db.schema));
        ok := fault.None? || !fault.value.AtResetRole?;
      }
      if ok {
        ok := fault.None? || !fault.value.AtLedger?;
      }
      if ok {
        db := db.(ledger := ledger);
        ok := fault.None? || !fault.value.AtCommit?;
      }
      if !ok {
        db := before.value;
      }
      before := None;
    }
  }

  lemma PrecededTwice<S>(executed: seq<int>, version: int, o: Outcome<S>)
    ensures Preceded(executed, Preceded([version], o)) == Preceded(executed + [version], o)
  {
    assert o.result.Done? ==> executed + ([version] + o.result.executed) == executed + [version] + o.result.executed;
  }

  method MigrateUp<S>(client: Client<S>, ms: seq<Migration<S>>, to: Option<int>, faults: Faults)
    returns (result: Result)
    requires client.before == None
    modifies client
    ensures client.before == None
    ensures Outcome(client.db, result) == Up(ms, to, faults, old(client.db))
  {
    if !Contiguous(ms) {
      return NotContiguous;
    }
    var applied := client.db.ledger;
    var error := AssertNoDrift(ms, applied);
    if error.Some? {
      return error.value;
    }
    var known := Versions(applied);
    var executed: seq<int> := [];
    ghost var goal := UpFrom(ms, 0, known, to, faults, client.db);
    for i := 0 to |ms|
      invariant client.before == None
      invariant goal == Preceded(executed, UpFrom(ms, i, known, to, faults, client.db))
    {
      var m := ms[i];
      if m.version in known || Beyond(m.version, to) {
        continue;
      }
      var ok := client.Migrate(m.up, Inserted(client.db.ledger, RowOf(m)), faults(m.version));
      if !ok {
        return Failed(m.version);
      }
      PrecededTwice(executed, m.version, UpFrom(ms, i + 1, known, to, faults, client.db));
      executed := executed + [m.version];
    }
    return Done(executed);
  }

  method MigrateDown<S>(client: Client<S>, ms: seq<Migration<S>>, to: Option<int>, faults: Faults)
    returns (result: Result)
    requires client.before == None
    modifies client
    ensures client.before == None
    ensures Outcome(client.db, result) == Down(ms, to, faults, old(client.db))
  {
    if !Contiguous(ms) {
      return NotContiguous;
    }
    var applied := client.db.ledger;
    var target := if to.Some? then to.value else 0;
    var error := AssertNoDrift(ms, UpTo(applied, target));
    if error.Some? {
      return error.value;
    }
    var executed: seq<int> := [];
    ghost var goal := DownFrom(ms, applied, |applied|, target, faults, client.db);
    for n := |applied| downto 0
      invariant client.before == None
      invariant goal == Preceded(executed, DownFrom(ms, applied, n, target, faults, client.db))
    {
      if applied[n].version <= target {
        continue;
      }
      var m := Find(ms, applied[n].version);
      if m.None? {
        return Missing(applied[n].version);
      }
      var version := m.value.version;
      var ok := client.Migrate(m.value.down, Deleted(client.db.ledger, version), faults(version));
      if !ok {
        return Failed(version);
      }
      PrecededTwice(executed, version, DownFrom(ms, applied, n, target, faults, client.db));
      executed := executed + [version];
    }
    return Done(executed);
  }

  // ---------- The ledger is always a prefix ----------

  /** The schema after the first k ups. */
  function Level<S>(ms: seq<Migration<S>>, base: S, k: nat): S
    requires k <= |ms|
  {
    if k == 0 then base else ms[k - 1].up(Level(ms, base, k - 1))
  }

  function LedgerOf<S>(ms: seq<Migration<S>>, k: nat): (ledger: seq<Applied>)
    requires k <= |ms|
    ensures |ledger| == k && forall i | 0 <= i < k :: ledger[i] == RowOf(ms[i])
  {
    if k == 0 then [] else LedgerOf(ms, k - 1) + [RowOf(ms[k - 1])]
  }

  function DbAt<S>(ms: seq<Migration<S>>, base: S, k: nat): Db<S>
    requires k <= |ms|
  {
    Db(Level(ms, base, k), LedgerOf(ms, k))
  }

  /** Each down takes back what its up did. */
  ghost predicate DownsInvert<S>(ms: seq<Migration<S>>, base: S) {
    forall k | 0 <= k < |ms| :: ms[k].down(Level(ms, base, k + 1)) == Level(ms, base, k)
  }

  lemma {:induction false} InsertedLast(ledger: seq<Applied>, row: Applied)
    requires forall r | r in ledger :: r.version <= row.version
    ensures Inserted(ledger, row) == ledger + [row]
  {
    if ledger != [] {
      assert ledger[0] in ledger;
      InsertedLast(ledger[1..], row);
    }
  }

  lemma {:induction false} DeletedLast(ledger: seq<Applied>, row: Applied)
    requires forall r | r in ledger :: r.version != row.version
    ensures Deleted(ledger + [row], row.version) == ledger
  {
    if ledger == [] {
      assert ([] + [row])[1..] == [];
    } else {
      assert ledger[0] in ledger;
      assert (ledger + [row])[1..] == ledger[1..] + [row];
      DeletedLast(ledger[1..], row);
    }
  }

  lemma {:induction false} FindInContiguous<S>(ms: seq<Migration<S>>, first: int, k: nat)
    requires k < |ms| && forall i | 0 <= i < |ms| :: ms[i].version == first + i
    ensures Find(ms, first + k) == Some(ms[k])
  {
    if k > 0 {
      FindInContiguous(ms[1..], first + 1, k - 1);
    }
  }

  lemma RaisedFromLevel<S>(ms: seq<Migration<S>>, base: S, k: nat)
    requires Contiguous(ms) && k < |ms|
    ensures Raised(DbAt(ms, base, k), ms[k]) == DbAt(ms, base, k + 1)
  {
    InsertedLast(LedgerOf(ms, k), RowOf(ms[k]));
  }

  lemma LoweredFromLevel<S>(ms: seq<Migration<S>>, base: S, k: nat)
    requires Contiguous(ms) && k < |ms| && DownsInvert(ms, base)
    ensures Lowered(DbAt(ms, base, k + 1), ms[k]) == DbAt(ms, base, k)
  {
    DeletedLast(LedgerOf(ms, k), RowOf(ms[k]));
  }

  lemma {:induction false} SliceHasNoDrift<S>(ms: seq<Migration<S>>, records: seq<Applied>)
    requires Contiguous(ms)
    requires forall r | r in records :: exists i :: 0 <= i < |ms| && r == RowOf(ms[i])
    ensures Drift(ms, records) == None
  {
    if records != [] {
      assert records[0] in records;
      var i :| 0 <= i < |ms| && records[0] == RowOf(ms[i]);
      FindInContiguous(ms, 1, i);
      assert forall r | r in records[1..] :: r in records;
      SliceHasNoDrift(ms, records[1..]);
    }
  }

  lemma {:induction false} UpToIsSlice(records: seq<Applied>, target: int)
    ensures forall r | r in UpTo(records, target) :: r in records
  {
    if records != [] {
      UpToIsSlice(records[1..], target);
      assert records == [records[0]] + records[1..];
    }
  }

  function Range(from: int, to: int): seq<int>
    decreases to - from
  {
    if from >= to then [] else [from] + Range(from + 1, to)
  }

  function Max(a: int, b: int): int {
    if a > b then a else b
  }

  function Min(a: int, b: int): int {
    if a < b then a else b
  }

  /** No fault in the versions after `from` up to `to`. */
  ghost predicate Faultless(faults: Faults, from: int, to: int) {
    forall v | from < v <= to :: faults(v).None?
  }

  function UpGoal(n: nat, k: nat, to: Option<int>): nat {
    if to.Some? then Max(k, Min(to.value, n)) else Max(k, n)
  }

  /** A command that started at `from` and was to reach `goal` got as far as `reached`. */
  ghost predicate Climbed<S>(o: Outcome<S>, ms: seq<Migration<S>>, base: S,
                             from: nat, reached: nat, goal: nat, faults: Faults) {
    && from <= reached <= goal <= |ms|
    && o.db == DbAt(ms, base, reached)
    && Faultless(faults, from, reached)
    && (if reached == goal then o.result == Done(Range(from + 1, reached + 1))
        else faults(reached + 1).Some? && o.result == Failed(reached + 1))
  }

  lemma {:induction false} UpFromLevel<S>(ms: seq<Migration<S>>, base: S, k0: nat, goal: nat, i: nat, k: nat,
                                          to: Option<int>, faults: Faults)
    returns (reached: nat)
    requires Contiguous(ms) && k0 <= goal <= |ms| && i <= |ms|
    requires forall v | k0 < v <= |ms| :: Beyond(v, to) <==> goal < v
    requires k == if i <= k0 then k0 else if i <= goal then i else goal
    ensures Climbed(UpFrom(ms, i, Versions(LedgerOf(ms, k0)), to, faults, DbAt(ms, base, k)),
                    ms, base, k, reached, goal, faults)
    decreases |ms| - i
  {
    hide DbAt, Raised, LedgerOf, Level;
    if i == |ms| {
      reached := k;
    } else {
      KnownVersions(ms, k0, i);
      if i < k0 || Beyond(i + 1, to) {
        reached := UpFromLevel(ms, base, k0, goal, i + 1, k, to, faults);
      } else if faults(i + 1).Some? {
        reached := i;
      } else {
        RaisedFromLevel(ms, base, i);
        reached := UpFromLevel(ms, base, k0, goal, i + 1, k + 1, to, faults);
      }
    }
  }

  lemma KnownVersions<S>(ms: seq<Migration<S>>, k: nat, i: nat)
    requires Contiguous(ms) && k <= |ms| && i < |ms|
    ensures ms[i].version in Versions(LedgerOf(ms, k)) <==> i < k
  {
    var ledger := LedgerOf(ms, k);
    if i < k {
      assert ledger[i] in ledger && ledger[i].version == i + 1;
    }
  }

  /**
   From a ledger of the first k migrations, up leaves a ledger of the first so many and the
   schema their ups make; it succeeds with the most it was asked for, or stops just before
   the first migration with a failing statement.
   */
  lemma UpReaches<S>(ms: seq<Migration<S>>, base: S, k: nat, to: Option<int>, faults: Faults) returns (reached: nat)
    requires Contiguous(ms) && k <= |ms|
    ensures Climbed(Up(ms, to, faults, DbAt(ms, base, k)), ms, base, k, reached, UpGoal(|ms|, k, to), faults)
  {
    SliceHasNoDrift(ms, LedgerOf(ms, k));
    reached := UpFromLevel(ms, base, k, UpGoal(|ms|, k, to), 0, k, to, faults);
  }

  function DownGoal(k: nat, to: Option<int>): nat {
    Min(k, Max(if to.Some? then to.value else 0, 0))
  }

  function Countdown(from: int, to: int): seq<int>
    decreases from - to
  {
    if from <= to then [] else [from] + Countdown(from - 1, to)
  }

  ghost predicate Descended<S>(o: Outcome<S>, ms: seq<Migration<S>>, base: S,
                               from: nat, reached: nat, goal: nat, faults: Faults) {
    && goal <= reached <= from <= |ms|
    && o.db == DbAt(ms, base, reached)
    && Faultless(faults, reached, from)
    && (if reached == goal then o.result == Done(Countdown(from, reached))
        else faults(reached).Some? && o.result == Failed(reached))
  }

  lemma DownStep<S>(ms: seq<Migration<S>>, k: nat, n: nat, target: int, faults: Faults, db: Db<S>)
    requires Contiguous(ms) && 0 < n <= k <= |ms|
    ensures var records := LedgerOf(ms, k);
            DownFrom(ms, records, n, target, faults, db) ==
            if n <= target then DownFrom(ms, records, n - 1, target, faults, db)
            else if faults(n).Some? then Outcome(db, Failed(n))
            else Preceded([n], DownFrom(ms, records, n - 1, target, faults, Lowered(db, ms[n - 1])))
  {
    FindInContiguous(ms, 1, n - 1);
  }

  /** The records at or below the target are passed over. */
  lemma {:induction false} DownPasses<S>(ms: seq<Migration<S>>, k: nat, n: nat, target: int, faults: Faults, db: Db<S>)
    requires Contiguous(ms) && n <= k <= |ms| && (n == 0 || n <= target)
    ensures DownFrom(ms, LedgerOf(ms, k), n, target, faults, db) == Outcome(db, Done([]))
  {
    if n > 0 {
      DownPasses(ms, k, n - 1, target, faults, db);
    }
  }

  ghost predicate DescendsFrom<S>(ms: seq<Migration<S>>, base: S, k: nat, n: nat,
                                  target: int, reached: nat, goal: nat, faults: Faults)
    requires n <= k <= |ms|
  {
    Descended(DownFrom(ms, LedgerOf(ms, k), n, target, faults, DbAt(ms, base, n)), ms, base, n, reached, goal, faults)
  }

  lemma DescentStops<S>(ms: seq<Migration<S>>, base: S, k: nat, n: nat, target: int, goal: nat, faults: Faults)
    requires Contiguous(ms) && goal < n <= k <= |ms| && target < n && faults(n).Some?
    ensures DescendsFrom(ms, base, k, n, target, n, goal, faults)
  {
    DownStep(ms, k, n, target, faults, DbAt(ms, base, n));
  }

  lemma DescentGoesOn<S>(ms: seq<Migration<S>>, base: S, k: nat, n: nat,
                         target: int, reached: nat, goal: nat, faults: Faults)
    requires Contiguous(ms) && DownsInvert(ms, base) && goal < n <= k <= |ms| && target < n && faults(n).None?
    requires DescendsFrom(ms, base, k, n - 1, target, reached, goal, faults)
    ensures DescendsFrom(ms, base, k, n, target, reached, goal, faults)
  {
    hide DbAt, Lowered, Level, DownFrom, LedgerOf, Contiguous, DownsInvert, Descended, Preceded;
    DownStep(ms, k, n, target, faults, DbAt(ms, base, n));
    LoweredFromLevel(ms, base, n - 1);
    DescendedOneMore(DownFrom(ms, LedgerOf(ms, k), n - 1, target, faults, DbAt(ms, base, n - 1)),
                     ms, base, n, reached, goal, faults);
  }

  lemma DescendedOneMore<S>(o: Outcome<S>, ms: seq<Migration<S>>, base: S, n: nat, reached: nat,
                            goal: nat, faults: Faults)
    requires 0 < n <= |ms| && Descended(o, ms, base, n - 1, reached, goal, faults) && faults(n).None?
    ensures Descended(Preceded([n], o), ms, base, n, reached, goal, faults)
  {
  }

  lemma DescentIsOver<S>(ms: seq<Migration<S>>, base: S, k: nat, n: nat, target: int, faults: Faults)
    requires Contiguous(ms) && n <= k <= |ms|
    requires n == if target <= 0 then 0 else if target < k then target else k
    ensures DescendsFrom(ms, base, k, n, target, n, n, faults)
  {
    DownPasses(ms, k, n, target, faults, DbAt(ms, base, n));
  }

  lemma {:induction false} DownFromLevel<S>(ms: seq<Migration<S>>, base: S, k: nat, goal: nat, n: nat,
                                            target: int, faults: Faults)
    returns (reached: nat)
    requires Contiguous(ms) && DownsInvert(ms, base) && goal <= n <= k <= |ms|
    requires goal == if target <= 0 then 0 else if target < k then target else k
    ensures DescendsFrom(ms, base, k, n, target, reached, goal, faults)
  {
    hide DescendsFrom, Contiguous, DownsInvert;
    if n == goal {
      reached := n;
      DescentIsOver(ms, base, k, n, target, faults);
    } else {
      if faults(n).Some? {
        reached := n;
        DescentStops(ms, base, k, n, target, goal, faults);
      } else {
        reached := DownFromLevel(ms, base, k, goal, n - 1, target, faults);
        DescentGoesOn(ms, base, k, n, target, reached, goal, faults);
      }
    }
  }

  /** The same for down: it leaves a shorter prefix and the schema of it. */
  lemma DownReaches<S>(ms: seq<Migration<S>>, base: S, k: nat, to: Option<int>, faults: Faults) returns (reached: nat)
    requires Contiguous(ms) && DownsInvert(ms, base) && k <= |ms|
    ensures Descended(Down(ms, to, faults, DbAt(ms, base, k)), ms, base, k, reached, DownGoal(k, to), faults)
  {
    var target := if to.Some? then to.value else 0;
    UpToIsSlice(LedgerOf(ms, k), target);
    SliceHasNoDrift(ms, UpTo(LedgerOf(ms, k), target));
    reached := DownFromLevel(ms, base, k, DownGoal(k, to), k, target, faults);
  }

  datatype Command = GoUp(to: Option<int>, faults: Faults) | GoDown(to: Option<int>, faults: Faults)

  function Obey<S>(ms: seq<Migration<S>>, c: Command, db: Db<S>): Db<S> {
    match c
    case GoUp(to, faults) => Up(ms, to, faults, db).db
    case GoDown(to, faults) => Down(ms, to, faults, db).db
  }

  function ObeyAll<S>(ms: seq<Migration<S>>, cs: seq<Command>, db: Db<S>): Db<S> {
    if cs == [] then db else ObeyAll(ms, cs[1..], Obey(ms, cs[0], db))
  }

  /**
   Over any sequence of commands, with failures at any statement, the ledger stays the first k
   migrations and the schema what their ups make of the empty one.
   */
  lemma {:induction false} LedgerAlwaysPrefix<S>(ms: seq<Migration<S>>, base: S, cs: seq<Command>, k: nat)
    returns (reached: nat)
    requires Contiguous(ms) && DownsInvert(ms, base) && k <= |ms|
    ensures reached <= |ms| && ObeyAll(ms, cs, DbAt(ms, base, k)) == DbAt(ms, base, reached)
  {
    if cs == [] {
      reached := k;
    } else {
      var next;
      if cs[0].GoUp? {
        next := UpReaches(ms, base, k, cs[0].to, cs[0].faults);
      } else {
        next := DownReaches(ms, base, k, cs[0].to, cs[0].faults);
      }
      reached := LedgerAlwaysPrefix(ms, base, cs[1..], next);
    }
  }

  /** Going down and back up, with nothing failing, restores schema and ledger. */
  lemma DownThenUpRestores<S>(ms: seq<Migration<S>>, base: S, k: nat, j: int)
    requires Contiguous(ms) && DownsInvert(ms, base) && k <= |ms|
    ensures var none := (v: int) => None;
            var down := Down(ms, Some(j), none, DbAt(ms, base, k));
            var up := Up(ms, Some(k), none, down.db);
            down.result.Done? && up.result.Done? && up.db == DbAt(ms, base, k)
  {
    var none := (v: int) => None;
    var low := DownReaches(ms, base, k, Some(j), none);
    var high := UpReaches(ms, base, low, Some(k), none);
  }
}
