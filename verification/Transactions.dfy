/**
 Transactions and savepoints on one pooled connection (packages/db/src/client.ts), over an
 abstract database state and with a failure at any statement but a rollback.
 */
module Transactions {
  import opened Options

  /**
   What a handler does with its connection.  `ok` says whether the statement itself succeeds,
   and `sets` and `releases` whether SAVEPOINT and RELEASE SAVEPOINT do.  What a statement does
   depends on the tenant in scope, which is all that row-level security looks at.
   */
  datatype Handler<!D> =
    | Statement(effect: Effect<D>, ok: bool)
    | Throws
    | Then(first: Handler<D>, second: Handler<D>)
    | InSavepoint(name: string, sets: bool, releases: bool, body: Handler<D>)
    | Recovering(body: Handler<D>)

  type Effect<!D> = (Option<string>, D) -> D

  datatype Outcome = Returned | Threw

  // ---------- The connection, as PostgreSQL keeps it ----------

  datatype Status = Idle | Open | Aborted

  datatype Snapshot<D> = Snapshot(name: string, work: D)

  datatype Session<D> = Session(
    status: Status,
    work: D,
    savepoints: seq<Snapshot<D>>,
    tenant: Option<string>,
    committed: D)

  datatype Answer<D> = Answer(session: Session<D>, ok: bool)

  predicate Clean<D>(s: Session<D>) {
    s.status.Idle? && s.tenant.None? && s.savepoints == []
  }

  function Ended<D>(s: Session<D>, committed: D): Session<D> {
    Session(Idle, committed, [], None, committed)
  }

  function Failing<D>(s: Session<D>): Answer<D> {
    Answer(if s.status.Idle? then s else s.(status := Aborted), false)
  }

  function Begin<D>(s: Session<D>, ok: bool): Answer<D> {
    if ok then Answer(Session(Open, s.committed, [], None, s.committed), true) else Failing(s)
  }

  function SetTenant<D>(s: Session<D>, tenant: string, ok: bool): Answer<D> {
    if ok && s.status.Open? then Answer(s.(tenant := Some(tenant)), true) else Failing(s)
  }

  function Execute<D>(s: Session<D>, effect: Effect<D>, ok: bool): Answer<D> {
    if ok && s.status.Open? then Answer(s.(work := effect(s.tenant, s.work)), true) else Failing(s)
  }

  function SetSavepoint<D>(s: Session<D>, name: string, ok: bool): Answer<D> {
    if ok && s.status.Open? then Answer(s.(savepoints := s.savepoints + [Snapshot(name, s.work)]), true) else Failing(s)
  }

  /** The most recent savepoint of that name. */
  function Latest<D>(sps: seq<Snapshot<D>>, name: string): (r: Option<nat>)
    ensures r.Some? ==> r.value < |sps| && sps[r.value].name == name
    ensures r.Some? ==> forall i | r.value < i < |sps| :: sps[i].name != name
    ensures r.None? ==> forall i | 0 <= i < |sps| :: sps[i].name != name
  {
    if sps == [] then None
    else if sps[|sps| - 1].name == name then Some(|sps| - 1)
    else Latest(sps[..|sps| - 1], name)
  }

  function ReleaseSavepoint<D>(s: Session<D>, name: string, ok: bool): Answer<D> {
    match Latest(s.savepoints, name)
    case Some(i) => if ok && s.status.Open? then Answer(s.(savepoints := s.savepoints[..i]), true) else Failing(s)
    case None => Failing(s)
  }

  /** Rolls back to the savepoint and keeps it; allowed in an aborted transaction. */
  function RollbackTo<D>(s: Session<D>, name: string): Answer<D> {
    match Latest(s.savepoints, name)
    case Some(i) =>
      if s.status.Idle? then Failing(s)
      else Answer(s.(status := Open, work := s.savepoints[i].work, savepoints := s.savepoints[..i + 1]), true)
    case None => Failing(s)
  }

  /** COMMIT of an aborted transaction rolls it back, and is not an error of its own. */
  function Commit<D>(s: Session<D>, ok: bool): Answer<D> {
    Answer(Ended(s, if s.status.Open? && ok then s.work else s.committed), ok)
  }

  function Rollback<D>(s: Session<D>): Session<D> {
    Ended(s, s.committed)
  }

  // ---------- What the helpers do, statement by statement ----------

  datatype Ran<D> = Ran(session: Session<D>, outcome: Outcome)

  function OutcomeOf(ok: bool): Outcome {
    if ok then Returned else Threw
  }

  function Perform<D>(h: Handler<D>, s: Session<D>): Ran<D> {
    match h
    case Statement(effect, ok) =>
      var a := Execute(s, effect, ok);
      Ran(a.session, OutcomeOf(a.ok))
    case Throws => Ran(s, Threw)
    case Then(first, second) =>
      var r := Perform(first, s);
      if r.outcome.Threw? then r else Perform(second, r.session)
    case InSavepoint(name, sets, releases, body) =>
      var set_ := SetSavepoint(s, name, sets);
      if !set_.ok then Ran(set_.session, Threw) else
      CloseSavepoint(name, releases, Perform(body, set_.session))
    case Recovering(body) => Ran(Perform(body, s).session, Returned)
  }

  function CloseSavepoint<D>(name: string, releases: bool, r: Ran<D>): Ran<D> {
    if r.outcome.Threw? then Ran(RollbackTo(r.session, name).session, Threw) else
    var released := ReleaseSavepoint(r.session, name, releases);
    if released.ok then Ran(released.session, Returned)
    else Ran(RollbackTo(released.session, name).session, Threw)
  }

  /** Which of its own statements fail, besides the handler's. */
  datatype Faults = Faults(beginFails: bool, tenantFails: bool, commitFails: bool)

  function Transact<D>(h: Handler<D>, tenant: Option<string>, faults: Faults, s: Session<D>): Ran<D> {
    var begun := Begin(s, !faults.beginFails);
    if !begun.ok then Ran(Rollback(begun.session), Threw) else
    var scoped := if tenant.Some? then SetTenant(begun.session, tenant.value, !faults.tenantFails) else begun;
    if !scoped.ok then Ran(Rollback(scoped.session), Threw) else
    var r := Perform(h, scoped.session);
    if r.outcome.Threw? then Ran(Rollback(r.session), Threw) else
    var committed := Commit(r.session, !faults.commitFails);
    if committed.ok then Ran(committed.session, Returned) else Ran(Rollback(committed.session), Threw)
  }

  class PoolClient<D> {
    var session: Session<D>

    constructor (committed: D)
      ensures session == Session(Idle, committed, [], None, committed)
    {
      session := Session(Idle, committed, [], None, committed);
    }

    method RunHandler(h: Handler<D>) returns (outcome: Outcome)
      modifies this
      ensures Ran(session, outcome) == Perform(h, old(session))
      decreases h, 0
    {
      match h {
        case Statement(effect, ok) =>
          var a := Execute(session, effect, ok);
          session, outcome := a.session, OutcomeOf(a.ok);
        case Throws =>
          outcome := Threw;
        case Then(first, second) =>
          outcome := RunHandler(first);
          if outcome == Returned {
            outcome := RunHandler(second);
          }
        case InSavepoint(name, sets, releases, body) =>
          outcome := WithSavepoint(name, sets, releases, body);
        case Recovering(body) =>
          var _ := RunHandler(body);
          outcome := Returned;
      }
    }

    method WithSavepoint(name: string, sets: bool, releases: bool, body: Handler<D>) returns (outcome: Outcome)
      modifies this
      ensures Ran(session, outcome) == Perform(InSavepoint(name, sets, releases, body), old(session))
      decreases body, 1
    {
      var a := SetSavepoint(session, name, sets);
      session := a.session;
      if !a.ok {
        return Threw;
      }
      var ran := RunHandler(body);
      if ran == Returned {
        a := ReleaseSavepoint(session, name, releases);
        session := a.session;
        if a.ok {
          return Returned;
        }
      }
      a := RollbackTo(session, name);
      session := a.session;
      return Threw;
    }

    /** withTenant, and withoutTenant when there is none. */
    method WithTenant(tenant: Option<string>, h: Handler<D>, faults: Faults) returns (outcome: Outcome)
      modifies this
      ensures Ran(session, outcome) == Transact(h, tenant, faults, old(session))
    {
      var a := Begin(session, !faults.beginFails);
      session := a.session;
      if a.ok && tenant.Some? {
        a := SetTenant(session, tenant.value, !faults.tenantFails);
        session := a.session;
      }
      if a.ok {
        var ran := RunHandler(h);
        if ran == Returned {
          a := Commit(session, !faults.commitFails);
          session := a.session;
          if a.ok {
            return Returned;
          }
        }
      }
      session := Rollback(session);
      return Threw;
    }
  }

  // ---------- What any handler comes to ----------

  function Names<D>(h: Handler<D>): set<string> {
    match h
    case Statement(_, _) => {}
    case Throws => {}
    case Then(first, second) => Names(first) + Names(second)
    case InSavepoint(name, _, _, body) => {name} + Names(body)
    case Recovering(body) => Names(body)
  }

  /** No savepoint is set under the name of one around it. */
  predicate FreshNames<D>(h: Handler<D>) {
    match h
    case Statement(_, _) => true
    case Throws => true
    case Then(first, second) => FreshNames(first) && FreshNames(second)
    case InSavepoint(name, _, _, body) => name !in Names(body) && FreshNames(body)
    case Recovering(body) => FreshNames(body)
  }

  /** s' is s with other work done, the same savepoints below, and only handler h's names on top. */
  ghost predicate Above<D>(s: Session<D>, s': Session<D>, h: Handler<D>) {
    && s'.tenant == s.tenant && s'.committed == s.committed
    && s.savepoints <= s'.savepoints
    && forall i | |s.savepoints| <= i < |s'.savepoints| :: s'.savepoints[i].name in Names(h)
  }

  lemma LatestIsOurs<D>(s: Session<D>, name: string, s': Session<D>, body: Handler<D>)
    requires name !in Names(body) && Above(SetSavepoint(s, name, true).session, s', body) && s.status.Open?
    ensures Latest(s'.savepoints, name) == Some(|s.savepoints|)
    ensures s'.savepoints[..|s.savepoints|] == s.savepoints
    ensures s'.savepoints[|s.savepoints|] == Snapshot(name, s.work)
  {
    var mine := SetSavepoint(s, name, true).session.savepoints;
    assert mine[|s.savepoints|] == Snapshot(name, s.work) == s'.savepoints[|s.savepoints|];
    assert s'.savepoints[..|mine|] == mine;
    assert s'.savepoints[..|s.savepoints|] == mine[..|s.savepoints|] == s.savepoints;
    var latest := Latest(s'.savepoints, name);
    assert latest.Some?;
    assert latest.value >= |s.savepoints|;
  }

  /** What a handler comes to: its work, whether it threw, and whether the transaction is left aborted. */
  datatype Came<D> = Came(work: D, threw: bool, aborted: bool)

  /**
   The transaction as its text nests, with no stack of savepoints: once a statement has failed
   every later one fails, a savepoint that is not set aborts and throws, one whose body aborted
   or that is not released throws, and one that throws once set undoes its body and its abortion.
   */
  function Comes<D>(h: Handler<D>, tenant: Option<string>, work: D, aborted: bool): Came<D> {
    match h
    case Statement(effect, ok) =>
      if ok && !aborted then Came(effect(tenant, work), false, false) else Came(work, true, true)
    case Throws => Came(work, true, aborted)
    case Then(first, second) =>
      var c := Comes(first, tenant, work, aborted);
      if c.threw then c else Comes(second, tenant, c.work, c.aborted)
    case InSavepoint(_, sets, releases, body) =>
      if aborted || !sets then Came(work, true, true) else
      var c := Comes(body, tenant, work, false);
      if c.threw || c.aborted || !releases then Came(work, true, false) else c
    case Recovering(body) => Comes(body, tenant, work, aborted).(threw := false)
  }

  ghost predicate ComesTo<D>(h: Handler<D>, s: Session<D>, r: Ran<D>) {
    var c := Comes(h, s.tenant, s.work, s.status.Aborted?);
    && Above(s, r.session, h)
    && r.outcome == OutcomeOf(!c.threw)
    && r.session.status == (if c.aborted then Aborted else Open)
    && (!c.aborted ==> r.session.work == c.work)
  }

  lemma AbortedStaysAborted<D>(h: Handler<D>, tenant: Option<string>, work: D)
    ensures Comes(h, tenant, work, true).aborted
  {
    if h.Then? {
      AbortedStaysAborted(h.first, tenant, work);
      AbortedStaysAborted(h.second, tenant, Comes(h.first, tenant, work, true).work);
    }
  }

  /** In an aborted transaction what the work was makes no difference to what throws. */
  lemma AbortedIgnoresWork<D>(h: Handler<D>, tenant: Option<string>, work: D, work': D)
    ensures Comes(h, tenant, work, true).threw == Comes(h, tenant, work', true).threw
  {
    if h.Then? {
      var c, c' := Comes(h.first, tenant, work, true), Comes(h.first, tenant, work', true);
      AbortedStaysAborted(h.first, tenant, work);
      AbortedStaysAborted(h.first, tenant, work');
      AbortedIgnoresWork(h.first, tenant, work, work');
      AbortedIgnoresWork(h.second, tenant, c.work, c'.work);
    }
  }

  /** The stack of savepoints the connection keeps comes to what the nesting says, whatever fails. */
  lemma {:induction false} HandlersComeTo<D>(h: Handler<D>, s: Session<D>)
    requires !s.status.Idle? && FreshNames(h)
    ensures ComesTo(h, s, Perform(h, s))
  {
    match h
    case Statement(_, _) =>
    case Throws =>
    case Then(first, second) =>
      HandlersComeTo(first, s);
      var r := Perform(first, s);
      if r.outcome.Returned? {
        HandlersComeTo(second, r.session);
        var c := Comes(first, s.tenant, s.work, s.status.Aborted?);
        if c.aborted {
          AbortedStaysAborted(second, s.tenant, c.work);
          AbortedStaysAborted(second, s.tenant, r.session.work);
          AbortedIgnoresWork(second, s.tenant, c.work, r.session.work);
        }
      }
    case InSavepoint(name, sets, releases, body) =>
      if s.status.Open? && sets {
        var set_ := SetSavepoint(s, name, true).session;
        HandlersComeTo(body, set_);
        SavepointComesTo(name, releases, body, s, Perform(body, set_));
      }
    case Recovering(body) =>
      HandlersComeTo(body, s);
  }

  lemma SavepointComesTo<D>(name: string, releases: bool, body: Handler<D>, s: Session<D>, r: Ran<D>)
    requires s.status.Open? && name !in Names(body)
    requires ComesTo(body, SetSavepoint(s, name, true).session, r)
    ensures ComesTo(InSavepoint(name, true, releases, body), s, CloseSavepoint(name, releases, r))
  {
    LatestIsOurs(s, name, r.session, body);
    var n := |s.savepoints|;
    assert r.session.savepoints[..n + 1] == s.savepoints + [Snapshot(name, s.work)];
  }

  /** It returns with the transaction aborted, so COMMIT rolls back and says nothing. */
  predicate LosesItsWork<D>(h: Handler<D>, tenant: Option<string>, committed: D) {
    !Comes(h, tenant, committed, false).threw && Comes(h, tenant, committed, false).aborted
  }

  /**
   What is committed and what the caller is told, for every handler and every failure: told it
   succeeded, it is missing its work exactly when it swallowed a failed statement.
   */
  lemma TransactExactly<D>(h: Handler<D>, tenant: Option<string>, faults: Faults, s: Session<D>)
    requires Clean(s) && FreshNames(h)
    ensures var r := Transact(h, tenant, faults, s);
            var c := Comes(h, tenant, s.committed, false);
            && Clean(r.session)
            && (r.outcome.Returned? <==>
                !faults.beginFails && !(tenant.Some? && faults.tenantFails) && !c.threw && !faults.commitFails)
            && r.session.committed ==
                  if r.outcome.Returned? && !LosesItsWork(h, tenant, s.committed) then c.work else s.committed
  {
    var begun := Begin(s, !faults.beginFails);
    if begun.ok {
      var scoped := if tenant.Some? then SetTenant(begun.session, tenant.value, !faults.tenantFails) else begun;
      if scoped.ok {
        HandlersComeTo(h, scoped.session);
      }
    }
  }

  /** Success means the work is there, for every failure, if and only if the handler does not lose it. */
  lemma SuccessIsKeptExactly<D>(h: Handler<D>, tenant: Option<string>, s: Session<D>)
    requires Clean(s) && FreshNames(h) && Comes(h, tenant, s.committed, false).work != s.committed
    ensures (forall faults :: Transact(h, tenant, faults, s).outcome.Returned? ==>
               Transact(h, tenant, faults, s).session.committed == Comes(h, tenant, s.committed, false).work)
            <==> !LosesItsWork(h, tenant, s.committed)
  {
    forall faults
      ensures Transact(h, tenant, faults, s).outcome.Returned? && !LosesItsWork(h, tenant, s.committed) ==>
                Transact(h, tenant, faults, s).session.committed == Comes(h, tenant, s.committed, false).work
    {
      TransactExactly(h, tenant, faults, s);
    }
    TransactExactly(h, tenant, Faults(false, false, false), s);
  }

  // ---------- What a handler means ----------

  /** The effects that survive, and whether the handler got to its end. */
  datatype Meant<D> = Fine(work: D) | Failed(work: D)

  function Meaning<D>(h: Handler<D>, tenant: Option<string>, work: D): Meant<D> {
    match h
    case Statement(effect, ok) => if ok then Fine(effect(tenant, work)) else Failed(work)
    case Throws => Failed(work)
    case Then(first, second) =>
      var m := Meaning(first, tenant, work);
      if m.Failed? then m else Meaning(second, tenant, m.work)
    case InSavepoint(_, sets, releases, body) =>
      var m := Meaning(body, tenant, work);
      if !sets || !releases || m.Failed? then Failed(work) else m
    case Recovering(body) => Fine(Meaning(body, tenant, work).work)
  }

  /** If it throws, no failed statement is left without a savepoint around it. */
  predicate LeavesUsable<D>(h: Handler<D>) {
    match h
    case Statement(_, ok) => ok
    case Throws => true
    case Then(first, second) => LeavesUsable(first) && LeavesUsable(second)
    case InSavepoint(_, sets, _, _) => sets
    case Recovering(_) => true
  }

  /** Every failing statement is propagated or enclosed in a savepoint. */
  predicate Disciplined<D>(h: Handler<D>) {
    match h
    case Statement(_, _) => true
    case Throws => true
    case Then(first, second) => Disciplined(first) && Disciplined(second)
    case InSavepoint(_, _, _, body) => Disciplined(body)
    case Recovering(body) => Disciplined(body) && LeavesUsable(body)
  }

  /** A disciplined handler comes to what it means, so it never loses its work. */
  lemma {:induction false} DisciplinedComesToItsMeaning<D>(h: Handler<D>, tenant: Option<string>, work: D)
    requires Disciplined(h)
    ensures var c, m := Comes(h, tenant, work, false), Meaning(h, tenant, work);
            && c.threw == m.Failed? && c.work == m.work
            && (!c.threw || LeavesUsable(h) ==> !c.aborted)
  {
    match h
    case Statement(_, _) =>
    case Throws =>
    case Then(first, second) =>
      DisciplinedComesToItsMeaning(first, tenant, work);
      DisciplinedComesToItsMeaning(second, tenant, Comes(first, tenant, work, false).work);
    case InSavepoint(_, _, _, body) => DisciplinedComesToItsMeaning(body, tenant, work);
    case Recovering(body) => DisciplinedComesToItsMeaning(body, tenant, work);
  }

  /** What a run of a handler on a usable transaction comes to. */
  ghost predicate Faithful<D>(h: Handler<D>, s: Session<D>, r: Ran<D>) {
    var m := Meaning(h, s.tenant, s.work);
    && Above(s, r.session, h)
    && (r.outcome.Returned? <==> m.Fine?)
    && (m.Fine? || LeavesUsable(h) ==> r.session.status.Open?)
    && (r.session.status.Open? ==> r.session.work == m.work)
    && !r.session.status.Idle?
  }

  lemma HandlersAreFaithful<D>(h: Handler<D>, s: Session<D>)
    requires s.status.Open? && Disciplined(h) && FreshNames(h)
    ensures Faithful(h, s, Perform(h, s))
  {
    HandlersComeTo(h, s);
    DisciplinedComesToItsMeaning(h, s.tenant, s.work);
  }

  /**
   Whatever its body does and whichever of its own statements fails, the transaction is usable
   after a savepoint exactly when it could be set, and one that threw after that has put back the
   state it was entered with; it returns only if it was set, its body returned and it was released.
   */
  lemma ThrowingSavepointRestores<D>(name: string, sets: bool, releases: bool, body: Handler<D>, s: Session<D>)
    requires s.status.Open? && FreshNames(InSavepoint(name, sets, releases, body))
    ensures var r := Perform(InSavepoint(name, sets, releases, body), s);
            && (r.session.status.Open? <==> sets)
            && s.savepoints <= r.session.savepoints
            && (r.outcome.Threw? && sets ==> r.session.work == s.work)
            && (r.outcome.Returned? ==> sets && releases && !Comes(body, s.tenant, s.work, false).threw)
  {
    HandlersComeTo(InSavepoint(name, sets, releases, body), s);
  }

  /**
   A transaction commits exactly the surviving effects of its handler, or nothing; it returns
   to its caller exactly when it committed; and the connection goes back with no transaction
   open and no tenant set, whatever failed.
   */
  lemma CommitsExactlyOrNothing<D>(h: Handler<D>, tenant: Option<string>, faults: Faults, s: Session<D>)
    requires Clean(s) && Disciplined(h) && FreshNames(h)
    ensures var r := Transact(h, tenant, faults, s);
            var m := Meaning(h, tenant, s.committed);
            && Clean(r.session)
            && (r.outcome.Returned? <==>
                !faults.beginFails && !(tenant.Some? && faults.tenantFails) && m.Fine? && !faults.commitFails)
            && r.session.committed == if r.outcome.Returned? then m.work else s.committed
  {
    var begun := Begin(s, !faults.beginFails);
    if begun.ok {
      var scoped := if tenant.Some? then SetTenant(begun.session, tenant.value, !faults.tenantFails) else begun;
      if scoped.ok {
        HandlersAreFaithful(h, scoped.session);
      }
    }
  }

  /**
   The discipline matters: a handler that swallows a failed statement with no savepoint around
   it is told that it succeeded, and none of its earlier work is there.
   */
  lemma SwallowedFailureLosesTheWork<D>(effect: Effect<D>, failing: Effect<D>, tenant: string, s: Session<D>)
    requires Clean(s)
    ensures var h := Then(Statement(effect, true), Recovering(Statement(failing, false)));
            var r := Transact(h, Some(tenant), Faults(false, false, false), s);
            && Meaning(h, Some(tenant), s.committed) == Fine(effect(Some(tenant), s.committed))
            && r.outcome.Returned? && r.session.committed == s.committed
  {
    var swallow := Recovering(Statement(failing, false));
    var work := effect(Some(tenant), s.committed);
    assert Meaning(Statement(failing, false), Some(tenant), work) == Failed(work);
    assert Meaning(swallow, Some(tenant), work) == Fine(work);
    var s1 := SetTenant(Begin(s, true).session, tenant, true).session;
    var s2 := Execute(s1, effect, true).session;
    assert Perform(Statement(effect, true), s1) == Ran(s2, Returned);
    assert Perform(Statement(failing, false), s2) == Ran(Failing(s2).session, Threw);
    assert Perform(swallow, s2) == Ran(Failing(s2).session, Returned);
    assert Perform(Then(Statement(effect, true), swallow), s1) == Ran(Failing(s2).session, Returned);
  }

  /**
   Names matter too: were an inner savepoint set under the name of the one around it, the outer
   one would go back only to the inner's entry.
   */
  lemma ReusedNameRestoresTooLittle<D>(name: string, effect: Effect<D>, failing: Effect<D>, s: Session<D>)
    requires s.status.Open?
    ensures var inner := Recovering(InSavepoint(name, true, true, Statement(failing, false)));
            var h := InSavepoint(name, true, true, Then(Statement(effect, true), Then(inner, Throws)));
            Meaning(h, s.tenant, s.work) == Failed(s.work) && Perform(h, s).session.work == effect(s.tenant, s.work)
  {
    var failed := InSavepoint(name, true, true, Statement(failing, false));
    var tail := Then(Recovering(failed), Throws);
    var body := Then(Statement(effect, true), tail);
    var work := effect(s.tenant, s.work);
    assert Meaning(Statement(effect, true), s.tenant, s.work) == Fine(work);
    assert Meaning(tail, s.tenant, work).Failed?;
    assert Meaning(body, s.tenant, s.work).Failed?;
    var s1 := SetSavepoint(s, name, true).session;
    var s2 := Execute(s1, effect, true).session;
    var s3 := SetSavepoint(s2, name, true).session;
    var s4 := RollbackTo(Failing(s3).session, name).session;
    assert s3.savepoints[|s3.savepoints| - 1] == Snapshot(name, work);
    assert s4.savepoints == s3.savepoints && s4.work == work;
    assert Perform(Statement(failing, false), s3) == Ran(Failing(s3).session, Threw);
    assert Perform(failed, s2) == Ran(s4, Threw);
    assert Perform(Recovering(failed), s2) == Ran(s4, Returned);
    assert Perform(tail, s2) == Ran(s4, Threw);
    assert Perform(body, s1) == Ran(s4, Threw);
  }
}
