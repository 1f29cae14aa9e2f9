/**
 The table `idempotent_requests` and the four statements that touch it
 (packages/core/src/idempotency.ts).  A statement is atomic; what happens between
 two statements of one caller is up to everybody else.
 */
module IdempotentRequests {
  import opened Options
  import opened CanonicalJson

  /**
   A keyed digest of a canonical request text.  The digest is taken to be injective in the
   tenant's key, the key version and the text, so it is represented by that triple.
   */
  datatype Fingerprint = Mac(tenant: Text, version: nat, text: Text)

  datatype Key = Key(tenant: Text, route: Text, key: Text)

  datatype Response = Response(status: int, body: string, contentType: string)

  datatype Status = InFlight | Completed

  datatype Row = Row(
    fingerprint: Fingerprint,
    keyVersion: nat,
    status: Status,
    claimedAt: int,
    expiresAt: int,
    responseStatus: Option<int>,
    responseBody: Option<string>,
    responseContentType: Option<string>,
    completedAt: Option<int>)

  type Rows = map<Key, Row>

  /** The replay window and the lease, in seconds. */
  datatype Intervals = Intervals(window: nat, lease: nat)

  const DEFAULT_INTERVALS := Intervals(24 * 60 * 60, 10 * 60)

  /** What claimIdempotentRequest returns, its two NX-5001 errors included. */
  datatype Answer =
    | Claimed(fingerprint: Fingerprint)
    | Replay(fingerprint: Fingerprint, response: Response)
    | StillInFlight
    | Mismatch
    | NoRecordedAnswer
    | Unclaimable

  function FingerprintFor(k: Key, version: nat, text: Text): Fingerprint {
    Mac(k.tenant, version, text)
  }

  // ---------- The statements ----------

  /** The WHERE of the upsert's conflict arm. */
  predicate Takeable(row: Row, fp: Fingerprint, version: nat, now: int, iv: Intervals) {
    || row.expiresAt <= now
    || (row.status.InFlight? && row.claimedAt <= now - iv.lease && row.fingerprint == fp && row.keyVersion == version)
  }

  predicate CanClaim(rows: Rows, k: Key, fp: Fingerprint, version: nat, now: int, iv: Intervals) {
    k in rows ==> Takeable(rows[k], fp, version, now, iv)
  }

  function FreshRow(fp: Fingerprint, version: nat, now: int, iv: Intervals): Row {
    Row(fp, version, InFlight, now, now + iv.window, None, None, None, None)
  }

  /** The WHERE shared by record and release. */
  predicate HeldUnder(rows: Rows, k: Key, fp: Fingerprint) {
    k in rows && rows[k].status.InFlight? && rows[k].fingerprint == fp
  }

  function WithAnswer(row: Row, response: Response, now: int): Row {
    row.(status := Completed,
    responseStatus := Some(response.status),
    responseBody := Some(response.body),
    responseContentType := Some(response.contentType),
    completedAt := Some(now))
  }

  /** What the caller concludes from the row it read after its upsert claimed nothing. */
  function Judge(row: Row, k: Key, text: Text, version: nat): Answer {
    var fp := FingerprintFor(k, version, text);
    var expected := if row.keyVersion == version then fp else FingerprintFor(k, row.keyVersion, text);
    if expected != row.fingerprint then
      Mismatch
    else if row.status != Completed then
      StillInFlight
    else if row.responseStatus.None? || row.responseBody.None? || row.responseContentType.None? then
      NoRecordedAnswer
    else
      Replay(fp, Response(row.responseStatus.value, row.responseBody.value, row.responseContentType.value))
  }

  /** One committed statement of anybody, as the table sees it. */
  datatype Statement =
    | ClaimRow(key: Key, fp: Fingerprint, version: nat, now: int, iv: Intervals)
    | RecordRow(key: Key, fp: Fingerprint, response: Response, now: int)
    | ReleaseRow(key: Key, fp: Fingerprint)

  function Execute(rows: Rows, s: Statement): Rows {
    match s
    case ClaimRow(k, fp, version, now, iv) =>
      if CanClaim(rows, k, fp, version, now, iv) then rows[k := FreshRow(fp, version, now, iv)] else rows
    case RecordRow(k, fp, response, now) =>
      if HeldUnder(rows, k, fp) then rows[k := WithAnswer(rows[k], response, now)] else rows
    case ReleaseRow(k, fp) =>
      if HeldUnder(rows, k, fp) then rows - {k} else rows
  }

  function ExecuteAll(rows: Rows, ss: seq<Statement>): Rows {
    if ss == [] then rows else Execute(ExecuteAll(rows, ss[..|ss| - 1]), ss[|ss| - 1])
  }

  // ---------- What a row means ----------

  /** What a key holds, read without versions, digests or columns. */
  datatype Cell = Free | Held(text: Text) | Done(text: Text, response: Response)

  /** The shape every row has: its digest is of its own tenant and version, and an answer is all there or not at all. */
  predicate WellShaped(k: Key, row: Row) {
    && row.fingerprint.tenant == k.tenant
    && row.fingerprint.version == row.keyVersion
    && row.responseStatus.Some? == row.responseBody.Some? == row.responseContentType.Some?
    && (row.status == Completed <==> row.responseStatus.Some?)
  }

  predicate AllWellShaped(rows: Rows) {
    forall k | k in rows :: WellShaped(k, rows[k])
  }

  function CellOf(rows: Rows, k: Key): Cell
    requires AllWellShaped(rows)
  {
    if k !in rows then Free
    else
      assert WellShaped(k, rows[k]);
      var row := rows[k];
      if row.status.InFlight? then Held(row.fingerprint.text)
      else Done(row.fingerprint.text,
                Response(row.responseStatus.value, row.responseBody.value, row.responseContentType.value))
  }

  /** A statement is issued by this module: claims and the rest use digests of the key's own tenant and version. */
  predicate Issued(s: Statement) {
    s.ClaimRow? ==> s.fp.tenant == s.key.tenant && s.fp.version == s.version
  }

  predicate AllIssued(ss: seq<Statement>) {
    forall s | s in ss :: Issued(s)
  }

  lemma {:induction false} StatementsKeepShape(rows: Rows, ss: seq<Statement>)
    requires AllWellShaped(rows) && AllIssued(ss)
    ensures AllWellShaped(ExecuteAll(rows, ss))
  {
    if ss != [] {
      StatementsKeepShape(rows, ss[..|ss| - 1]);
      assert Issued(ss[|ss| - 1]);
    }
  }

  /** An answer other than "claimed" says something about what the key holds for this request. */
  predicate TrueOf(answer: Answer, cell: Cell, text: Text) {
    match answer
    case Claimed(_) => true
    case Replay(_, response) => cell == Done(text, response)
    case StillInFlight => cell == Held(text)
    case Mismatch => !cell.Free? && cell.text != text
    case NoRecordedAnswer => false
    case Unclaimable => cell.Free?
  }

  /**
   Reading a row answers by what the key holds for this request, whatever key version the
   row was written under; the half-recorded answer cannot be met.
   */
  lemma JudgeReadsTheCell(rows: Rows, k: Key, text: Text, version: nat)
    requires AllWellShaped(rows) && k in rows
    ensures TrueOf(Judge(rows[k], k, text, version), CellOf(rows, k), text)
  {
    assert WellShaped(k, rows[k]);
  }

  /**
   When an in-flight row changes hands.  The same request takes it over at the lease only if
   the key version has not rotated since; anything else waits for the window to end.
   */
  lemma TakeoverExactly(rows: Rows, k: Key, text: Text, version: nat, now: int, iv: Intervals)
    requires AllWellShaped(rows) && CellOf(rows, k).Held?
    ensures CanClaim(rows, k, FingerprintFor(k, version, text), version, now, iv) <==>
            || rows[k].expiresAt <= now
            || (rows[k].claimedAt + iv.lease <= now && CellOf(rows, k) == Held(text) && rows[k].keyVersion == version)
  {
    assert WellShaped(k, rows[k]);
  }

  /**
   When a request may have a key, read off what the key holds: it is free, its window is over
   whatever it holds, or the same request held it under the same key version past the lease.
   */
  predicate Claimable(rows: Rows, k: Key, text: Text, version: nat, now: int, iv: Intervals)
    requires AllWellShaped(rows)
  {
    || CellOf(rows, k).Free?
    || rows[k].expiresAt <= now
    || (CellOf(rows, k) == Held(text) && rows[k].keyVersion == version && rows[k].claimedAt + iv.lease <= now)
  }

  /** A claim gives the key to the request exactly then, in a new window without an answer; else nothing changes. */
  lemma ClaimsExactly(rows: Rows, k: Key, text: Text, version: nat, now: int, iv: Intervals)
    requires AllWellShaped(rows)
    ensures var fp := Mac(k.tenant, version, text);
            Execute(rows, ClaimRow(k, fp, version, now, iv)) ==
            if Claimable(rows, k, text, version, now, iv)
            then rows[k := Row(fp, version, InFlight, now, now + iv.window, None, None, None, None)]
            else rows
    ensures var after := Execute(rows, ClaimRow(k, Mac(k.tenant, version, text), version, now, iv));
            && AllWellShaped(after)
            && (Claimable(rows, k, text, version, now, iv) ==> CellOf(after, k) == Held(text))
    ensures Claimable(rows, k, text, version, now, iv) <==>
            CanClaim(rows, k, FingerprintFor(k, version, text), version, now, iv)
  {
    if k in rows {
      assert WellShaped(k, rows[k]);
    }
    assert WellShaped(k, Row(Mac(k.tenant, version, text), version, InFlight, now, now + iv.window,
                             None, None, None, None));
  }

  /** An answer is written into the row of its own claim, all three parts of it, and nowhere else. */
  lemma RecordsExactly(rows: Rows, k: Key, fp: Fingerprint, response: Response, now: int)
    ensures Execute(rows, RecordRow(k, fp, response, now)) ==
            if k in rows && rows[k].status == InFlight && rows[k].fingerprint == fp
            then rows[k := Row(fp, rows[k].keyVersion, Completed, rows[k].claimedAt, rows[k].expiresAt,
                               Some(response.status), Some(response.body), Some(response.contentType), Some(now))]
            else rows
    ensures Execute(rows, ReleaseRow(k, fp)) ==
            if k in rows && rows[k].status == InFlight && rows[k].fingerprint == fp then rows - {k} else rows
  {
  }

  // ---------- The module's functions, over the shared table ----------

  class Table {
    var rows: Rows

    constructor ()
      ensures rows == map[]
    {
      rows := map[];
    }

    method TryClaim(k: Key, fp: Fingerprint, version: nat, now: int, iv: Intervals) returns (claimed: bool)
      modifies this
      ensures claimed <==>
                || k !in old(rows)
                || old(rows)[k].expiresAt <= now
                || (old(rows)[k].status.InFlight? && old(rows)[k].fingerprint == fp
                    && old(rows)[k].keyVersion == version && old(rows)[k].claimedAt + iv.lease <= now)
      ensures rows == if claimed
                      then old(rows)[k := Row(fp, version, InFlight, now, now + iv.window, None, None, None, None)]
                      else old(rows)
      ensures claimed == CanClaim(old(rows), k, fp, version, now, iv)
      ensures rows == Execute(old(rows), ClaimRow(k, fp, version, now, iv))
    {
      claimed := k !in rows || Takeable(rows[k], fp, version, now, iv);
      if claimed {
        rows := rows[k := FreshRow(fp, version, now, iv)];
      }
    }

    method Read(k: Key) returns (held: Option<Row>)
      ensures held == if k in rows then Some(rows[k]) else None
    {
      held := if k in rows then Some(rows[k]) else None;
    }

    /** Returns false when the claim is no longer the caller's. */
    method RecordResponse(k: Key, fp: Fingerprint, response: Response, now: int) returns (recorded: bool)
      modifies this
      ensures recorded <==> k in old(rows) && old(rows)[k].status.InFlight? && old(rows)[k].fingerprint == fp
      ensures rows == Execute(old(rows), RecordRow(k, fp, response, now))
    {
      recorded := k in rows && rows[k].status == InFlight && rows[k].fingerprint == fp;
      if recorded {
        rows := rows[k := WithAnswer(rows[k], response, now)];
      }
    }

    method ReleaseClaim(k: Key, fp: Fingerprint)
      modifies this
      ensures rows == Execute(old(rows), ReleaseRow(k, fp))
    {
      if k in rows && rows[k].status == InFlight && rows[k].fingerprint == fp {
        rows := rows - {k};
      }
    }

    /** Everybody else's statements, run where the caller awaits. */
    method RunOthers(ss: seq<Statement>)
      modifies this
      ensures rows == ExecuteAll(old(rows), ss)
    {
      for i := 0 to |ss|
        invariant rows == ExecuteAll(old(rows), ss[..i])
      {
        assert ss[..i + 1][..i] == ss[..i];
        match ss[i]
        case ClaimRow(k, fp, version, now, iv) =>
          var _ := TryClaim(k, fp, version, now, iv);
        case RecordRow(k, fp, response, now) =>
          var _ := RecordResponse(k, fp, response, now);
        case ReleaseRow(k, fp) =>
          ReleaseClaim(k, fp);
      }
      assert ss[..|ss|] == ss;
    }
  }

  /** Some statement of the sequence deletes the key's row. */
  ghost predicate Deletes(rows: Rows, ss: seq<Statement>, k: Key) {
    exists i :: 0 <= i < |ss| && ss[i].ReleaseRow? && ss[i].key == k
                && k in ExecuteAll(rows, ss[..i]) && k !in ExecuteAll(rows, ss[..i + 1])
  }

  lemma {:induction false} AbsenceNeedsDeletion(rows: Rows, ss: seq<Statement>, k: Key)
    requires k in rows && k !in ExecuteAll(rows, ss)
    ensures Deletes(rows, ss, k)
  {
    assert ss != [];
    var n := |ss| - 1;
    assert ss[..n + 1] == ss;
    if k !in ExecuteAll(rows, ss[..n]) {
      AbsenceNeedsDeletion(rows, ss[..n], k);
      var i :| 0 <= i < n && ss[..n][i].ReleaseRow? && ss[..n][i].key == k
               && k in ExecuteAll(rows, ss[..n][..i]) && k !in ExecuteAll(rows, ss[..n][..i + 1]);
      assert ss[..n][..i] == ss[..i] && ss[..n][..i + 1] == ss[..i + 1];
    }
  }

  /** The table once the others have gone through the first n gaps. */
  function After(rows: Rows, gaps: seq<seq<Statement>>, n: nat): Rows
    requires n <= |gaps|
  {
    if n == 0 then rows else ExecuteAll(After(rows, gaps, n - 1), gaps[n - 1])
  }

  /** What a claim may answer when the others have gone through n gaps, and the table it leaves. */
  ghost predicate Outcome(before: Rows, gaps: seq<seq<Statement>>, n: nat, answer: Answer, after: Rows,
                          k: Key, text: Text, version: nat, now: int, iv: Intervals)
    requires n <= |gaps|
  {
    var rows := After(before, gaps, n);
    && AllWellShaped(rows)
    && TrueOf(answer, CellOf(rows, k), text)
    && (if answer.Claimed? then
          && answer.fingerprint == FingerprintFor(k, version, text)
          && CanClaim(rows, k, answer.fingerprint, version, now, iv)
          && after == rows[k := FreshRow(answer.fingerprint, version, now, iv)]
          && AllWellShaped(after) && CellOf(after, k) == Held(text)
        else
          after == rows)
  }

  lemma ClaimedOutcome(before: Rows, gaps: seq<seq<Statement>>, n: nat,
                       k: Key, text: Text, version: nat, now: int, iv: Intervals)
    requires n <= |gaps| && AllWellShaped(After(before, gaps, n))
    requires CanClaim(After(before, gaps, n), k, FingerprintFor(k, version, text), version, now, iv)
    ensures var fp := FingerprintFor(k, version, text);
            Outcome(before, gaps, n, Claimed(fp), After(before, gaps, n)[k := FreshRow(fp, version, now, iv)],
                    k, text, version, now, iv)
  {
    assert WellShaped(k, FreshRow(FingerprintFor(k, version, text), version, now, iv));
  }

  lemma ReadOutcome(before: Rows, gaps: seq<seq<Statement>>, n: nat,
                    k: Key, text: Text, version: nat, now: int, iv: Intervals)
    requires n <= |gaps| && AllWellShaped(After(before, gaps, n)) && k in After(before, gaps, n)
    ensures var rows := After(before, gaps, n);
            Outcome(before, gaps, n, Judge(rows[k], k, text, version), rows, k, text, version, now, iv)
  {
    JudgeReadsTheCell(After(before, gaps, n), k, text, version);
  }

  lemma UnclaimableOutcome(before: Rows, gaps: seq<seq<Statement>>, n: nat,
                           k: Key, text: Text, version: nat, now: int, iv: Intervals)
    requires n <= |gaps| && AllWellShaped(After(before, gaps, n)) && k !in After(before, gaps, n)
    ensures Outcome(before, gaps, n, Unclaimable, After(before, gaps, n), k, text, version, now, iv)
  {
  }

  /** One pass of the loop: an upsert and, when it claimed nothing, a read. None is "go round again". */
  method Attempt(table: Table, k: Key, text: Text, version: nat, now: int, iv: Intervals,
                 gaps: seq<seq<Statement>>, at: nat, ghost before: Rows)
    returns (answer: Option<Answer>, ghost n: nat)
    requires at + 2 <= |gaps| && AllIssued(gaps[at]) && AllIssued(gaps[at + 1])
    requires table.rows == After(before, gaps, at) && AllWellShaped(table.rows)
    modifies table
    ensures at < n <= at + 2 && AllWellShaped(table.rows)
    ensures AllWellShaped(After(before, gaps, at + 1))
    ensures Claimable(After(before, gaps, at + 1), k, text, version, now, iv) <==> answer.Some? && answer.value.Claimed?
    ensures answer.Some? ==>
              && Outcome(before, gaps, n, answer.value, table.rows, k, text, version, now, iv)
              && !answer.value.Unclaimable?
              && (answer.value.Claimed? ==> n == at + 1)
    ensures answer.None? ==>
              && table.rows == After(before, gaps, at + 2) && k !in table.rows
              && Deletes(After(before, gaps, at + 1), gaps[at + 1], k)
  {
    StatementsKeepShape(table.rows, gaps[at]);
    table.RunOthers(gaps[at]);
    n := at + 1;
    ClaimsExactly(table.rows, k, text, version, now, iv);
    var fp := FingerprintFor(k, version, text);
    var claimed := table.TryClaim(k, fp, version, now, iv);
    if claimed {
      ClaimedOutcome(before, gaps, n, k, text, version, now, iv);
      return Some(Claimed(fp)), n;
    }
    StatementsKeepShape(table.rows, gaps[at + 1]);
    table.RunOthers(gaps[at + 1]);
    n := at + 2;
    var held := table.Read(k);
    if held.Some? {
      ReadOutcome(before, gaps, n, k, text, version, now, iv);
      return Some(Judge(held.value, k, text, version)), n;
    }
    AbsenceNeedsDeletion(After(before, gaps, at + 1), gaps[at + 1], k);
    return None, n;
  }

  /**
   The claim: at most two upserts, each followed by a read when it claimed nothing.
   `gaps` is whatever the others commit before each upsert and between it and its read, so
   quantifying over it quantifies over every interleaving.  `n` counts the gaps passed at the
   instant the answer is about, which lies inside the call.
   */
  method ClaimIdempotentRequest(table: Table, k: Key, text: Text, version: nat, now: int, iv: Intervals,
                                gaps: seq<seq<Statement>>)
    returns (answer: Answer, ghost n: nat)
    requires |gaps| == 4 && AllWellShaped(table.rows)
    requires forall gap | gap in gaps :: AllIssued(gap)
    modifies table
    ensures 1 <= n <= 4
    ensures AllWellShaped(After(old(table.rows), gaps, 1))
    ensures Claimable(After(old(table.rows), gaps, 1), k, text, version, now, iv) <==> answer.Claimed? && n == 1
    ensures n >= 3 ==>
              && AllWellShaped(After(old(table.rows), gaps, 3))
              && (Claimable(After(old(table.rows), gaps, 3), k, text, version, now, iv) <==> answer.Claimed?)
    ensures Outcome(old(table.rows), gaps, n, answer, table.rows, k, text, version, now, iv)
    ensures answer.Unclaimable? ==>
              && Deletes(After(old(table.rows), gaps, 1), gaps[1], k)
              && Deletes(After(old(table.rows), gaps, 3), gaps[3], k)
  {
    hide Claimable, Outcome, CellOf, Deletes, AllWellShaped, AllIssued;
    ghost var before := table.rows;
    var attempt := 0;
    while attempt < 2
      invariant 0 <= attempt <= 2
      invariant table.rows == After(before, gaps, 2 * attempt) && AllWellShaped(table.rows)
      invariant attempt >= 1 ==> AllWellShaped(After(before, gaps, 1))
      invariant attempt >= 1 ==> !Claimable(After(before, gaps, 1), k, text, version, now, iv)
      invariant attempt >= 1 ==> k !in table.rows && Deletes(After(before, gaps, 1), gaps[1], k)
      invariant attempt == 2 ==> AllWellShaped(After(before, gaps, 3))
      invariant attempt == 2 ==> !Claimable(After(before, gaps, 3), k, text, version, now, iv)
      invariant attempt == 2 ==> Deletes(After(before, gaps, 3), gaps[3], k)
    {
      var decided;
      decided, n := Attempt(table, k, text, version, now, iv, gaps, 2 * attempt, before);
      if decided.Some? {
        return decided.value, n;
      }
      attempt := attempt + 1;
    }
    UnclaimableOutcome(before, gaps, 4, k, text, version, now, iv);
    return Unclaimable, 4;
  }
}
