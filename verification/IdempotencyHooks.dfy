/**
 The two halves of one request around its handler (apps/api/src/idempotency.ts): the claim
 taken before the handler is entered, and the answer written onto it as it leaves.
 */
module IdempotencyHooks {
  import opened Options
  import opened CanonicalJson
  import opened IdempotentRequests

  /**
   What the claim looks at: the method, the route pattern, the caller's workspace, the trimmed
   header (empty when there is none) and the canonical text of the request.
   */
  datatype Incoming = Incoming(isPost: bool, route: Option<Text>, tenant: Option<Text>, header: Text, text: Text)

  datatype Reason = KeyTooLong | DifferentRequest | StillRunning | Broken

  /** Go on to the handler, answer from the record, or refuse. */
  datatype Ending = Enter | Reply(response: Response) | Refuse(reason: Reason)

  /** What a request that claimed its key carries to the other half. */
  datatype Claim = Claim(key: Key, fingerprint: Fingerprint)

  function Units(s: string): Text {
    if s == [] then [] else [if s[0] as int < 0x1_0000 then s[0] as int else 0] + Units(s[1..])
  }

  predicate NotCovered(route: Text) {
    route == Units("/v1/verifications") || route == Units("/v1/batches/preview")
  }

  const LONGEST_KEY := 255
  const DEFAULT_TYPE := "application/json"

  predicate Covered(r: Incoming) {
    r.isPost && r.route.Some? && r.route.value != [] && r.tenant.Some?
    && !NotCovered(r.route.value) && r.header != []
  }

  /** The units are the letters of s. */
  predicate Spells(units: Text, s: string) {
    |units| == |s| && forall i | 0 <= i < |s| :: units[i] == s[i] as int
  }

  lemma {:induction false} UnitsSpell(units: Text, s: string)
    requires forall i | 0 <= i < |s| :: s[i] < '\U{10000}'
    ensures units == Units(s) <==> Spells(units, s)
  {
    if s != "" && units != [] {
      UnitsSpell(units[1..], s[1..]);
      assert units == [units[0]] + units[1..];
    }
  }

  /** Every POST with a key of a known caller on a known route, but for the two that carry nothing forward. */
  lemma CoveredExactly(r: Incoming)
    ensures Covered(r) <==>
            && r.isPost && r.route.Some? && r.tenant.Some? && |r.route.value| > 0 && |r.header| > 0
            && !Spells(r.route.value, "/v1/verifications") && !Spells(r.route.value, "/v1/batches/preview")
  {
    hide Units, Spells;
    if r.route.Some? {
      UnitsSpell(r.route.value, "/v1/verifications");
      UnitsSpell(r.route.value, "/v1/batches/preview");
    }
  }

  function KeyOf(r: Incoming): Key
    requires Covered(r)
  {
    Key(r.tenant.value, r.route.value, r.header)
  }

  function EndingOf(answer: Answer): Ending {
    match answer
    case Claimed(_) => Enter
    case Replay(_, response) => Reply(response)
    case StillInFlight => Refuse(StillRunning)
    case Mismatch => Refuse(DifferentRequest)
    case NoRecordedAnswer => Refuse(Broken)
    case Unclaimable => Refuse(Broken)
  }

  /** What a request that did not get its key is told, read off what the key holds. */
  function Told(cell: Cell, text: Text): Ending {
    match cell
    case Free => Refuse(Broken)
    case Held(other) => Refuse(if other == text then StillRunning else DifferentRequest)
    case Done(other, response) => if other == text then Reply(response) else Refuse(DifferentRequest)
  }

  lemma OutcomeTells(before: Rows, gaps: seq<seq<Statement>>, n: nat, answer: Answer, after: Rows,
                     k: Key, text: Text, version: nat, now: int, iv: Intervals)
    requires n <= |gaps| && Outcome(before, gaps, n, answer, after, k, text, version, now, iv)
    ensures AllWellShaped(after)
    ensures answer.Claimed? ==>
              && answer.fingerprint == Mac(k.tenant, version, text) && k in after
              && after[k] ==
                 Row(Mac(k.tenant, version, text), version, InFlight, now, now + iv.window, None, None, None, None)
    ensures !answer.Claimed? ==> EndingOf(answer) == Told(CellOf(after, k), text)
    ensures answer.Claimed? <==> EndingOf(answer) == Enter
  {
  }

  /** What the reply says when it is sent: a body that is not text is a stream or a buffer. */
  datatype Outgoing = Outgoing(status: int, body: Option<string>, contentType: Option<string>)

  predicate Succeeded(o: Outgoing) {
    o.status < 400 && o.body.Some?
  }

  function ResponseOf(o: Outgoing): Response
    requires o.body.Some?
  {
    Response(o.status, o.body.value, if o.contentType.Some? then o.contentType.value else DEFAULT_TYPE)
  }

  /** The table after the answer left: nothing when no key was claimed, or when the write failed. */
  function Sent(rows: Rows, claim: Option<Claim>, o: Outgoing, now: int, fails: bool): Rows {
    if claim.None? || fails then rows
    else if Succeeded(o)
    then Execute(rows, RecordRow(claim.value.key, claim.value.fingerprint, ResponseOf(o), now))
    else Execute(rows, ReleaseRow(claim.value.key, claim.value.fingerprint))
  }

  class Exchange {
    var claim: Option<Claim>

    constructor ()
      ensures claim == None
    {
      claim := None;
    }

    /**
     Everything `requireAuth` does about the key.  A request that is refused or replayed carries
     no claim, so nothing it sends is ever written to the table.
     */
    method ClaimIdempotency(table: Table, r: Incoming, version: nat, now: int, iv: Intervals, gaps: seq<seq<Statement>>)
      returns (ending: Ending, ghost answer: Answer, ghost n: nat)
      requires claim == None && |gaps| == 4 && AllWellShaped(table.rows)
      requires forall gap | gap in gaps :: AllIssued(gap)
      modifies this, table
      ensures !Covered(r) ==> ending == Enter && claim == None && table.rows == old(table.rows)
      ensures Covered(r) && 255 < |r.header| ==>
                ending == Refuse(KeyTooLong) && claim == None && table.rows == old(table.rows)
      ensures Covered(r) && |r.header| <= LONGEST_KEY ==>
                && 1 <= n <= 4
                && Outcome(old(table.rows), gaps, n, answer, table.rows, KeyOf(r), r.text, version, now, iv)
                && ending == EndingOf(answer)
                && claim == (if answer.Claimed? then Some(Claim(KeyOf(r), answer.fingerprint)) else None)
      ensures ending != Enter ==> claim == None
      ensures Covered(r) && |r.header| <= 255 ==>
                var k := Key(r.tenant.value, r.route.value, r.header);
                && AllWellShaped(table.rows)
                && (ending == Enter <==> claim.Some?)
                && (claim.Some? ==>
                    && claim.value == Claim(k, Mac(k.tenant, version, r.text))
                    && k in table.rows
                    && table.rows[k] ==
                       Row(Mac(k.tenant, version, r.text), version, InFlight, now, now + iv.window,
                           None, None, None, None))
                && (claim.None? ==> ending == Told(CellOf(table.rows, k), r.text))
    {
      hide Outcome, AllWellShaped, AllIssued, Units, Told, CellOf;
      answer, n := Unclaimable, 0;
      if !r.isPost {
        return Enter, answer, n;
      }
      if r.route.None? || r.route.value == [] || r.tenant.None? || NotCovered(r.route.value) {
        return Enter, answer, n;
      }
      if r.header == [] {
        return Enter, answer, n;
      }
      if |r.header| > LONGEST_KEY {
        return Refuse(KeyTooLong), answer, n;
      }
      var key := Key(r.tenant.value, r.route.value, r.header);
      var got;
      got, n := ClaimIdempotentRequest(table, key, r.text, version, now, iv, gaps);
      answer := got;
      OutcomeTells(old(table.rows), gaps, n, answer, table.rows, key, r.text, version, now, iv);
      match got {
        case Mismatch => return Refuse(DifferentRequest), answer, n;
        case StillInFlight => return Refuse(StillRunning), answer, n;
        case Replay(_, response) => return Reply(response), answer, n;
        case NoRecordedAnswer => return Refuse(Broken), answer, n;
        case Unclaimable => return Refuse(Broken), answer, n;
        case Claimed(fingerprint) => claim := Some(Claim(key, fingerprint));
      }
      return Enter, answer, n;
    }

    /** The hook as the answer leaves, once however often it is called. */
    method OnSend(table: Table, o: Outgoing, now: int, fails: bool)
      modifies this, table
      ensures claim == None
      ensures table.rows == Sent(old(table.rows), old(claim), o, now, fails)
    {
      if claim.None? {
        return;
      }
      var held := claim.value;
      claim := None;
      if o.status >= 400 {
        if !fails {
          table.ReleaseClaim(held.key, held.fingerprint);
        }
        return;
      }
      if o.body.None? {
        if !fails {
          table.ReleaseClaim(held.key, held.fingerprint);
        }
        return;
      }
      if !fails {
        var _ := table.RecordResponse(held.key, held.fingerprint, ResponseOf(o), now);
      }
    }
  }

  // ---------- The two halves together ----------

  /** The row this request claimed is still its own. */
  predicate StillOurs(rows: Rows, claim: Claim, text: Text) {
    && HeldUnder(rows, claim.key, claim.fingerprint)
    && claim.fingerprint.text == text
  }

  /**
   A retry of a request that succeeded is answered with the same status, body and content type,
   under whatever key version it comes; another request under the key is refused; and neither
   can claim it before the window ends.
   */
  lemma RetryIsReplayed(rows: Rows, claim: Claim, text: Text, o: Outgoing, at: int,
                        retry: Text, version: nat, now: int, iv: Intervals)
    requires AllWellShaped(rows) && StillOurs(rows, claim, text) && o.status < 400 && o.body.Some?
    ensures var k, after := claim.key, Sent(rows, Some(claim), o, at, false);
            var contentType := if o.contentType.Some? then o.contentType.value else "application/json";
            var sent := Response(o.status, o.body.value, contentType);
            && AllWellShaped(after) && CellOf(after, k) == Done(text, sent)
            && (now < rows[k].expiresAt ==> !CanClaim(after, k, FingerprintFor(k, version, retry), version, now, iv))
            && EndingOf(Judge(after[k], k, retry, version)) ==
               if retry == text then Reply(sent) else Refuse(DifferentRequest)
  {
    var k, after := claim.key, Sent(rows, Some(claim), o, at, false);
    assert WellShaped(k, rows[k]);
    assert after == rows[k := WithAnswer(rows[k], ResponseOf(o), at)];
    JudgeReadsTheCell(after, k, retry, version);
  }

  /** After a refusal, or an answer that is not text, the key is free and anybody may claim it. */
  lemma RefusalFreesTheKey(rows: Rows, claim: Claim, text: Text, o: Outgoing, at: int,
                           other: Text, version: nat, now: int, iv: Intervals)
    requires AllWellShaped(rows) && StillOurs(rows, claim, text) && (o.status >= 400 || o.body.None?)
    ensures var k, after := claim.key, Sent(rows, Some(claim), o, at, false);
            && AllWellShaped(after) && CellOf(after, k).Free?
            && CanClaim(after, k, FingerprintFor(k, version, other), version, now, iv)
  {
  }

  /**
   Within the window the key can be claimed again after an answer of one's own exactly when that
   answer was not a text below 400: for a 4xx, for a 5xx and for a stream alike, and by anybody.
   */
  lemma KeyIsFreedExactly(rows: Rows, claim: Claim, text: Text, o: Outgoing, at: int,
                          other: Text, version: nat, now: int, iv: Intervals)
    requires AllWellShaped(rows) && StillOurs(rows, claim, text) && now < rows[claim.key].expiresAt
    ensures var k := claim.key;
            CanClaim(Sent(rows, Some(claim), o, at, false), k, FingerprintFor(k, version, other), version, now, iv)
            <==> o.status >= 400 || o.body.None?
  {
    if Succeeded(o) {
      RetryIsReplayed(rows, claim, text, o, at, other, version, now, iv);
    } else {
      RefusalFreesTheKey(rows, claim, text, o, at, other, version, now, iv);
    }
  }

  /** A claim that was taken over, by a different request or under a later key version, writes nothing. */
  lemma LostClaimWritesNothing(rows: Rows, claim: Claim, o: Outgoing, at: int, fails: bool)
    requires AllWellShaped(rows) && claim.key in rows
    requires rows[claim.key].keyVersion != claim.fingerprint.version
             || (!CellOf(rows, claim.key).Free? && CellOf(rows, claim.key).text != claim.fingerprint.text)
             || CellOf(rows, claim.key).Done?
    ensures Sent(rows, Some(claim), o, at, fails) == rows
  {
    assert WellShaped(claim.key, rows[claim.key]);
  }
}
