/**
  One cycle of the position synthesis worker: claim a request, look at the plan ledger, synthesize, and finish the request.
  Other workers and clients act between the claim and the finishing call. What the plan ledger and the synthesis answer is
  given as findings.
 */
module PositionWorker {
  import opened Evidence
  import opened ScopeKeys
  import opened QueueSpec
  import opened QueueRuns
  import opened Queue

  datatype ErrorClass = PolicyInsightValidation | TypeOrRange | OtherError | NotAnError

  /** A thrown value and its chain of causes. */
  datatype Thrown = Primitive | Object(errorCode: Option<string>, name: string, class_: ErrorClass, cause: Thrown)

  function NamedCode(name: string): Option<string> {
    if name == "RegimeCandlesNotFoundError" then Some("MARKET_DATA_UNAVAILABLE")
    else if name == "EvidenceStoreUnavailableError" then Some("EVIDENCE_STORE_UNAVAILABLE")
    else if name == "PolicyInsightStoreUnavailableError" then Some("POLICY_STORE_UNAVAILABLE")
    else None
  }

  function OwnCode(err: Thrown): Option<string>
    requires err.Object?
  {
    if err.errorCode.Some? then err.errorCode else NamedCode(err.name)
  }

  /** The first code along the chain of causes. */
  function ChainCode(err: Thrown): Option<string> {
    if err.Primitive? then None
    else if OwnCode(err).Some? then OwnCode(err)
    else ChainCode(err.cause)
  }

  function FallbackCode(err: Thrown): string {
    if err.Object? && err.class_ != NotAnError then if err.name == "" then "Error" else err.name
    else "UNKNOWN_ERROR"
  }

  function ErrorCode(err: Thrown): string {
    if ChainCode(err).Some? then ChainCode(err).value else FallbackCode(err)
  }

  method FindErrorCode(err: Thrown) returns (code: string)
    ensures code == ErrorCode(err)
  {
    var current := err;
    while current.Object?
      invariant ChainCode(err) == ChainCode(current)
      decreases current
    {
      if current.errorCode.Some? {
        return current.errorCode.value;
      }
      var named := NamedCode(current.name);
      if named.Some? {
        return named.value;
      }
      current := current.cause;
    }
    return FallbackCode(err);
  }

  predicate IsSuperseded(code: string) {
    code == "EVIDENCE_SELECTION_SUPERSEDED" || code == "POSITION_PLAN_SUPERSEDED"
  }

  predicate IsPermanentCode(code: string) {
    code in {"POSITION_PLAN_MISSING", "POSITION_SCOPE_MISMATCH", "POOL_SCOPE_MISMATCH", "POSITION_STALE", "PLAN_HASH_INVALID", "OUTPUT_SCHEMA_INVALID"}
  }

  predicate IsPermanent(err: Thrown, code: string) {
    if err.Object? && err.class_ == PolicyInsightValidation then !IsSuperseded(code)
    else IsPermanentCode(code) || (err.Object? && err.class_ == TypeOrRange)
  }

  datatype Verdict = SupersededVerdict | PermanentVerdict | TransientVerdict

  function Judge(err: Thrown, code: string): Verdict {
    if IsSuperseded(code) then SupersededVerdict else if IsPermanent(err, code) then PermanentVerdict else TransientVerdict
  }

  /**
    What the ledger and the synthesis do; any of them may throw. The cycle's own finishing call may throw too, without
    effect on the table; the error handler then makes another one.
   */
  datatype Findings = Findings(
    ledgerError: Option<Thrown>,
    latestPlan: Option<Hash>,
    hasStoredPlan: bool,
    synthesisError: Option<Thrown>,
    finishError: Option<Thrown>)

  datatype CycleResult =
    | Idle
    | Succeeded(id: nat)
    | WasSuperseded(id: nat, code: string)
    | PermanentFailure(id: nat, code: string)
    | TransientFailure(id: nat, code: string)
    | LeaseLost(id: nat)

  datatype Timing = Timing(leaseMs: nat, retryMs: nat, maxAttempts: nat, start: nat, end: nat)

  // ---------- Leases while others act ----------

  /** None of the calls is a claim by this owner. */
  predicate NoClaimBy(ops: seq<Op>, owner: Owner) {
    forall i :: 0 <= i < |ops| && ops[i].Claim? ==> ops[i].owner != owner
  }

  /** An owner who still holds a row after others have acted held it throughout, and the row was not claimed again. */
  lemma {:induction false} LeaseKeepsAttempts(ops: seq<Op>, others: seq<Op>, id: nat, owner: Owner)
    requires NoClaimBy(others, owner) && Leaseholder(ops + others, id) == Some(owner)
    ensures Leaseholder(ops, id) == Some(owner)
    ensures id in Run(ops).rows && id in Run(ops + others).rows
    ensures Run(ops + others).rows[id].attempts == Run(ops).rows[id].attempts
    ensures Run(ops + others).rows[id].scopeKey == Run(ops).rows[id].scopeKey
  {
    LeaseIsHistory(ops + others, id);
    if others == [] {
      assert ops + others == ops;
    } else {
      hide Apply, Inv, Claims, LeaseOf, Constraints;
      var front, op := others[..|others| - 1], others[|others| - 1];
      assert ops + others == (ops + front) + [op];
      LeaseBefore(ops + front, op, id, owner);
      LeaseKeepsAttempts(ops, front, id, owner);
    }
  }

  lemma LeaseBefore(ops: seq<Op>, op: Op, id: nat, owner: Owner)
    requires (op.Claim? ==> op.owner != owner) && Leaseholder(ops + [op], id) == Some(owner)
    ensures Leaseholder(ops, id) == Some(owner)
    ensures id in Run(ops).rows && id in Run(ops + [op]).rows
    ensures Run(ops + [op]).rows[id].attempts == Run(ops).rows[id].attempts
    ensures Run(ops + [op]).rows[id].scopeKey == Run(ops).rows[id].scopeKey
  {
    hide Apply, Inv, Constraints, ClaimedIds;
    assert (ops + [op])[..|ops|] == ops;
    LeaseIsHistory(ops, id);
    LeaseIsHistory(ops + [op], id);
    RunKeeps(ops);
    RunStep(ops, op);
    StepChanges(Run(ops), op, id);
  }

  method Perform(q: SynthesisQueue, op: Op)
    requires q.Valid()
    modifies q
    ensures q.Valid() && q.log == old(q.log) + [op]
  {
    match op
    case Enqueue(scopeKey, ruleset, selection, plan, now) =>
      var _ := q.EnqueueOrReconcile(scopeKey, ruleset, selection, plan, now);
    case Claim(owner, duration, limit, now) =>
      var _ := q.ClaimBatch(owner, duration, limit, now);
    case Finish(id, owner, ending, now) =>
      var _ := q.End(id, owner, ending, now);
    case Release(id, owner, retryAt, maxAttempts, code, now) =>
      var _ := q.ReleaseForRetry(id, owner, now, retryAt, code, maxAttempts);
    case FailWaiting(scopeKey, ruleset, selection, failure, now) =>
      var _ := q.FailWaitingForPlan(scopeKey, ruleset, selection, now, failure);
  }

  method PerformAll(q: SynthesisQueue, ops: seq<Op>)
    requires q.Valid()
    modifies q
    ensures q.Valid() && q.log == old(q.log) + ops
  {
    for i := 0 to |ops|
      invariant q.Valid() && q.log == old(q.log) + ops[..i]
    {
      Perform(q, ops[i]);
      assert ops[..i + 1] == ops[..i] + [ops[i]];
    }
    assert ops[..|ops|] == ops;
  }

  // ---------- The finishing calls ----------

  /** The result and the row agree: this is what the cycle promises. */
  ghost predicate Reported(rows: Rows, result: CycleResult, id: nat, timing: Timing) {
    match result
    case Idle => false
    case Succeeded(i) => i == id && id in rows && rows[id].status == Completed
    case WasSuperseded(i, code) => i == id && id in rows && rows[id].status == Superseded && rows[id].errorCode == Some(code)
    case PermanentFailure(i, code) => i == id && id in rows && rows[id].status == Failed && rows[id].errorCode == Some(code)
    case TransientFailure(i, code) =>
      && i == id && id in rows && rows[id].status == Pending && rows[id].nextAttempt == Some(timing.end + timing.retryMs)
      && rows[id].attempts < timing.maxAttempts && rows[id].errorCode == Some(code)
    case LeaseLost(i) => i == id
  }

  ghost predicate NamesPosition(claim: Request) {
    exists s: Scope :: s.Position? && EvidenceScopeKey(s) == claim.scopeKey
  }

  predicate PlanIsCurrent(claim: Request, findings: Findings) {
    findings.hasStoredPlan && (findings.latestPlan.None? || findings.latestPlan == claim.plan)
  }

  /** The error that the try block ends with, if any: whatever throws first among the steps that are reached. */
  ghost function Raised(claim: Request, findings: Findings): Option<Thrown> {
    if NamesPosition(claim) && findings.ledgerError.Some? then findings.ledgerError
    else if NamesPosition(claim) && PlanIsCurrent(claim, findings) && findings.synthesisError.Some? then findings.synthesisError
    else findings.finishError
  }

  /** The scope key names a position, its plan is stored and current, and nothing is thrown. */
  ghost predicate Clear(claim: Request, findings: Findings) {
    NamesPosition(claim) && PlanIsCurrent(claim, findings) && Raised(claim, findings).None?
  }

  /** How an error ends the request: supersession before permanent failure before retry, and retry only below the limit. */
  function Judged(err: Thrown, id: nat, attempts: nat, maxAttempts: nat): CycleResult {
    var code := ErrorCode(err);
    match Judge(err, code)
    case SupersededVerdict => WasSuperseded(id, code)
    case PermanentVerdict => PermanentFailure(id, code)
    case TransientVerdict => if attempts >= maxAttempts then PermanentFailure(id, "EXHAUSTED_RETRIES") else TransientFailure(id, code)
  }

  /** What a cycle that keeps its lease must answer. */
  ghost function Outcome(claim: Request, findings: Findings, maxAttempts: nat): CycleResult {
    var raised := Raised(claim, findings);
    if raised.Some? then Judged(raised.value, claim.id, claim.attempts, maxAttempts)
    else if !NamesPosition(claim) then PermanentFailure(claim.id, "POSITION_SCOPE_MISMATCH")
    else if findings.latestPlan.Some? && findings.latestPlan != claim.plan then WasSuperseded(claim.id, "POSITION_PLAN_SUPERSEDED")
    else if !findings.hasStoredPlan then PermanentFailure(claim.id, "POSITION_PLAN_MISSING")
    else Succeeded(claim.id)
  }

  /** When each kind of outcome results; an error that could be retried never ends a request below the attempt limit. */
  lemma OutcomeKinds(claim: Request, findings: Findings, maxAttempts: nat)
    ensures var result, raised := Outcome(claim, findings, maxAttempts), Raised(claim, findings);
            && !result.Idle? && !result.LeaseLost?
            && (result.Succeeded? <==> Clear(claim, findings))
            && (result.WasSuperseded? <==>
                 if raised.Some? then IsSuperseded(ErrorCode(raised.value))
                 else NamesPosition(claim) && findings.latestPlan.Some? && findings.latestPlan != claim.plan)
            && (result.TransientFailure? <==>
                 && raised.Some? && !IsSuperseded(ErrorCode(raised.value)) && !IsPermanent(raised.value, ErrorCode(raised.value))
                 && claim.attempts < maxAttempts)
            && (raised.Some? && raised.value.Object? && raised.value.class_ == PolicyInsightValidation ==> !result.TransientFailure?)
  {
  }

  /** The code of an error: its own, or the one that its name stands for, or its cause's, or else a fallback. */
  lemma CodesFound(err: Thrown)
    requires err.Object?
    ensures var name := err.name;
            && (err.errorCode.Some? ==> ErrorCode(err) == err.errorCode.value)
            && (err.errorCode.None? ==>
                  && (name == "RegimeCandlesNotFoundError" ==> ErrorCode(err) == "MARKET_DATA_UNAVAILABLE")
                  && (name == "EvidenceStoreUnavailableError" ==> ErrorCode(err) == "EVIDENCE_STORE_UNAVAILABLE")
                  && (name == "PolicyInsightStoreUnavailableError" ==> ErrorCode(err) == "POLICY_STORE_UNAVAILABLE")
                  && (name != "RegimeCandlesNotFoundError" && name != "EvidenceStoreUnavailableError"
                      && name != "PolicyInsightStoreUnavailableError" ==>
                        && (err.cause.Object? && err.cause.errorCode.Some? ==> ErrorCode(err) == err.cause.errorCode.value)
                        && (err.cause.Primitive? ==>
                              ErrorCode(err) == if err.class_ == NotAnError then "UNKNOWN_ERROR" else if name == "" then "Error" else name)))
  {
    if err.errorCode.None? && NamedCode(err.name).None? {
      assert ChainCode(err) == ChainCode(err.cause);
      assert err.cause.Object? && err.cause.errorCode.Some? ==> ChainCode(err.cause) == err.cause.errorCode;
    }
  }

  /** What each code and class of the error that is raised leads to. */
  lemma CodesDecide(claim: Request, findings: Findings, maxAttempts: nat)
    requires Raised(claim, findings).Some?
    ensures var err := Raised(claim, findings).value;
            var code, result := ErrorCode(err), Outcome(claim, findings, maxAttempts);
            && (code in {"EVIDENCE_SELECTION_SUPERSEDED", "POSITION_PLAN_SUPERSEDED"} ==> result == WasSuperseded(claim.id, code))
            && (code == "POSITION_PLAN_MISSING" || code == "POSITION_SCOPE_MISMATCH" || code == "POOL_SCOPE_MISMATCH"
                || code == "POSITION_STALE" || code == "PLAN_HASH_INVALID" || code == "OUTPUT_SCHEMA_INVALID" ==>
                  result == PermanentFailure(claim.id, code))
            && (code !in {"EVIDENCE_SELECTION_SUPERSEDED", "POSITION_PLAN_SUPERSEDED"}
                && err.Object? && (err.class_ == PolicyInsightValidation || err.class_ == TypeOrRange) ==>
                  result == PermanentFailure(claim.id, code))
            && (code !in {"EVIDENCE_SELECTION_SUPERSEDED", "POSITION_PLAN_SUPERSEDED", "POSITION_PLAN_MISSING", "POSITION_SCOPE_MISMATCH",
                          "POOL_SCOPE_MISMATCH", "POSITION_STALE", "PLAN_HASH_INVALID", "OUTPUT_SCHEMA_INVALID"}
                && (err.Primitive? || err.class_ == OtherError || err.class_ == NotAnError) ==>
                  result == if claim.attempts < maxAttempts then TransientFailure(claim.id, code) else PermanentFailure(claim.id, "EXHAUSTED_RETRIES"))
  {
  }

  /** A request whose evidence or plan has been superseded in the meantime ends as superseded, with the code that was thrown. */
  lemma SupersessionIsReported(claim: Request, findings: Findings, maxAttempts: nat)
    requires Raised(claim, findings).Some? && Raised(claim, findings).value.Object?
    requires Raised(claim, findings).value.errorCode in {Some("EVIDENCE_SELECTION_SUPERSEDED"), Some("POSITION_PLAN_SUPERSEDED")}
    ensures Outcome(claim, findings, maxAttempts) == WasSuperseded(claim.id, Raised(claim, findings).value.errorCode.value)
  {
    CodesFound(Raised(claim, findings).value);
    CodesDecide(claim, findings, maxAttempts);
    hide Outcome, ErrorCode;
  }

  method FailRequest(q: SynthesisQueue, id: nat, owner: Owner, timing: Timing, code: string)
    returns (result: CycleResult)
    requires q.Valid()
    modifies q
    ensures q.Valid() && |q.log| == |old(q.log)| + 1 && q.log[..|old(q.log)|] == old(q.log)
    ensures Reported(q.rows, result, id, timing)
    ensures result.LeaseLost? <==> Leaseholder(old(q.log), id) != Some(owner)
    ensures result.LeaseLost? ==> q.Contents() == old(q.Contents())
    ensures !result.LeaseLost? ==> result == PermanentFailure(id, code)
  {
    var updated := q.Fail(id, owner, timing.end, code);
    return if updated then PermanentFailure(id, code) else LeaseLost(id);
  }

  method SupersedeRequest(q: SynthesisQueue, id: nat, owner: Owner, timing: Timing, code: string)
    returns (result: CycleResult)
    requires q.Valid()
    modifies q
    ensures q.Valid() && |q.log| == |old(q.log)| + 1 && q.log[..|old(q.log)|] == old(q.log)
    ensures Reported(q.rows, result, id, timing)
    ensures result.LeaseLost? <==> Leaseholder(old(q.log), id) != Some(owner)
    ensures result.LeaseLost? ==> q.Contents() == old(q.Contents())
    ensures !result.LeaseLost? ==> result == WasSuperseded(id, code)
  {
    var updated := q.Supersede(id, owner, timing.end, Some(code));
    return if updated then WasSuperseded(id, code) else LeaseLost(id);
  }

  /**
    Releases for retry. The worker judges exhaustion by the attempt count it was given when it claimed the row; the queue
    judges by the count in the table. They agree whenever the release succeeds.
   */
  method ReleaseRequest(q: SynthesisQueue, id: nat, owner: Owner, attempts: nat, timing: Timing, code: string)
    returns (result: CycleResult)
    requires q.Valid()
    requires Leaseholder(q.log, id) == Some(owner) ==> id in q.rows && q.rows[id].attempts == attempts
    modifies q
    ensures q.Valid() && |q.log| == |old(q.log)| + 1 && q.log[..|old(q.log)|] == old(q.log)
    ensures Reported(q.rows, result, id, timing)
    ensures result.LeaseLost? <==> Leaseholder(old(q.log), id) != Some(owner)
    ensures result.LeaseLost? ==> q.Contents() == old(q.Contents())
    ensures !result.LeaseLost? ==>
              result == if attempts >= timing.maxAttempts then PermanentFailure(id, "EXHAUSTED_RETRIES") else TransientFailure(id, code)
  {
    var isExhausted := attempts >= timing.maxAttempts;
    var updated := q.ReleaseForRetry(id, owner, timing.end, timing.end + timing.retryMs, Some(code), timing.maxAttempts);
    if !updated {
      return LeaseLost(id);
    }
    return if isExhausted then PermanentFailure(id, "EXHAUSTED_RETRIES") else TransientFailure(id, code);
  }

  method HandleError(q: SynthesisQueue, err: Thrown, id: nat, owner: Owner, attempts: nat, timing: Timing)
    returns (result: CycleResult)
    requires q.Valid()
    requires Leaseholder(q.log, id) == Some(owner) ==> id in q.rows && q.rows[id].attempts == attempts
    modifies q
    ensures q.Valid() && |q.log| == |old(q.log)| + 1 && q.log[..|old(q.log)|] == old(q.log)
    ensures Reported(q.rows, result, id, timing)
    ensures result.LeaseLost? <==> Leaseholder(old(q.log), id) != Some(owner)
    ensures result.LeaseLost? ==> q.Contents() == old(q.Contents())
    ensures !result.LeaseLost? ==> result == Judged(err, id, attempts, timing.maxAttempts)
  {
    var code := FindErrorCode(err);
    match Judge(err, code)
    case SupersededVerdict => result := SupersedeRequest(q, id, owner, timing, code);
    case PermanentVerdict => result := FailRequest(q, id, owner, timing, code);
    case TransientVerdict => result := ReleaseRequest(q, id, owner, attempts, timing, code);
  }

  /** The try block: either it throws, before anything was written, or it makes its finishing call. */
  method TryBlock(q: SynthesisQueue, claim: Request, owner: Owner, timing: Timing, findings: Findings)
    returns (result: CycleResult, thrown: Option<Thrown>)
    requires q.Valid()
    modifies q
    ensures q.Valid() && thrown == Raised(claim, findings)
    ensures thrown.Some? ==> q.log == old(q.log) && q.Contents() == old(q.Contents())
    ensures thrown.None? ==> |q.log| == |old(q.log)| + 1 && q.log[..|old(q.log)|] == old(q.log)
    ensures thrown.None? ==> Reported(q.rows, result, claim.id, timing)
    ensures thrown.None? ==> (result.LeaseLost? <==> Leaseholder(old(q.log), claim.id) != Some(owner))
    ensures thrown.None? && result.LeaseLost? ==> q.Contents() == old(q.Contents())
    ensures thrown.None? && !result.LeaseLost? ==> result == Outcome(claim, findings, timing.maxAttempts)
  {
    result, thrown := Idle, findings.finishError;
    var scope := ParsePositionScopeKey(claim.scopeKey);
    if scope.None? {
      if thrown.None? {
        result := FailRequest(q, claim.id, owner, timing, "POSITION_SCOPE_MISMATCH");
      }
    } else if findings.ledgerError.Some? {
      thrown := findings.ledgerError;
    } else if findings.latestPlan.Some? && findings.latestPlan != claim.plan {
      if thrown.None? {
        result := SupersedeRequest(q, claim.id, owner, timing, "POSITION_PLAN_SUPERSEDED");
      }
    } else if !findings.hasStoredPlan {
      if thrown.None? {
        result := FailRequest(q, claim.id, owner, timing, "POSITION_PLAN_MISSING");
      }
    } else if findings.synthesisError.Some? {
      thrown := findings.synthesisError;
    } else if thrown.None? {
      var updated := q.Complete(claim.id, owner, timing.end);
      result := if updated then Succeeded(claim.id) else LeaseLost(claim.id);
    }
  }

  /** Everything after the claim: the try block, and the error handler for whatever it throws. */
  method Work(q: SynthesisQueue, claim: Request, owner: Owner, timing: Timing, findings: Findings)
    returns (result: CycleResult)
    requires q.Valid()
    requires Leaseholder(q.log, claim.id) == Some(owner) ==>
        claim.id in q.rows && q.rows[claim.id].attempts == claim.attempts
    modifies q
    ensures q.Valid() && |q.log| == |old(q.log)| + 1 && q.log[..|old(q.log)|] == old(q.log)
    ensures Reported(q.rows, result, claim.id, timing)
    ensures result.LeaseLost? <==> Leaseholder(old(q.log), claim.id) != Some(owner)
    ensures result.LeaseLost? ==> q.Contents() == old(q.Contents())
    ensures !result.LeaseLost? ==> result == Outcome(claim, findings, timing.maxAttempts)
  {
    var thrown;
    result, thrown := TryBlock(q, claim, owner, timing, findings);
    if thrown.Some? {
      result := HandleError(q, thrown.value, claim.id, owner, claim.attempts, timing);
    }
  }

  /**
    One cycle. Whatever others did in between, the reported outcome is the state of the claimed row afterwards, or the
    lease was lost and the cycle's own finishing call changed nothing. Worker ids are fresh and a worker runs its cycles
    one after the other, so nobody else claims under the same owner.
   */
  method RunCycle(q: SynthesisQueue, owner: Owner, timing: Timing, findings: Findings, others: seq<Op>)
    returns (result: CycleResult)
    requires q.Valid() && NoClaimBy(others, owner)
    modifies q
    ensures q.Valid()
    ensures var claim := Op.Claim(owner, timing.leaseMs, 1, timing.start);
            if result.Idle? then
              q.log == old(q.log) + [claim] && forall id :: id in old(q.rows) ==> !Claimable(old(q.rows), timing.start, id)
            else
              && |q.log| == |old(q.log)| + 1 + |others| + 1
              && q.log[..|q.log| - 1] == old(q.log) + [claim] + others
              && Claims(Run(old(q.log)), claim, result.id) && result.id in Run(old(q.log) + [claim]).rows
              && Reported(q.rows, result, result.id, timing)
              && (!result.LeaseLost? ==>
                    result == Outcome(Run(old(q.log) + [claim]).rows[result.id], findings, timing.maxAttempts))
              && (result.LeaseLost? <==> Leaseholder(q.log[..|q.log| - 1], result.id) != Some(owner))
              && (result.LeaseLost? ==> Run(q.log) == Run(q.log[..|q.log| - 1]))
  {
    hide Reported, Claimable, Run, Apply, Inv, ClaimedIds;
    ghost var before := q.log;
    RunKeeps(before);
    ghost var op := Op.Claim(owner, timing.leaseMs, 1, timing.start);
    var claims := q.ClaimBatch(owner, timing.leaseMs, 1, timing.start);
    if claims == [] {
      RunKeeps(q.log);
      RunStep(before, op);
      assert forall r: Request :: r !in claims;
      NothingDue(Run(before), Run(q.log), timing.start, op);
      return Idle;
    }
    var claim := claims[0];
    assert claim in claims;
    ghost var claimed := q.log;
    PerformAll(q, others);
    if Leaseholder(q.log, claim.id) == Some(owner) {
      LeaseKeepsAttempts(claimed, others, claim.id, owner);
    }
    result := Work(q, claim, owner, timing, findings);
    assert q.log[..|q.log| - 1] == before + [op] + others;
  }

  /** If some head is due, a claim with limit 1 returns a row. */
  lemma DueIsClaimed(t: Table, t': Table, now: nat, op: Op, id: nat) returns (r: Request)
    requires Inv(t) && Inv(t') && t' == Apply(t, op) && op.Claim? && op.limit == 1 && op.now == now
    requires id in t.rows && Claimable(t.rows, now, id)
    ensures r.id in ClaimedIds(t.rows, now, 1) && r.id in t'.rows && t'.rows[r.id] == r
  {
    hide Claimable;
    IdsMatch(t');
    var due := set j | j in t.rows && Claimable(t.rows, now, j);
    assert id in due;
    var first := LeastOf(due);
    assert ClaimableBelow(t.rows, now, first) == {} by {
      assert forall j :: j in ClaimableBelow(t.rows, now, first) ==> j in due;
    }
    assert first in due && first in ClaimedIds(t.rows, now, 1);
    r := t'.rows[first];
  }

  /** An empty batch means that no head was due. */
  lemma NothingDue(t: Table, t': Table, now: nat, op: Op)
    requires Inv(t) && Inv(t') && t' == Apply(t, op) && op.Claim? && op.limit == 1 && op.now == now
    requires forall r: Request :: !(r.id in ClaimedIds(t.rows, now, 1) && r.id in t'.rows && t'.rows[r.id] == r)
    ensures forall id :: id in t.rows ==> !Claimable(t.rows, now, id)
  {
    hide Claimable, Inv, Apply, ClaimedIds;
    forall id | id in t.rows
      ensures !Claimable(t.rows, now, id)
    {
      if Claimable(t.rows, now, id) {
        var r := DueIsClaimed(t, t', now, op, id);
      }
    }
  }
}
