/** Time in the queue: a lease lasts as long as the claim asked for, and a released row waits for its retry time. */
module QueueLeases {
  import opened Evidence
  import opened QueueSpec
  import opened QueueRuns

  /** Rows of one scope, ruleset, selection and plan, missing hashes included. */
  predicate SameRequest(a: Request, b: Request) {
    a.scopeKey == b.scopeKey && a.ruleset == b.ruleset && a.selection == b.selection && a.plan == b.plan
  }

  /**
    What every stored row says, whatever was called: its owner and its lease are there exactly while it is in processing, a
    hash is missing exactly while it waits for that one, and no other row is for the same request.
   */
  lemma RowsSay(ops: seq<Op>, id: nat)
    requires id in Run(ops).rows
    ensures var r := Run(ops).rows[id];
            && r.id == id
            && (r.leaseOwner.Some? <==> r.status == Processing) && (r.leaseExpires.Some? <==> r.status == Processing)
            && (r.plan.None? <==> r.status == WaitingForPlan) && (r.selection.None? <==> r.status == WaitingForEvidence)
            && forall j :: j in Run(ops).rows && SameRequest(Run(ops).rows[j], r) ==> j == id
  {
    RunKeeps(ops);
    hide Run;
  }

  /** The row is in processing, under a lease that does not end before the given time. */
  ghost predicate LeasedUntil(t: Table, id: nat, time: int) {
    && id in t.rows && t.rows[id].status == Processing
    && t.rows[id].leaseExpires.Some? && t.rows[id].leaseExpires.value >= time
  }

  /** A claim leases the row for its duration from its own time on. */
  lemma ClaimLeases(t: Table, op: Op, id: nat)
    requires Inv(t) && Claims(t, op, id)
    ensures LeasedUntil(Apply(t, op), id, op.now + op.duration)
  {
    hide Inv, Apply, ClaimedIds;
    StepReshapes(t, op);
    ClaimedAreActive(t.rows, op.now, op.limit);
    StepChanges(t, op, id);
  }

  /** Until then no claim takes the row; and as long as someone holds it, the lease does not get shorter. */
  lemma LeaseStep(t: Table, op: Op, id: nat, time: int)
    requires Inv(t) && LeasedUntil(t, id, time)
    ensures Claims(t, op, id) ==> op.now >= time
    ensures LeaseOf(Apply(t, op), id).Some? ==> LeasedUntil(Apply(t, op), id, time)
  {
    hide Inv, Apply, ClaimedIds;
    if Claims(t, op, id) {
      ClaimedAreActive(t.rows, op.now, op.limit);
    }
    if id in Apply(t, op).rows {
      StepChanges(t, op, id);
    }
  }

  /** The row was claimed at i and has been in someone's hands ever since. */
  ghost predicate InHandsSince(ops: seq<Op>, i: nat, j: nat, id: nat) {
    && i < j <= |ops| && Claims(Run(ops[..i]), ops[i], id)
    && forall k :: i < k <= j ==> Leaseholder(ops[..k], id).Some?
  }

  lemma {:induction false} LeaseEndures(ops: seq<Op>, i: nat, j: nat, id: nat)
    requires InHandsSince(ops, i, j, id)
    ensures LeasedUntil(Run(ops[..j]), id, ops[i].now + ops[i].duration)
    decreases j
  {
    assert ops[i].Claim?;
    hide Run, Apply, Inv, LeasedUntil, LeaseOf, Claims, Constraints, Leaseholder;
    RunKeeps(ops[..j - 1]);
    RunStep(ops[..j - 1], ops[j - 1]);
    assert ops[..j - 1] + [ops[j - 1]] == ops[..j];
    if i == j - 1 {
      ClaimLeases(Run(ops[..i]), ops[i], id);
    } else {
      LeaseEndures(ops, i, j - 1, id);
      LeaseIsHistory(ops[..j], id);
      LeaseStep(Run(ops[..j - 1]), ops[j - 1], id, ops[i].now + ops[i].duration);
    }
  }

  /** A row that nobody has let go is not claimed again before the lease of its claim has passed. */
  lemma LeaseLasts(ops: seq<Op>, i: nat, j: nat, id: nat)
    requires InHandsSince(ops, i, j, id) && j < |ops| && Claims(Run(ops[..j]), ops[j], id)
    ensures ops[j].now >= ops[i].now + ops[i].duration
  {
    assert ops[i].Claim?;
    hide Run, Apply, Inv, LeasedUntil, Claims, Constraints;
    LeaseEndures(ops, i, j, id);
    RunKeeps(ops[..j]);
    LeaseStep(Run(ops[..j]), ops[j], id, ops[i].now + ops[i].duration);
  }

  predicate Finishes(op: Op, id: nat, owner: Owner) {
    (op.Finish? || op.Release?) && op.id == id && op.owner == owner
  }

  lemma {:induction false} HeldUntilFinished(ops: seq<Op>, i: nat, j: nat, id: nat)
    requires i < j <= |ops| && Claims(Run(ops[..i]), ops[i], id)
    requires forall k :: i < k < j ==> !Finishes(ops[k], id, ops[i].owner) && !Claims(Run(ops[..k]), ops[k], id)
    ensures Leaseholder(ops[..j], id) == Some(ops[i].owner)
    decreases j
  {
    hide Run, Claims;
    assert ops[..j][..j - 1] == ops[..j - 1];
    if i < j - 1 {
      HeldUntilFinished(ops, i, j - 1, id);
    }
  }

  /** In particular the next worker to claim a row whose owner does not finish it comes after the owner's lease. */
  lemma NextClaimWaits(ops: seq<Op>, i: nat, j: nat, id: nat)
    requires i < j < |ops| && Claims(Run(ops[..i]), ops[i], id) && Claims(Run(ops[..j]), ops[j], id)
    requires forall k :: i < k < j ==> !Finishes(ops[k], id, ops[i].owner) && !Claims(Run(ops[..k]), ops[k], id)
    ensures ops[j].now >= ops[i].now + ops[i].duration
  {
    hide Run, Claims, Leaseholder;
    forall k | i < k <= j
      ensures Leaseholder(ops[..k], id).Some?
    {
      HeldUntilFinished(ops, i, k, id);
    }
    LeaseLasts(ops, i, j, id);
  }

  // ---------- Retries ----------

  /** The row is pending and not due before the given time. */
  ghost predicate WaitsUntil(t: Table, id: nat, time: nat) {
    id in t.rows && t.rows[id].status == Pending && t.rows[id].nextAttempt == Some(time)
  }

  lemma WaitStep(t: Table, op: Op, id: nat, time: nat)
    requires Inv(t) && WaitsUntil(t, id, time)
    ensures if Claims(t, op, id) then op.now >= time else WaitsUntil(Apply(t, op), id, time)
  {
    hide Inv, Apply, ClaimedIds;
    StepReshapes(t, op);
    if Claims(t, op, id) {
      ClaimedAreActive(t.rows, op.now, op.limit);
    } else {
      StepChanges(t, op, id);
    }
  }

  lemma ReleaseWaits(t: Table, op: Op)
    requires op.Release? && Holds(t, op.id, op.owner) && t.rows[op.id].attempts < op.maxAttempts
    ensures WaitsUntil(Apply(t, op), op.id, op.retryAt)
  {
  }

  lemma {:induction false} WaitEndures(ops: seq<Op>, i: nat, j: nat)
    requires i < j <= |ops| && ops[i].Release? && Holds(Run(ops[..i]), ops[i].id, ops[i].owner)
    requires Run(ops[..i]).rows[ops[i].id].attempts < ops[i].maxAttempts
    requires forall k :: i < k < j ==> !Claims(Run(ops[..k]), ops[k], ops[i].id)
    ensures WaitsUntil(Run(ops[..j]), ops[i].id, ops[i].retryAt)
    decreases j
  {
    hide Run, Apply, Inv, Claims, WaitsUntil, Constraints;
    RunKeeps(ops[..j - 1]);
    RunStep(ops[..j - 1], ops[j - 1]);
    assert ops[..j - 1] + [ops[j - 1]] == ops[..j];
    if i == j - 1 {
      ReleaseWaits(Run(ops[..i]), ops[i]);
    } else {
      WaitEndures(ops, i, j - 1);
      WaitStep(Run(ops[..j - 1]), ops[j - 1], ops[i].id, ops[i].retryAt);
    }
  }

  /** A row released for retry is not claimed before its retry time. */
  lemma RetryWaits(ops: seq<Op>, i: nat, j: nat)
    requires i < j < |ops| && ops[i].Release? && Holds(Run(ops[..i]), ops[i].id, ops[i].owner)
    requires Run(ops[..i]).rows[ops[i].id].attempts < ops[i].maxAttempts
    requires forall k :: i < k < j ==> !Claims(Run(ops[..k]), ops[k], ops[i].id)
    requires Claims(Run(ops[..j]), ops[j], ops[i].id)
    ensures ops[j].now >= ops[i].retryAt
  {
    hide Run, Apply, Inv, Claims, WaitsUntil, Constraints;
    WaitEndures(ops, i, j);
    RunKeeps(ops[..j]);
    WaitStep(Run(ops[..j]), ops[j], ops[i].id, ops[i].retryAt);
  }

  // ---------- Attempts ----------

  /** No claim finds the row in someone's hands. */
  ghost predicate NeverTakenOver(ops: seq<Op>, id: nat) {
    forall i :: 0 <= i < |ops| && Claims(Run(ops[..i]), ops[i], id) ==> Leaseholder(ops[..i], id).None?
  }

  lemma {:induction false} NoTakeovers(ops: seq<Op>, id: nat)
    requires NeverTakenOver(ops, id)
    ensures TakeoverCount(ops, id) == 0
  {
    if ops != [] {
      hide Run, Claims, Leaseholder;
      var front := ops[..|ops| - 1];
      assert forall i :: 0 <= i < |front| ==> front[..i] == ops[..i];
      NoTakeovers(front, id);
      LeaseIsHistory(front, id);
    }
  }

  /** Where every owner finishes in time, no row is claimed more often than the attempt limit. */
  lemma ClaimedWithinLimit(ops: seq<Op>, maxAttempts: nat, id: nat)
    requires SameBudget(ops, maxAttempts) && NeverTakenOver(ops, id)
    ensures ClaimCount(ops, id) <= maxAttempts
  {
    ClaimsBounded(ops, maxAttempts, id);
    NoTakeovers(ops, id);
  }

  // ---------- Once the time has come ----------

  /** A claim changes neither which rows are active nor their scopes, so heads stay heads. */
  lemma ClaimKeepsHeads(t: Table, op: Op, id: nat)
    requires op.Claim? && IsHead(t.rows, id)
    ensures IsHead(Apply(t, op).rows, id)
  {
    hide ClaimedIds;
    ClaimedAreActive(t.rows, op.now, op.limit);
  }

  /** A claimed row can be taken over exactly once its lease has passed. */
  lemma TakeoverExactly(t: Table, op: Op, id: nat, now: nat)
    requires Inv(t) && Claims(t, op, id)
    ensures Claimable(Apply(t, op).rows, now, id) <==> now >= op.now + op.duration
  {
    ClaimedAreActive(t.rows, op.now, op.limit);
    ClaimKeepsHeads(t, op, id);
    hide Inv, IsHead, ClaimedIds;
    assert Apply(t, op).rows[id] == ClaimRow(t.rows[id], op.owner, op.duration, op.now);
  }

  lemma ReleaseKeepsHead(t: Table, op: Op)
    requires op.Release? && Holds(t, op.id, op.owner) && t.rows[op.id].attempts < op.maxAttempts && IsHead(t.rows, op.id)
    ensures IsHead(Apply(t, op).rows, op.id)
  {
  }

  /** A released head can be claimed again exactly from its retry time on. */
  lemma RetryExactly(t: Table, op: Op, now: nat)
    requires op.Release? && Holds(t, op.id, op.owner) && t.rows[op.id].attempts < op.maxAttempts && IsHead(t.rows, op.id)
    ensures Claimable(Apply(t, op).rows, now, op.id) <==> now >= op.retryAt
  {
    ReleaseKeepsHead(t, op);
    hide IsHead;
  }

  /** A request for two new hashes in a scope without active rows can be claimed at once. */
  lemma FreshIsClaimable(t: Table, op: Op, now: nat)
    requires Inv(t) && op.Enqueue? && Given(op.selection) && Given(op.plan)
    requires forall id :: id in t.rows ==> t.rows[id].scopeKey != op.scopeKey
    ensures Claimable(Apply(t, op).rows, now, t.nextId)
  {
    var e := EnqueueCases(t, op);
    assert t.nextId !in t.rows;
  }
}
