/** What holds over whole runs of the request queue: fencing, attempt budgets, terminal rows and one worker per scope. */
module QueueRuns {
  import opened Evidence
  import opened Graphs
  import opened QueueSpec

  // ---------- Claims ----------

  ghost predicate Claims(t: Table, op: Op, id: nat) {
    op.Claim? && id in ClaimedIds(t.rows, op.now, op.limit)
  }

  /** A batch holds at most one row per scope, and it is the scope's least active id. */
  lemma OneClaimPerScope(rows: Rows, now: nat, limit: nat, i: nat, j: nat)
    requires i in ClaimedIds(rows, now, limit) && j in rows && Active(rows[j]) && rows[j].scopeKey == rows[i].scopeKey
    ensures i <= j
    ensures j in ClaimedIds(rows, now, limit) ==> i == j
  {
    hide Due;
  }

  lemma {:induction false} LeastOf(ids: set<nat>) returns (least: nat)
    requires ids != {}
    ensures least in ids && forall j :: j in ids ==> least <= j
    decreases |ids|
  {
    var id :| id in ids;
    var rest := ids - {id};
    if rest == {} {
      assert forall j :: j in ids ==> j == id || j in rest;
      least := id;
    } else {
      var other := LeastOf(rest);
      assert forall j :: j in ids ==> j == id || j in rest;
      least := if id < other then id else other;
    }
  }

  lemma ClaimableShrinks(rows: Rows, now: nat, i: nat, j: nat)
    requires i < j && i in rows && Claimable(rows, now, i)
    ensures |ClaimableBelow(rows, now, i)| < |ClaimableBelow(rows, now, j)|
  {
    hide Claimable;
    var a, b := ClaimableBelow(rows, now, i), ClaimableBelow(rows, now, j);
    assert i in b && i !in a && a <= b;
    ProperSubsetSmaller(a, b);
  }

  /** A due head is passed over only when the batch is already full of smaller ids. */
  lemma BatchTakesFirst(rows: Rows, now: nat, limit: nat, i: nat, j: nat)
    requires i in rows && Claimable(rows, now, i) && j in ClaimedIds(rows, now, limit) && i < j
    ensures i in ClaimedIds(rows, now, limit)
  {
    ClaimableShrinks(rows, now, i, j);
    hide Claimable;
  }

  lemma ClaimableAreFew(rows: Rows, now: nat, id: nat)
    ensures |ClaimableBelow(rows, now, id)| <= |rows|
  {
    hide Claimable;
    SubsetNotLarger(ClaimableBelow(rows, now, id), rows.Keys);
  }

  // ---------- Single steps ----------

  predicate Waiting(r: Request) {
    r.status == WaitingForPlan || r.status == WaitingForEvidence
  }

  /** Rows that wait have never been claimed or delayed. */
  ghost predicate WaitingFresh(rows: Rows) {
    forall id :: id in rows && Waiting(rows[id]) ==> rows[id].attempts == 0 && rows[id].nextAttempt.None?
  }

  /** What one call can do to a row. */
  datatype Change = Same | Promoted | Claimed | Settled

  ghost predicate Follows(t: Table, op: Op, id: nat, change: Change)
    requires id in t.rows && id in Apply(t, op).rows
  {
    var r, r' := t.rows[id], Apply(t, op).rows[id];
    match change
    case Same => r' == r && !Claims(t, op, id)
    case Promoted =>
      && op.Enqueue? && Waiting(r) && r'.status == Pending
      && r'.scopeKey == r.scopeKey && r'.attempts == r.attempts && r'.nextAttempt == r.nextAttempt
    case Claimed => Claims(t, op, id) && r' == ClaimRow(r, op.owner, op.duration, op.now)
    case Settled =>
      && (op.Finish? || op.Release?) && op.id == id && HeldBy(r, op.owner)
      && r' == if op.Finish? then EndRow(r, op.ending, op.now) else ReleaseRow(r, op.retryAt, op.maxAttempts, op.code, op.now)
  }

  /** Rows that disappear were waiting; rows that appear are new. */
  ghost predicate Reshapes(t: Table, op: Op) {
    && (forall id :: id in t.rows && id !in Apply(t, op).rows ==> Waiting(t.rows[id]))
    && (forall id :: id !in t.rows && id in Apply(t, op).rows ==>
          var r := Apply(t, op).rows[id];
          id == t.nextId && op.Enqueue? && r.attempts == 0 && r.nextAttempt.None? && (Waiting(r) || r.status == Pending))
    && Apply(t, op).nextId >= t.nextId
  }

  /** What enqueueing does to the table: nothing, one new row, or a waiting row completed while others may go. */
  datatype Enqueued = Kept | Inserted(row: Request) | Joined(id: nat, row: Request, gone: set<nat>)

  ghost predicate IsEnqueued(t: Table, op: Op, e: Enqueued)
    requires op.Enqueue?
  {
    match e
    case Kept => Apply(t, op) == t
    case Inserted(r) =>
      && Apply(t, op) == Insert(t, r) && r.id == t.nextId && r.scopeKey == op.scopeKey && r.ruleset == op.ruleset
      && r.attempts == 0 && r.nextAttempt.None? && (Waiting(r) || r.status == Pending)
    case Joined(id, r, gone) =>
      && id in t.rows && Waiting(t.rows[id]) && r == t.rows[id].(selection := r.selection, plan := r.plan, status := Pending, updatedAt := op.now)
      && t.rows[id].scopeKey == op.scopeKey
      && Apply(t, op) == t.(rows := t.rows[id := r] - gone) && id !in gone && forall g :: g in gone ==>
        g in t.rows && Waiting(t.rows[g])
  }

  lemma EnqueueBothCases(t: Table, op: Op) returns (e: Enqueued)
    requires op.Enqueue? && Given(op.selection) && Given(op.plan)
    ensures IsEnqueued(t, op, e)
  {
    var rows := t.rows;
    var waitingPlan := WaitingPlanIds(rows, op.scopeKey, op.ruleset, op.selection.value);
    var waitingEvidence := WaitingEvidenceIds(rows, op.scopeKey, op.ruleset, op.plan.value);
    if ReadyIds(rows, op.scopeKey, op.ruleset, op.selection.value, op.plan.value) != {} {
      e := Kept;
    } else if waitingPlan != {} {
      e := Joined(Pick(waitingPlan), PromoteWithPlan(rows[Pick(waitingPlan)], op.plan.value, op.now), waitingEvidence);
    } else if waitingEvidence != {} {
      e := Joined(Pick(waitingEvidence), PromoteWithSelection(rows[Pick(waitingEvidence)], op.selection.value, op.now), {});
      assert rows[e.id := e.row] - {} == rows[e.id := e.row];
    } else {
      e := Inserted(NewRow(t.nextId, op.scopeKey, op.ruleset, op.selection, op.plan, Pending, op.now));
    }
  }

  lemma EnqueueCases(t: Table, op: Op) returns (e: Enqueued)
    requires op.Enqueue?
    ensures IsEnqueued(t, op, e)
  {
    if Given(op.selection) && Given(op.plan) {
      e := EnqueueBothCases(t, op);
    } else if Given(op.selection) && SelectionIds(t.rows, op.scopeKey, op.ruleset, op.selection.value) == {} {
      e := Inserted(NewRow(t.nextId, op.scopeKey, op.ruleset, op.selection, None, WaitingForPlan, op.now));
    } else if !Given(op.selection) && Given(op.plan) && PlanIds(t.rows, op.scopeKey, op.ruleset, op.plan.value) == {} {
      e := Inserted(NewRow(t.nextId, op.scopeKey, op.ruleset, None, op.plan, WaitingForEvidence, op.now));
    } else {
      e := Kept;
    }
  }

  lemma StepReshapes(t: Table, op: Op)
    requires Inv(t)
    ensures Reshapes(t, op)
  {
    hide ClaimedIds, EnqueueEffect, Inv;
    if op.Enqueue? {
      hide Apply;
      var e := EnqueueCases(t, op);
    }
  }

  ghost predicate Changes(t: Table, op: Op, id: nat)
    requires id in t.rows && id in Apply(t, op).rows
  {
    || Follows(t, op, id, Same) || Follows(t, op, id, Promoted) || Follows(t, op, id, Claimed) || Follows(t, op, id, Settled)
  }

  lemma EnqueueFollows(t: Table, op: Op, id: nat, e: Enqueued)
    requires Inv(t) && id in t.rows && id in Apply(t, op).rows && op.Enqueue? && IsEnqueued(t, op, e)
    ensures Follows(t, op, id, if e.Joined? && e.id == id then Promoted else Same)
  {
    hide Apply;
  }

  lemma StepChanges(t: Table, op: Op, id: nat)
    requires Inv(t) && id in t.rows && id in Apply(t, op).rows
    ensures Changes(t, op, id)
    ensures Claims(t, op, id) ==> Follows(t, op, id, Claimed)
  {
    hide ClaimedIds, EnqueueEffect, Inv;
    match op
    case Enqueue(_, _, _, _, _) =>
      var e := EnqueueCases(t, op);
      assert Follows(t, op, id, if e.Joined? && e.id == id then Promoted else Same) by {
        EnqueueFollows(t, op, id, e);
      }
    case Claim(owner, duration, limit, now) =>
      assert Follows(t, op, id, if id in ClaimedIds(t.rows, now, limit) then Claimed else Same);
    case Finish(i, owner, ending, now) =>
      assert Follows(t, op, id, if i == id && Holds(t, id, owner) then Settled else Same);
    case Release(i, owner, retryAt, maxAttempts, code, now) =>
      assert Follows(t, op, id, if i == id && Holds(t, id, owner) then Settled else Same);
    case FailWaiting(_, _, _, _, _) =>
      assert Follows(t, op, id, Same);
  }

  lemma StepWaitingFresh(t: Table, op: Op)
    requires Inv(t) && WaitingFresh(t.rows)
    ensures WaitingFresh(Apply(t, op).rows)
  {
    hide Inv, Apply;
    StepReshapes(t, op);
    forall id | id in Apply(t, op).rows && Waiting(Apply(t, op).rows[id])
      ensures Apply(t, op).rows[id].attempts == 0 && Apply(t, op).rows[id].nextAttempt.None?
    {
      if id in t.rows {
        StepChanges(t, op, id);
      }
    }
  }

  lemma {:induction false} RunWaitingFresh(ops: seq<Op>)
    ensures WaitingFresh(Run(ops).rows)
  {
    if ops != [] {
      hide Inv, Apply;
      RunWaitingFresh(ops[..|ops| - 1]);
      RunKeeps(ops[..|ops| - 1]);
      StepWaitingFresh(Run(ops[..|ops| - 1]), ops[|ops| - 1]);
    }
  }

  /**
    A waiting row stays as it is until a call brings its missing half; then its group has a ready row with both hashes. So
    no waiting request is lost, and none is ever failed.
   */
  lemma Rendezvous(t: Table, op: Op, id: nat)
    requires Inv(t) && id in t.rows && Waiting(t.rows[id])
    requires !(id in Apply(t, op).rows && Apply(t, op).rows[id] == t.rows[id])
    ensures op.Enqueue? && Given(op.selection) && Given(op.plan) && InGroup(t.rows[id], op.scopeKey, op.ruleset)
    ensures t.rows[id].selection == op.selection || t.rows[id].plan == op.plan
    ensures ReadyIds(Apply(t, op).rows, op.scopeKey, op.ruleset, op.selection.value, op.plan.value) != {}
  {
    OnlyEnqueueEndsWaiting(t, op, id);
    EnqueueOneKeepsRows(t, op, id);
    PromotionAnswers(t, op, id);
  }

  lemma OnlyEnqueueEndsWaiting(t: Table, op: Op, id: nat)
    requires Inv(t) && id in t.rows && Waiting(t.rows[id])
    requires !(id in Apply(t, op).rows && Apply(t, op).rows[id] == t.rows[id])
    ensures op.Enqueue?
  {
    hide Inv, EnqueueEffect, ClaimedIds;
    if op.Claim? {
      ClaimedAreActive(t.rows, op.now, op.limit);
    }
  }

  lemma EnqueueOneKeepsRows(t: Table, op: Op, id: nat)
    requires Inv(t) && id in t.rows && op.Enqueue?
    requires !(id in Apply(t, op).rows && Apply(t, op).rows[id] == t.rows[id])
    ensures Given(op.selection) && Given(op.plan)
  {
    hide EnqueueBoth, SelectionIds, PlanIds;
  }

  lemma PromotionAnswers(t: Table, op: Op, id: nat)
    requires Inv(t) && id in t.rows && op.Enqueue? && Given(op.selection) && Given(op.plan)
    requires !(id in Apply(t, op).rows && Apply(t, op).rows[id] == t.rows[id])
    ensures InGroup(t.rows[id], op.scopeKey, op.ruleset)
    ensures t.rows[id].selection == op.selection || t.rows[id].plan == op.plan
    ensures ReadyIds(Apply(t, op).rows, op.scopeKey, op.ruleset, op.selection.value, op.plan.value) != {}
  {
    var rows, rows' := t.rows, Apply(t, op).rows;
    var waitingPlan := WaitingPlanIds(rows, op.scopeKey, op.ruleset, op.selection.value);
    var waitingEvidence := WaitingEvidenceIds(rows, op.scopeKey, op.ruleset, op.plan.value);
    if ReadyIds(rows, op.scopeKey, op.ruleset, op.selection.value, op.plan.value) == {} && waitingPlan != {} {
      var p := Pick(waitingPlan);
      assert id == p || id in waitingEvidence;
      assert p in ReadyIds(rows', op.scopeKey, op.ruleset, op.selection.value, op.plan.value);
    } else if ReadyIds(rows, op.scopeKey, op.ruleset, op.selection.value, op.plan.value) == {} && waitingEvidence != {} {
      assert id == Pick(waitingEvidence);
      assert id in ReadyIds(rows', op.scopeKey, op.ruleset, op.selection.value, op.plan.value);
    }
  }

  lemma RunStep(ops: seq<Op>, op: Op)
    ensures Run(ops + [op]) == Apply(Run(ops), op)
  {
    hide Apply;
    assert (ops + [op])[..|ops|] == ops;
  }

  // ---------- Fencing ----------

  /** Who claimed the row last, unless that owner has since finished or released it: history alone. */
  ghost function Leaseholder(ops: seq<Op>, id: nat): Option<Owner> {
    if ops == [] then None
    else
      var front, op := ops[..|ops| - 1], ops[|ops| - 1];
      if Claims(Run(front), op, id) then Some(op.owner)
      else if (op.Finish? || op.Release?) && op.id == id && Leaseholder(front, id) == Some(op.owner) then None
      else Leaseholder(front, id)
  }

  ghost function LeaseOf(t: Table, id: nat): Option<Owner> {
    if id in t.rows && t.rows[id].status == Processing then t.rows[id].leaseOwner else None
  }

  lemma LeaseStep(t: Table, op: Op, id: nat)
    requires Inv(t)
    ensures LeaseOf(Apply(t, op), id) ==
            if Claims(t, op, id) then Some(op.owner)
            else if (op.Finish? || op.Release?) && op.id == id && LeaseOf(t, id) == Some(op.owner) then None
            else LeaseOf(t, id)
  {
    hide Apply, ClaimedIds, Inv;
    StepReshapes(t, op);
    if id in t.rows && id in Apply(t, op).rows {
      StepChanges(t, op, id);
      if (op.Finish? || op.Release?) && op.id == id && HeldBy(t.rows[id], op.owner) {
        SettlesIfHeld(t, op, id);
      }
    } else if Claims(t, op, id) {
      ClaimedAreActive(t.rows, op.now, op.limit);
      assert false;
    }
  }

  lemma SettlesIfHeld(t: Table, op: Op, id: nat)
    requires id in t.rows && id in Apply(t, op).rows
    requires (op.Finish? || op.Release?) && op.id == id && HeldBy(t.rows[id], op.owner)
    ensures Follows(t, op, id, Settled)
  {
  }

  /**
    Fencing: a row is being processed by exactly the owner of its last claim, as long as that owner has not finished or
    released it. So a finishing call succeeds if and only if the caller is that owner.
   */
  lemma {:induction false} LeaseIsHistory(ops: seq<Op>, id: nat)
    ensures Leaseholder(ops, id) == LeaseOf(Run(ops), id)
    ensures forall owner :: Holds(Run(ops), id, owner) <==> Leaseholder(ops, id) == Some(owner)
  {
    if ops != [] {
      hide Inv, Apply, Claims;
      var front, op := ops[..|ops| - 1], ops[|ops| - 1];
      LeaseIsHistory(front, id);
      RunKeeps(front);
      LeaseStep(Run(front), op, id);
    }
    assert Inv(Run(ops)) by { RunKeeps(ops); }
    HoldsIffLease(Run(ops), id);
  }

  lemma HoldsIffLease(t: Table, id: nat)
    requires Inv(t)
    ensures forall owner :: Holds(t, id, owner) <==> LeaseOf(t, id) == Some(owner)
  {
  }

  /** A finishing call by anyone but the leaseholder leaves the table as it was. */
  lemma FinishNeedsLease(ops: seq<Op>, op: Op)
    requires (op.Finish? || op.Release?) && Leaseholder(ops, op.id) != Some(op.owner)
    ensures Run(ops + [op]) == Run(ops)
  {
    LeaseIsHistory(ops, op.id);
    assert (ops + [op])[..|ops|] == ops;
  }

  // ---------- Attempts ----------

  ghost function ClaimCount(ops: seq<Op>, id: nat): nat {
    if ops == [] then 0
    else ClaimCount(ops[..|ops| - 1], id) + if Claims(Run(ops[..|ops| - 1]), ops[|ops| - 1], id) then 1 else 0
  }

  /** Claims of a row whose earlier lease had expired unfinished. */
  ghost function TakeoverCount(ops: seq<Op>, id: nat): nat {
    if ops == [] then 0
    else
      var t, op := Run(ops[..|ops| - 1]), ops[|ops| - 1];
      TakeoverCount(ops[..|ops| - 1], id) + if Claims(t, op, id) && LeaseOf(t, id).Some? then 1 else 0
  }

  lemma AttemptStep(t: Table, op: Op, id: nat)
    requires Inv(t) && WaitingFresh(t.rows) && id in Apply(t, op).rows
    ensures Apply(t, op).rows[id].attempts ==
            (if id in t.rows then t.rows[id].attempts else 0) + if Claims(t, op, id) then 1 else 0
    ensures id !in t.rows ==> !Claims(t, op, id)
  {
    hide Inv, Apply, ClaimedIds;
    StepReshapes(t, op);
    if id in t.rows {
      StepChanges(t, op, id);
    }
  }

  lemma GoneNeverClaimed(t: Table, op: Op, id: nat)
    requires Inv(t) && id !in Apply(t, op).rows
    ensures !Claims(t, op, id)
    ensures id in t.rows ==> Waiting(t.rows[id])
  {
    hide Inv, ClaimedIds;
    StepReshapes(t, op);
    if op.Claim? {
      ClaimedAreActive(t.rows, op.now, op.limit);
    }
  }

  /** The attempt counter is the number of times the row was claimed. */
  lemma {:induction false} AttemptsAreClaims(ops: seq<Op>, id: nat)
    ensures ClaimCount(ops, id) == if id in Run(ops).rows then Run(ops).rows[id].attempts else 0
  {
    if ops != [] {
      hide Inv, Apply, Claims;
      var front, op := ops[..|ops| - 1], ops[|ops| - 1];
      AttemptsAreClaims(front, id);
      RunKeeps(front);
      RunWaitingFresh(front);
      if id in Run(ops).rows {
        AttemptStep(Run(front), op, id);
      } else {
        GoneNeverClaimed(Run(front), op, id);
      }
    }
  }

  /** All releases use the same positive attempt limit. */
  ghost predicate SameBudget(ops: seq<Op>, maxAttempts: nat) {
    maxAttempts > 0 && forall i :: 0 <= i < |ops| && ops[i].Release? ==> ops[i].maxAttempts == maxAttempts
  }

  ghost predicate PendingHasBudget(t: Table, maxAttempts: nat) {
    forall id :: id in t.rows && t.rows[id].status == Pending ==> t.rows[id].attempts < maxAttempts
  }

  lemma BudgetStep(t: Table, op: Op, maxAttempts: nat)
    requires Inv(t) && WaitingFresh(t.rows) && PendingHasBudget(t, maxAttempts) && maxAttempts > 0
    requires op.Release? ==> op.maxAttempts == maxAttempts
    ensures PendingHasBudget(Apply(t, op), maxAttempts)
  {
    hide Inv, Apply, ClaimedIds;
    StepReshapes(t, op);
    forall id | id in Apply(t, op).rows && Apply(t, op).rows[id].status == Pending
      ensures Apply(t, op).rows[id].attempts < maxAttempts
    {
      if id in t.rows {
        StepChanges(t, op, id);
      }
    }
  }

  /** A pending row always has attempts left. */
  lemma {:induction false} PendingBudget(ops: seq<Op>, maxAttempts: nat)
    requires SameBudget(ops, maxAttempts)
    ensures PendingHasBudget(Run(ops), maxAttempts)
  {
    if ops != [] {
      hide Inv, Apply, WaitingFresh, PendingHasBudget;
      var front := ops[..|ops| - 1];
      PendingBudget(front, maxAttempts);
      RunKeeps(front);
      RunWaitingFresh(front);
      BudgetStep(Run(front), ops[|ops| - 1], maxAttempts);
    }
  }

  lemma ClaimedHadBudget(t: Table, op: Op, id: nat, maxAttempts: nat)
    requires Inv(t) && PendingHasBudget(t, maxAttempts) && Claims(t, op, id)
    ensures id in t.rows
    ensures LeaseOf(t, id).None? ==> t.rows[id].attempts < maxAttempts
  {
    ClaimedAreActive(t.rows, op.now, op.limit);
    hide ClaimedIds, Claimable, IdsFit, WaitingAlone, UniqueReady;
    assert LeaseCoherent(t.rows[id]);
  }

  /** No row is claimed more often than the limit plus the number of expired leases taken over. */
  lemma {:induction false} ClaimsBounded(ops: seq<Op>, maxAttempts: nat, id: nat)
    requires SameBudget(ops, maxAttempts)
    ensures ClaimCount(ops, id) <= maxAttempts + TakeoverCount(ops, id)
  {
    if ops != [] {
      hide Inv, Apply, Claims, PendingHasBudget, LeaseOf;
      var front, op := ops[..|ops| - 1], ops[|ops| - 1];
      ClaimsBounded(front, maxAttempts, id);
      if Claims(Run(front), op, id) {
        RunKeeps(front);
        PendingBudget(front, maxAttempts);
        ClaimedHadBudget(Run(front), op, id, maxAttempts);
        AttemptsAreClaims(front, id);
      }
    }
  }

  // ---------- Terminal rows ----------

  /** Completed, failed and superseded rows never change again. */
  lemma TerminalStep(t: Table, op: Op, id: nat)
    requires Inv(t) && id in t.rows && Terminal(t.rows[id])
    ensures id in Apply(t, op).rows && Apply(t, op).rows[id] == t.rows[id]
  {
    hide Inv, Apply, ClaimedIds;
    StepReshapes(t, op);
    StepChanges(t, op, id);
    if op.Claim? {
      ClaimedAreActive(t.rows, op.now, op.limit);
    }
  }

  lemma {:induction false} TerminalForever(ops: seq<Op>, more: seq<Op>, id: nat)
    requires id in Run(ops).rows && Terminal(Run(ops).rows[id])
    ensures id in Run(ops + more).rows && Run(ops + more).rows[id] == Run(ops).rows[id]
  {
    if more == [] {
      assert ops + more == ops;
    } else {
      hide Apply, Inv, Run, Terminal, Constraints;
      var front, op := more[..|more| - 1], more[|more| - 1];
      TerminalForever(ops, front, id);
      assert ops + more == (ops + front) + [op];
      RunStep(ops + front, op);
      RunKeeps(ops + front);
      TerminalStep(Run(ops + front), op, id);
    }
  }

  /** Two terminal rows never share group, selection and plan. */
  lemma EndedKeysDiffer(t: Table, i: nat, j: nat)
    requires Inv(t) && i in t.rows && j in t.rows && i != j && Terminal(t.rows[i]) && Terminal(t.rows[j])
    requires SameGroup(t.rows[i], t.rows[j])
    ensures t.rows[i].selection != t.rows[j].selection || t.rows[i].plan != t.rows[j].plan
  {
    assert HashesCoherent(t.rows[i]);
  }

  /** The last call of the run ended the row. */
  ghost predicate JustEnded(ops: seq<Op>, id: nat) {
    && ops != [] && id in Run(ops).rows && Terminal(Run(ops).rows[id])
    && !(id in Run(ops[..|ops| - 1]).rows && Terminal(Run(ops[..|ops| - 1]).rows[id]))
  }

  /** A (scope, ruleset, selection, plan) ends at most once in any run. */
  lemma EndsOnce(ops: seq<Op>, more: seq<Op>, i: nat, j: nat)
    requires more != [] && JustEnded(ops, i) && JustEnded(ops + more, j)
    ensures i != j
    ensures SameGroup(Run(ops).rows[i], Run(ops + more).rows[j]) ==>
              Run(ops).rows[i].selection != Run(ops + more).rows[j].selection || Run(ops).rows[i].plan != Run(ops + more).rows[j].plan
  {
    hide Apply, Inv;
    assert (ops + more)[..|ops + more| - 1] == ops + more[..|more| - 1];
    TerminalForever(ops, more[..|more| - 1], i);
    TerminalForever(ops, more, i);
    RunKeeps(ops + more);
    if SameGroup(Run(ops).rows[i], Run(ops + more).rows[j]) {
      EndedKeysDiffer(Run(ops + more), i, j);
    }
  }
}
