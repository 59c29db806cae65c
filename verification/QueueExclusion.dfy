/**
  One worker per scope. A promoted row keeps its old id, so it may become its scope's head while a younger row of the scope
  is being processed; that is the only way in which two rows of a scope can come to be processed at once.
 */
module QueueExclusion {
  import opened Evidence
  import opened QueueSpec
  import opened QueueRuns

  ghost predicate Exclusive(rows: Rows) {
    forall i, j :: i in rows && j in rows && rows[i].status == Processing && rows[j].status == Processing && rows[i].scopeKey == rows[j].scopeKey ==> i == j
  }

  /** Every row being processed is the least active row of its scope. */
  ghost predicate HeadsProcess(rows: Rows) {
    forall p :: p in rows && rows[p].status == Processing ==> IsHead(rows, p)
  }

  lemma HeadsAreExclusive(rows: Rows)
    requires HeadsProcess(rows)
    ensures Exclusive(rows)
  {
    forall i, j | i in rows && j in rows && rows[i].status == Processing && rows[j].status == Processing && rows[i].scopeKey == rows[j].scopeKey
      ensures i == j
    {
      assert IsHead(rows, i) && IsHead(rows, j);
    }
  }

  /** The waiting row, if any, that an enqueue will promote, read off the table before the call. */
  ghost function Promotable(t: Table, op: Op): set<nat> {
    if !op.Enqueue? || !Given(op.selection) || !Given(op.plan) then {}
    else
      var waitingPlan := WaitingPlanIds(t.rows, op.scopeKey, op.ruleset, op.selection.value);
      var waitingEvidence := WaitingEvidenceIds(t.rows, op.scopeKey, op.ruleset, op.plan.value);
      if ReadyIds(t.rows, op.scopeKey, op.ruleset, op.selection.value, op.plan.value) != {} then {}
      else if waitingPlan != {} then waitingPlan
      else waitingEvidence
  }

  ghost predicate Promotes(t: Table, op: Op, q: nat) {
    q in t.rows && Waiting(t.rows[q]) && q in Apply(t, op).rows && Apply(t, op).rows[q].status == Pending
  }

  /** The guard names exactly the rows that the call promotes. */
  lemma PromotableIsPromoted(t: Table, op: Op, q: nat)
    requires Inv(t)
    ensures q in Promotable(t, op) <==> Promotes(t, op, q)
  {
    if q in Promotable(t, op) {
      var waitingPlan := WaitingPlanIds(t.rows, op.scopeKey, op.ruleset, op.selection.value);
      if waitingPlan != {} {
        OneWaits(t, op.scopeKey, op.ruleset, op.selection.value, q, Pick(waitingPlan));
      } else {
        var waitingEvidence := WaitingEvidenceIds(t.rows, op.scopeKey, op.ruleset, op.plan.value);
        OneWaits(t, op.scopeKey, op.ruleset, op.plan.value, q, Pick(waitingEvidence));
      }
    }
    if Promotes(t, op, q) {
      PromotedWasPromotable(t, op, q);
    }
  }

  lemma PromotedWasPromotable(t: Table, op: Op, q: nat)
    requires Inv(t) && Promotes(t, op, q)
    ensures q in Promotable(t, op)
  {
    hide ClaimedIds, Coherent, WaitingAlone, UniqueReady;
    match op
    case Enqueue(_, _, _, _, _) =>
      assert q < t.nextId;
    case Claim(_, _, limit, now) =>
      ClaimedAreActive(t.rows, now, limit);
    case Finish(_, _, _, _) =>
    case Release(_, _, _, _, _, _) =>
    case FailWaiting(_, _, _, _, _) =>
  }

  /** The call is about to promote q while the younger p of its scope is being processed. */
  ghost predicate OvertakesWith(t: Table, op: Op, q: nat, p: nat) {
    && q in Promotable(t, op) && q in t.rows
    && p in t.rows && t.rows[p].status == Processing && t.rows[p].scopeKey == t.rows[q].scopeKey && q < p
  }

  ghost predicate Overtakes(t: Table, op: Op) {
    exists q, p :: OvertakesWith(t, op, q, p)
  }

  lemma ScopeKept(t: Table, op: Op, id: nat)
    requires Inv(t) && id in t.rows && id in Apply(t, op).rows
    ensures Apply(t, op).rows[id].scopeKey == t.rows[id].scopeKey
  {
    hide Inv, Apply, Claims;
    StepChanges(t, op, id);
  }

  /** A row processed after the call was processed before or is claimed by the call; either way it was a head. */
  lemma ProcessedWasHead(t: Table, op: Op, p: nat)
    requires Inv(t) && HeadsProcess(t.rows) && p in Apply(t, op).rows && Apply(t, op).rows[p].status == Processing
    ensures p in t.rows && IsHead(t.rows, p)
    ensures op.Enqueue? ==> t.rows[p].status == Processing
  {
    hide Inv, Apply, ClaimedIds, IsHead;
    StepReshapes(t, op);
    StepChanges(t, op, p);
    if op.Claim? {
      ClaimedAreActive(t.rows, op.now, op.limit);
    }
  }

  /** A row active after the call was active before, unless the call enqueued it or promoted it. */
  lemma ActiveWasActive(t: Table, op: Op, j: nat)
    requires Inv(t) && j in Apply(t, op).rows && Active(Apply(t, op).rows[j])
    ensures j !in t.rows ==> j == t.nextId && op.Enqueue?
    ensures j in t.rows ==> Active(t.rows[j]) || (op.Enqueue? && Waiting(t.rows[j]) && Apply(t, op).rows[j].status == Pending)
  {
    hide Inv, Apply, ClaimedIds, IsHead;
    StepReshapes(t, op);
    if j in t.rows {
      StepChanges(t, op, j);
      if op.Claim? {
        ClaimedAreActive(t.rows, op.now, op.limit);
      }
    }
  }

  lemma NoOvertakingKeepsHeads(t: Table, op: Op)
    requires Inv(t) && HeadsProcess(t.rows) && !Overtakes(t, op)
    ensures HeadsProcess(Apply(t, op).rows)
  {
    hide Inv, Apply, IsHead, Promotable;
    var rows' := Apply(t, op).rows;
    forall p | p in rows' && rows'[p].status == Processing
      ensures IsHead(rows', p)
    {
      ProcessedWasHead(t, op, p);
      ScopeKept(t, op, p);
      forall j | j in rows' && Active(rows'[j]) && rows'[j].scopeKey == rows'[p].scopeKey
        ensures p <= j
      {
        ActiveWasActive(t, op, j);
        if j in t.rows {
          ScopeKept(t, op, j);
          PromotableIsPromoted(t, op, j);
          assert j < p && Waiting(t.rows[j]) && op.Enqueue? && rows'[j].status == Pending ==> OvertakesWith(t, op, j, p);
          HeadBelow(t.rows, p, j);
        } else {
          IdsBelow(t, p);
        }
      }
      IsHeadNow(rows', p);
    }
  }

  lemma HeadBelow(rows: Rows, p: nat, j: nat)
    requires IsHead(rows, p) && j in rows && rows[j].scopeKey == rows[p].scopeKey
    ensures Active(rows[j]) ==> p <= j
  {
  }

  lemma IsHeadNow(rows: Rows, p: nat)
    requires p in rows && Active(rows[p]) && forall j :: j in rows && Active(rows[j]) && rows[j].scopeKey == rows[p].scopeKey ==> p <= j
    ensures IsHead(rows, p)
  {
  }

  lemma IdsBelow(t: Table, p: nat)
    requires Inv(t) && p in t.rows
    ensures p < t.nextId
  {
  }

  lemma OvertakingBreaksHeads(t: Table, op: Op)
    requires Inv(t) && Overtakes(t, op)
    ensures !HeadsProcess(Apply(t, op).rows)
  {
    hide Inv, Apply, Promotable;
    var q, p :| OvertakesWith(t, op, q, p);
    PromotableIsPromoted(t, op, q);
    StepReshapes(t, op);
    StepChanges(t, op, q);
    ScopeKept(t, op, q);
    StepChanges(t, op, p);
    ScopeKept(t, op, p);
  }

  /** A call breaks the head discipline exactly when it overtakes. */
  lemma OvertakingIsTheOnlyBreak(t: Table, op: Op)
    requires Inv(t) && HeadsProcess(t.rows)
    ensures HeadsProcess(Apply(t, op).rows) <==> !Overtakes(t, op)
  {
    hide Inv, Apply, HeadsProcess, Overtakes;
    if Overtakes(t, op) {
      OvertakingBreaksHeads(t, op);
    } else {
      NoOvertakingKeepsHeads(t, op);
    }
  }

  ghost predicate NeverOvertakes(ops: seq<Op>) {
    forall i :: 0 <= i < |ops| ==> !Overtakes(Run(ops[..i]), ops[i])
  }

  /** Without overtaking, no two rows of a scope are ever processed at once. */
  lemma {:induction false} ExclusionHolds(ops: seq<Op>)
    requires NeverOvertakes(ops)
    ensures HeadsProcess(Run(ops).rows) && Exclusive(Run(ops).rows)
  {
    if ops != [] {
      hide Inv, Apply, HeadsProcess, Overtakes, Exclusive;
      var front, op := ops[..|ops| - 1], ops[|ops| - 1];
      assert forall i :: 0 <= i < |front| ==> front[..i] == ops[..i];
      ExclusionHolds(front);
      RunKeeps(front);
      OvertakingIsTheOnlyBreak(Run(front), op);
      HeadsAreExclusive(Run(ops).rows);
    }
  }

  /** After overtaking, the promoted row is its scope's due head. */
  lemma OvertakerIsDue(t: Table, op: Op, q: nat, p: nat, now: nat)
    requires Inv(t) && WaitingFresh(t.rows) && HeadsProcess(t.rows) && OvertakesWith(t, op, q, p)
    ensures var rows := Apply(t, op).rows;
            && q in rows && Claimable(rows, now, q) && p in rows && rows[p].status == Processing && rows[p].scopeKey == rows[q].scopeKey
  {
    hide Inv, Apply, IsHead, ClaimedIds, Promotable;
    PromotableIsPromoted(t, op, q);
    StepReshapes(t, op);
    StepChanges(t, op, q);
    ScopeKept(t, op, q);
    StepChanges(t, op, p);
    ScopeKept(t, op, p);
    var rows := Apply(t, op).rows;
    forall j | j in rows && Active(rows[j]) && rows[j].scopeKey == rows[q].scopeKey
      ensures q <= j
    {
      ActiveWasActive(t, op, j);
      if j in t.rows {
        ScopeKept(t, op, j);
        HeadBelow(t.rows, p, j);
        if !Active(t.rows[j]) {
          OnePromotion(t, op, q, j);
        }
      } else {
        IdsBelow(t, q);
      }
    }
    IsHeadNow(rows, q);
  }

  lemma OnePromotion(t: Table, op: Op, i: nat, j: nat)
    requires op.Enqueue? && i in t.rows && j in t.rows && Waiting(t.rows[i]) && Waiting(t.rows[j])
    requires i in Apply(t, op).rows && j in Apply(t, op).rows && Apply(t, op).rows[i].status == Pending
    requires Apply(t, op).rows[j].status == Pending
    requires Inv(t)
    ensures i == j
  {
    hide Apply;
    var e := EnqueueCases(t, op);
  }

  /** Every overtaking promotion lets the next large enough claim start a second row of the scope. */
  lemma OvertakingLosesExclusion(t: Table, op: Op, owner: Owner, duration: nat, limit: nat, now: nat)
    requires Inv(t) && WaitingFresh(t.rows) && HeadsProcess(t.rows)
    ensures Overtakes(t, op) && limit > |Apply(t, op).rows| ==>
              !Exclusive(Apply(Apply(t, op), Op.Claim(owner, duration, limit, now)).rows)
  {
    hide Inv, Claimable, Overtakes, EnqueueEffect;
    if Overtakes(t, op) && limit > |Apply(t, op).rows| {
      var q, p := OvertakingPair(t, op);
      OvertakerIsDue(t, op, q, p, now);
      ApplyKeeps(t, op);
      SecondClaim(Apply(t, op), owner, duration, limit, now, q, p);
    }
  }

  lemma OvertakingPair(t: Table, op: Op) returns (q: nat, p: nat)
    requires Overtakes(t, op)
    ensures OvertakesWith(t, op, q, p) && q < p
  {
    q, p :| OvertakesWith(t, op, q, p);
  }

  lemma SecondClaim(t: Table, owner: Owner, duration: nat, limit: nat, now: nat, q: nat, p: nat)
    requires q in t.rows && Claimable(t.rows, now, q) && p in t.rows && t.rows[p].status == Processing
    requires t.rows[p].scopeKey == t.rows[q].scopeKey && q != p
    requires limit > |t.rows|
    ensures !Exclusive(Apply(t, Op.Claim(owner, duration, limit, now)).rows)
  {
    ClaimableAreFew(t.rows, now, q);
    hide Claimable;
    var rows' := Apply(t, Op.Claim(owner, duration, limit, now)).rows;
    assert q in ClaimedIds(t.rows, now, limit);
    assert rows'[q].status == Processing && rows'[p].status == Processing;
  }

  // ---------- Exactly when exclusion holds ----------

  /** At every moment of the run, whatever claim comes next leaves at most one row of each scope in processing. */
  ghost predicate StaysExclusive(ops: seq<Op>) {
    forall i, claim: Op :: 0 <= i <= |ops| && claim.Claim? ==> Exclusive(Run(ops[..i] + [claim]).rows)
  }

  lemma ClaimsNeverOvertake(t: Table, claim: Op)
    requires claim.Claim?
    ensures !Overtakes(t, claim)
  {
  }

  lemma NextNeverOvertakes(ops: seq<Op>, i: nat, claim: Op)
    requires NeverOvertakes(ops) && i <= |ops| && claim.Claim?
    ensures NeverOvertakes(ops[..i] + [claim])
  {
    hide Overtakes, Run;
    var next := ops[..i] + [claim];
    forall k | 0 <= k < |next|
      ensures !Overtakes(Run(next[..k]), next[k])
    {
      assert next[..k] == ops[..k];
      if k == i {
        ClaimsNeverOvertake(Run(next[..k]), claim);
      }
    }
  }

  /** After an overtaking call, a claim of every due row loses exclusion. */
  lemma OvertakingRunLoses(ops: seq<Op>, op: Op)
    requires NeverOvertakes(ops) && Overtakes(Run(ops), op)
    ensures exists claim: Op :: claim.Claim? && !Exclusive(Run(ops + [op] + [claim]).rows)
  {
    hide Inv, Apply, HeadsProcess, Overtakes, Exclusive, WaitingFresh, NeverOvertakes, Run;
    var t := Run(ops);
    var limit := |Apply(t, op).rows| + 1;
    ExclusionHolds(ops);
    RunKeeps(ops);
    RunWaitingFresh(ops);
    OvertakingLosesExclusion(t, op, "w", 0, limit, 0);
    RunStep(ops, op);
    RunStep(ops + [op], Op.Claim("w", 0, limit, 0));
  }

  /** The first overtaking call makes some next claim lose exclusion. */
  lemma {:induction false} FirstOvertakingLoses(ops: seq<Op>)
    requires !NeverOvertakes(ops)
    ensures !StaysExclusive(ops)
  {
    hide Overtakes, Exclusive, Run;
    var front, op := ops[..|ops| - 1], ops[|ops| - 1];
    assert forall i :: 0 <= i <= |front| ==> front[..i] == ops[..i];
    if !NeverOvertakes(front) {
      FirstOvertakingLoses(front);
    } else {
      OvertakingRunLoses(front, op);
      assert front + [op] == ops == ops[..|ops|];
    }
  }

  /** A run keeps every scope to one worker, whatever claim comes next, if and only if no call in it overtakes. */
  lemma ExclusionExactly(ops: seq<Op>)
    ensures StaysExclusive(ops) <==> NeverOvertakes(ops)
  {
    hide NeverOvertakes, Exclusive, Run;
    if NeverOvertakes(ops) {
      forall i, claim: Op | 0 <= i <= |ops| && claim.Claim?
        ensures Exclusive(Run(ops[..i] + [claim]).rows)
      {
        NextNeverOvertakes(ops, i, claim);
        ExclusionHolds(ops[..i] + [claim]);
      }
    } else {
      FirstOvertakingLoses(ops);
    }
  }

  // ---------- A run in which it happens ----------

  const WAIT := Enqueue("s", "v", Some("a"), None, 0)
  const READY := Enqueue("s", "v", Some("b"), Some("q"), 0)
  const START := Op.Claim("w", 10, 1, 0)
  const ARRIVE := Enqueue("s", "v", Some("a"), Some("p"), 1)
  const AGAIN := Op.Claim("x", 10, 3, 1)

  function First(): Request {
    NewRow(1, "s", "v", Some("a"), None, WaitingForPlan, 0)
  }

  function Second(): Request {
    NewRow(2, "s", "v", Some("b"), Some("q"), Pending, 0)
  }

  lemma RunToOvertaking()
    ensures Run([WAIT]) == Table(map[1 := First()], 2)
    ensures Run([WAIT, READY]) == Table(map[1 := First(), 2 := Second()], 3)
    ensures Run([WAIT, READY, START]) == Table(map[1 := First(), 2 := ClaimRow(Second(), "w", 10, 0)], 3)
  {
    RunStep([], WAIT);
    assert [] + [WAIT] == [WAIT] && Run([]) == EMPTY;
    RunStep([WAIT], READY);
    assert [WAIT] + [READY] == [WAIT, READY];
    RunStep([WAIT, READY], START);
    assert [WAIT, READY] + [START] == [WAIT, READY, START];
    FirstClaim();
  }

  lemma FirstClaim()
    ensures Apply(Table(map[1 := First(), 2 := Second()], 3), START).rows == map[1 := First(), 2 := ClaimRow(Second(), "w", 10, 0)]
  {
    var rows: Rows := map[1 := First(), 2 := Second()];
    assert IsHead(rows, 2) && !Active(rows[1]);
    assert ClaimableBelow(rows, 0, 2) == {};
    assert 2 in ClaimedIds(rows, 0, 1) && 1 !in ClaimedIds(rows, 0, 1);
  }

  /** The condition on promotions is needed: this run of five calls has two rows of one scope in processing. */
  lemma ExclusionCanFail()
    ensures NeverOvertakes([WAIT, READY, START]) && !Exclusive(Run([WAIT, READY, START, ARRIVE, AGAIN]).rows)
  {
    hide Apply, Inv, WaitingFresh, Exclusive, HeadsProcess;
    var ops := [WAIT, READY, START];
    RunToOvertaking();
    RunKeeps(ops);
    RunWaitingFresh(ops);
    NoneOvertaken();
    ExclusionHolds(ops);
    ArriveOvertakes();
    RunStep(ops, ARRIVE);
    RunStep(ops + [ARRIVE], AGAIN);
    assert ops + [ARRIVE] + [AGAIN] == [WAIT, READY, START, ARRIVE, AGAIN];
    OvertakingLosesExclusion(Run(ops), ARRIVE, "x", 10, 3, 1);
  }

  lemma NoneOvertaken()
    ensures NeverOvertakes([WAIT, READY, START])
  {
    hide Apply;
    RunToOvertaking();
    var ops := [WAIT, READY, START];
    assert ops[..0] == [] && ops[..1] == [WAIT] && ops[..2] == [WAIT, READY];
    assert Run([]) == EMPTY;
    forall i | 0 <= i < |ops|
      ensures !Overtakes(Run(ops[..i]), ops[i])
    {
      assert forall p :: p in Run(ops[..i]).rows ==> Run(ops[..i]).rows[p].status != Processing;
    }
  }

  lemma ArriveEffect()
    ensures Apply(Table(map[1 := First(), 2 := ClaimRow(Second(), "w", 10, 0)], 3), ARRIVE).rows ==
            map[1 := PromoteWithPlan(First(), "p", 1), 2 := ClaimRow(Second(), "w", 10, 0)]
  {
    var t := Table(map[1 := First(), 2 := ClaimRow(Second(), "w", 10, 0)], 3);
    assert ReadyIds(t.rows, "s", "v", "a", "p") == {};
    assert 1 in WaitingPlanIds(t.rows, "s", "v", "a") && 2 !in WaitingPlanIds(t.rows, "s", "v", "a");
    assert WaitingEvidenceIds(t.rows, "s", "v", "p") == {};
  }

  lemma ArriveOvertakes()
    ensures var t := Run([WAIT, READY, START]);
            Overtakes(t, ARRIVE) && |Apply(t, ARRIVE).rows| < 3
  {
    hide Apply, Promotable, Inv;
    RunToOvertaking();
    ArriveEffect();
    RunKeeps([WAIT, READY, START]);
    PromotableIsPromoted(Run([WAIT, READY, START]), ARRIVE, 1);
    assert OvertakesWith(Run([WAIT, READY, START]), ARRIVE, 1, 2);
  }
}
