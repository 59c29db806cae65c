/**
  The queue adapter: each method runs its statements in order against the row table, and every write is checked against
  the schema's constraints, which roll the call back when they are violated. Each call is atomic; rows locked by others
  are not skipped.
 */
module Queue {
  import opened Evidence
  import opened Graphs
  import opened QueueSpec
  import opened QueueRuns

  datatype Reply = Answer(request: Request) | MissingHashes | ConstraintViolated

  datatype WaitingFailure = NoSuchRow | Violated | Updated

  // ---------- Facts the statements rely on ----------

  /** Deleting waiting rows next to a ready row deletes nothing. */
  lemma NothingWaitsBesideReady(t: Table, scopeKey: string, ruleset: string, selection: Hash, plan: Hash)
    requires Inv(t) && ReadyIds(t.rows, scopeKey, ruleset, selection, plan) != {}
    ensures WaitingPlanIds(t.rows, scopeKey, ruleset, selection) == {}
    ensures WaitingEvidenceIds(t.rows, scopeKey, ruleset, plan) == {}
  {
    var id :| id in ReadyIds(t.rows, scopeKey, ruleset, selection, plan);
    assert HashesCoherent(t.rows[id]);
  }

  /** Completing a waiting row violates no constraint, even before the row waiting for the other half is deleted. */
  lemma PromotionAllowed(t: Table, id: nat, r: Request)
    requires Inv(t) && id in t.rows && SameGroup(r, t.rows[id]) && r.status == Pending && HashesCoherent(r)
    requires LeaseCoherent(r)
    requires forall j :: j in t.rows && j != id && SameGroup(t.rows[j], r) ==>
        t.rows[j].selection != r.selection || t.rows[j].plan != r.plan
    ensures Constraints(t.rows[id := r])
  {
  }

  lemma NoOtherReady(t: Table, id: nat, r: Request)
    requires Inv(t) && id in t.rows && SameGroup(r, t.rows[id]) && r.selection.Some? && r.plan.Some?
    requires ReadyIds(t.rows, r.scopeKey, r.ruleset, r.selection.value, r.plan.value) == {}
    ensures forall j :: j in t.rows && SameGroup(t.rows[j], r) ==>
        t.rows[j].selection != r.selection || t.rows[j].plan != r.plan
  {
    forall j | j in t.rows && SameGroup(t.rows[j], r)
      ensures t.rows[j].selection != r.selection || t.rows[j].plan != r.plan
    {
      assert j !in ReadyIds(t.rows, r.scopeKey, r.ruleset, r.selection.value, r.plan.value);
    }
  }

  /** Marking a row that waits for its plan as failed is against the hash check. */
  lemma FailingWaitingIsForbidden(rows: Rows, id: nat, r: Request)
    requires r.status == Failed && r.plan.None?
    ensures !Constraints(rows[id := r])
  {
    assert rows[id := r][id] == r && !HashesCoherent(r);
  }

  /** The row stands as it was, or both hashes are given and it has stopped waiting for one of them. */
  ghost predicate Stands(before: Request, selection: Option<Hash>, plan: Option<Hash>, now: nat, r: Request) {
    || r == before
    || (selection.Some? && plan.Some?
        && ((before.status == WaitingForPlan && before.selection == selection) || (before.status == WaitingForEvidence && before.plan == plan))
        && r == before.(selection := selection, plan := plan, status := Pending, updatedAt := now))
  }

  /** The row has its final status and its code, and nobody holds it. */
  ghost predicate IsEnd(before: Request, ending: Ending, now: nat, r: Request) {
    && r == before.(status := r.status, errorCode := r.errorCode, leaseOwner := None, leaseExpires := None, updatedAt := now)
    && (ending.Complete? ==> r.status == Completed && r.errorCode == before.errorCode)
    && (ending.Fail? ==> r.status == Failed && r.errorCode == Some(ending.code))
    && (ending.Supersede? ==> r.status == Superseded && r.errorCode == ending.reason)
  }

  class SynthesisQueue {
    var rows: Rows
    var nextId: nat
    ghost var log: seq<Op>

    ghost function Contents(): Table
      reads this
    {
      Table(rows, nextId)
    }

    /** The table is what the calls so far have made it. */
    ghost predicate Valid()
      reads this
    {
      Contents() == Run(log)
    }

    constructor ()
      ensures Valid() && log == []
    {
      rows, nextId, log := map[], 1, [];
    }

    /** Records a call whose effect has just been carried out. */
    ghost method Record(op: Op)
      requires Contents() == Apply(Run(log), op)
      modifies this`log
      ensures Valid() && log == old(log) + [op]
    {
      RunStep(log, op);
      log := log + [op];
    }

    /** An INSERT with the next id of the sequence; false if a constraint forbids it. */
    method InsertRow(r: Request) returns (ok: bool)
      modifies this`rows, this`nextId
      ensures ok <==> Constraints(old(rows)[old(nextId) := r])
      ensures nextId == old(nextId) + 1
      ensures rows == if ok then old(rows)[old(nextId) := r] else old(rows)
    {
      var id := nextId;
      nextId := nextId + 1;
      ok := Constraints(rows[id := r]);
      if ok {
        rows := rows[id := r];
      }
    }

    /** An UPDATE of one row; false if a constraint forbids it. */
    method UpdateRow(id: nat, r: Request) returns (ok: bool)
      modifies this`rows
      ensures ok <==> Constraints(old(rows)[id := r])
      ensures rows == if ok then old(rows)[id := r] else old(rows)
    {
      ok := Constraints(rows[id := r]);
      if ok {
        rows := rows[id := r];
      }
    }

    method DeleteRows(ids: set<nat>)
      modifies this`rows
      ensures rows == old(rows) - ids
    {
      rows := rows - ids;
    }

    method EnqueueOrReconcile(scopeKey: string, ruleset: string, selection: Option<Hash>, plan: Option<Hash>, now: nat)
      returns (reply: Reply)
      requires Valid()
      modifies this
      ensures Valid() && log == old(log) + [Enqueue(scopeKey, ruleset, selection, plan, now)]
      ensures !reply.ConstraintViolated?
      ensures reply.MissingHashes? <==> !Given(selection) && !Given(plan)
      ensures reply.Answer? ==> reply.request.id in rows && rows[reply.request.id] == reply.request && InGroup(reply.request, scopeKey, ruleset)
      ensures reply.Answer? && Given(selection) ==> reply.request.selection == selection
      ensures reply.Answer? && Given(plan) ==> reply.request.plan == plan
      ensures reply.Answer? ==> reply.request.id in old(rows) || reply.request == Request(
                old(nextId), scopeKey, ruleset, if Given(selection) then selection else None, if Given(plan) then plan else None,
                if !Given(plan) then WaitingForPlan else if !Given(selection) then WaitingForEvidence else Pending,
                0, None, None, None, None, now, now)
      ensures reply.Answer? && reply.request.id in old(rows) ==>
                && Stands(old(rows)[reply.request.id], selection, plan, now, reply.request)
                && ((Given(selection) && Given(plan)) || reply.request == old(rows)[reply.request.id])
    {
      hide Inv, Apply, Run, Constraints, EnqueueEffect;
      ghost var op := Enqueue(scopeKey, ruleset, selection, plan, now);
      RunKeeps(log);
      if !Given(selection) && !Given(plan) {
        EnqueueNeither(Run(log), op);
        Record(op);
        return MissingHashes;
      }
      if Given(selection) && Given(plan) {
        EnqueueIsBoth(Run(log), op);
        reply := EnqueueWithBoth(scopeKey, ruleset, selection.value, plan.value, now);
      } else if Given(selection) {
        EnqueueIsSelection(Run(log), op);
        reply := EnqueueSelection(scopeKey, ruleset, selection.value, now);
      } else {
        EnqueueIsPlan(Run(log), op);
        reply := EnqueuePlan(scopeKey, ruleset, plan.value, now);
      }
      Record(op);
    }

    /** Both hashes: answer with the ready row, or complete a waiting row, or insert. */
    method EnqueueWithBoth(scopeKey: string, ruleset: string, selection: Hash, plan: Hash, now: nat)
      returns (reply: Reply)
      requires Inv(Contents())
      modifies this`rows, this`nextId
      ensures Contents() == EnqueueBoth(old(Contents()), scopeKey, ruleset, selection, plan, now)
      ensures reply.Answer? && reply.request.id in rows && rows[reply.request.id] == reply.request
      ensures InGroup(reply.request, scopeKey, ruleset)
      ensures reply.request.selection == Some(selection) && reply.request.plan == Some(plan)
      ensures reply.request.id in old(rows) || reply.request == Request(
                old(nextId), scopeKey, ruleset, Some(selection), Some(plan), Pending, 0, None, None, None, None, now, now)
      ensures reply.request.id in old(rows) ==>
                Stands(old(rows)[reply.request.id], Some(selection), Some(plan), now, reply.request)
    {
      ghost var t := Contents();
      var ready := ReadyIds(rows, scopeKey, ruleset, selection, plan);
      if ready != {} {
        NothingWaitsBesideReady(t, scopeKey, ruleset, selection, plan);
        var existing :| existing in ready;
        DeleteRows(WaitingPlanIds(rows, scopeKey, ruleset, selection) + WaitingEvidenceIds(rows, scopeKey, ruleset, plan));
        assert rows == t.rows;
        return Answer(rows[existing]);
      }
      var waitingPlan := WaitingPlanIds(rows, scopeKey, ruleset, selection);
      if waitingPlan != {} {
        reply := CompleteWithPlan(scopeKey, ruleset, selection, plan, now);
        return;
      }
      var waitingEvidence := WaitingEvidenceIds(rows, scopeKey, ruleset, plan);
      if waitingEvidence != {} {
        reply := CompleteWithSelection(scopeKey, ruleset, selection, plan, now);
        return;
      }
      var r := NewRow(nextId, scopeKey, ruleset, Some(selection), Some(plan), Pending, now);
      EnqueueBothKeeps(t, scopeKey, ruleset, selection, plan, now);
      InvGivesConstraints(Insert(t, r));
      var ok := InsertRow(r);
      if !ok {
        return ConstraintViolated;
      }
      return Answer(r);
    }

    method CompleteWithPlan(scopeKey: string, ruleset: string, selection: Hash, plan: Hash, now: nat)
      returns (reply: Reply)
      requires Inv(Contents()) && ReadyIds(rows, scopeKey, ruleset, selection, plan) == {}
      requires WaitingPlanIds(rows, scopeKey, ruleset, selection) != {}
      modifies this`rows
      ensures Contents() == EnqueueBoth(old(Contents()), scopeKey, ruleset, selection, plan, now)
      ensures reply.Answer? && reply.request.id in rows && rows[reply.request.id] == reply.request
      ensures InGroup(reply.request, scopeKey, ruleset)
      ensures reply.request.selection == Some(selection) && reply.request.plan == Some(plan)
      ensures reply.request.id in old(rows) && Stands(old(rows)[reply.request.id], Some(selection), Some(plan), now, reply.request)
    {
      hide Constraints, WaitingAlone, UniqueReady;
      ghost var t := Contents();
      var existing :| existing in WaitingPlanIds(rows, scopeKey, ruleset, selection);
      OneWaits(t, scopeKey, ruleset, selection, existing, Pick(WaitingPlanIds(rows, scopeKey, ruleset, selection)));
      var r := PromoteWithPlan(rows[existing], plan, now);
      assert HashesCoherent(t.rows[existing]) && LeaseCoherent(t.rows[existing]);
      NoOtherReady(t, existing, r);
      PromotionAllowed(t, existing, r);
      var ok := UpdateRow(existing, r);
      if !ok {
        return ConstraintViolated;
      }
      DeleteRows(WaitingEvidenceIds(rows, scopeKey, ruleset, plan));
      assert WaitingEvidenceIds(t.rows[existing := r], scopeKey, ruleset, plan) == WaitingEvidenceIds(t.rows, scopeKey, ruleset, plan);
      return Answer(r);
    }

    method CompleteWithSelection(scopeKey: string, ruleset: string, selection: Hash, plan: Hash, now: nat)
      returns (reply: Reply)
      requires Inv(Contents()) && ReadyIds(rows, scopeKey, ruleset, selection, plan) == {}
      requires WaitingPlanIds(rows, scopeKey, ruleset, selection) == {}
      requires WaitingEvidenceIds(rows, scopeKey, ruleset, plan) != {}
      modifies this`rows
      ensures Contents() == EnqueueBoth(old(Contents()), scopeKey, ruleset, selection, plan, now)
      ensures reply.Answer? && reply.request.id in rows && rows[reply.request.id] == reply.request
      ensures InGroup(reply.request, scopeKey, ruleset)
      ensures reply.request.selection == Some(selection) && reply.request.plan == Some(plan)
      ensures reply.request.id in old(rows) && Stands(old(rows)[reply.request.id], Some(selection), Some(plan), now, reply.request)
    {
      hide Constraints, WaitingAlone, UniqueReady;
      ghost var t := Contents();
      var existing :| existing in WaitingEvidenceIds(rows, scopeKey, ruleset, plan);
      OneWaits(t, scopeKey, ruleset, plan, existing, Pick(WaitingEvidenceIds(rows, scopeKey, ruleset, plan)));
      var r := PromoteWithSelection(rows[existing], selection, now);
      assert HashesCoherent(t.rows[existing]) && LeaseCoherent(t.rows[existing]);
      NoOtherReady(t, existing, r);
      PromotionAllowed(t, existing, r);
      var ok := UpdateRow(existing, r);
      if !ok {
        return ConstraintViolated;
      }
      assert WaitingPlanIds(t.rows[existing := r], scopeKey, ruleset, selection) == {} by {
        forall id | id in WaitingPlanIds(t.rows[existing := r], scopeKey, ruleset, selection)
          ensures id in WaitingPlanIds(t.rows, scopeKey, ruleset, selection)
        {
        }
      }
      DeleteRows(WaitingPlanIds(rows, scopeKey, ruleset, selection));
      assert rows == t.rows[existing := r];
      return Answer(r);
    }

    /** Only the selection: answer with some row that carries it, or wait for a plan. */
    method EnqueueSelection(scopeKey: string, ruleset: string, selection: Hash, now: nat) returns (reply: Reply)
      requires Inv(Contents())
      modifies this`rows, this`nextId
      ensures Contents() == if SelectionIds(old(rows), scopeKey, ruleset, selection) != {} then old(Contents())
                            else Insert(old(Contents()), NewRow(old(nextId), scopeKey, ruleset, Some(selection), None, WaitingForPlan, now))
      ensures reply.Answer? && reply.request.id in rows && rows[reply.request.id] == reply.request
      ensures InGroup(reply.request, scopeKey, ruleset)
      ensures reply.request.selection == Some(selection)
      ensures reply.request.id in old(rows) || reply.request == Request(
                old(nextId), scopeKey, ruleset, Some(selection), None, WaitingForPlan, 0, None, None, None, None, now, now)
      ensures reply.request.id in old(rows) ==> reply.request == old(rows)[reply.request.id]
    {
      ghost var t := Contents();
      var existing := SelectionIds(rows, scopeKey, ruleset, selection);
      if existing != {} {
        var id :| id in existing;
        return Answer(rows[id]);
      }
      var r := NewRow(nextId, scopeKey, ruleset, Some(selection), None, WaitingForPlan, now);
      EnqueueOneKeeps(t, r);
      InvGivesConstraints(Insert(t, r));
      var ok := InsertRow(r);
      if !ok {
        return ConstraintViolated;
      }
      return Answer(r);
    }

    /** Only the plan: answer with some row that carries it, or wait for evidence. */
    method EnqueuePlan(scopeKey: string, ruleset: string, plan: Hash, now: nat) returns (reply: Reply)
      requires Inv(Contents())
      modifies this`rows, this`nextId
      ensures Contents() == if PlanIds(old(rows), scopeKey, ruleset, plan) != {} then old(Contents())
                            else Insert(old(Contents()), NewRow(old(nextId), scopeKey, ruleset, None, Some(plan), WaitingForEvidence, now))
      ensures reply.Answer? && reply.request.id in rows && rows[reply.request.id] == reply.request
      ensures InGroup(reply.request, scopeKey, ruleset)
      ensures reply.request.plan == Some(plan)
      ensures reply.request.id in old(rows) || reply.request == Request(
                old(nextId), scopeKey, ruleset, None, Some(plan), WaitingForEvidence, 0, None, None, None, None, now, now)
      ensures reply.request.id in old(rows) ==> reply.request == old(rows)[reply.request.id]
    {
      ghost var t := Contents();
      var existing := PlanIds(rows, scopeKey, ruleset, plan);
      if existing != {} {
        var id :| id in existing;
        return Answer(rows[id]);
      }
      var r := NewRow(nextId, scopeKey, ruleset, None, Some(plan), WaitingForEvidence, now);
      EnqueueOneKeeps(t, r);
      InvGivesConstraints(Insert(t, r));
      var ok := InsertRow(r);
      if !ok {
        return ConstraintViolated;
      }
      return Answer(r);
    }

    // ---------- Claiming ----------

    /** SELECT scope_key, MIN(id) of the active rows, grouped by scope. */
    method ScopeHeads() returns (heads: map<string, nat>)
      ensures forall id :: IsHead(rows, id) <==> id in rows && rows[id].scopeKey in heads && heads[rows[id].scopeKey] == id
    {
      heads := map[];
      var todo := rows.Keys;
      while todo != {}
        invariant todo <= rows.Keys
        invariant forall s :: s in heads ==> heads[s] in rows && heads[s] !in todo && Active(rows[heads[s]]) && rows[heads[s]].scopeKey == s
        invariant forall j :: j in rows && j !in todo && Active(rows[j]) ==>
            rows[j].scopeKey in heads && heads[rows[j].scopeKey] <= j
        decreases todo
      {
        hide Active;
        var id :| id in todo;
        var scope := rows[id].scopeKey;
        if Active(rows[id]) && (scope !in heads || id < heads[scope]) {
          heads := heads[scope := id];
        }
        todo := todo - {id};
      }
    }

    /** Heads that are due. */
    method DueHeads(now: nat) returns (ids: set<nat>)
      ensures forall id :: id in ids <==> id in rows && Claimable(rows, now, id)
    {
      var heads := ScopeHeads();
      hide IsHead;
      ids := set id | id in rows && rows[id].scopeKey in heads && heads[rows[id].scopeKey] == id && Due(rows[id], now);
    }

    method ClaimBatch(owner: Owner, duration: nat, limit: nat, now: nat) returns (claims: seq<Request>)
      requires Valid()
      modifies this
      ensures Valid() && log == old(log) + [Op.Claim(owner, duration, limit, now)]
      ensures forall i, j :: 0 <= i < j < |claims| ==> claims[i].id < claims[j].id
      ensures forall r: Request :: r in claims <==> r.id in ClaimedIds(old(rows), now, limit) && r.id in rows && rows[r.id] == r
      ensures forall id :: id in rows && id in ClaimedIds(old(rows), now, limit) ==> HeldBy(rows[id], owner)
      ensures forall id :: id in rows && id in ClaimedIds(old(rows), now, limit) ==>
                && rows[id].leaseExpires == Some(now + duration) && rows[id].nextAttempt.None?
                && id in old(rows) && rows[id].attempts == old(rows)[id].attempts + 1
      ensures rows.Keys == old(rows).Keys
      ensures forall id :: id in rows && id !in ClaimedIds(old(rows), now, limit) ==> rows[id] == old(rows)[id]
    {
      hide Inv, Run, Claimable, ClaimedIds, Constraints;
      RunKeeps(log);
      ghost var t, op := Contents(), Op.Claim(owner, duration, limit, now);
      var ids := DueHeads(now);
      var batch := FirstOf(ids, limit);
      BatchIsClaimed(rows, now, limit, ids, batch);
      ClaimedAreActive(rows, now, limit);
      rows := map id | id in rows :: if id in batch then ClaimRow(rows[id], owner, duration, now) else rows[id];
      assert rows == ClaimEffect(t.rows, owner, duration, limit, now);
      Record(op);
      RunKeeps(log);
      IdsMatch(Contents());
      claims := RowsOf(rows, batch);
      RowsListed(rows, batch, claims);
    }

    // ---------- Finishing ----------

    /** Writes the end of a row if the caller holds it. */
    method End(id: nat, owner: Owner, ending: Ending, now: nat) returns (ok: bool)
      requires Valid()
      modifies this
      ensures Valid() && log == old(log) + [Finish(id, owner, ending, now)]
      ensures ok <==> Leaseholder(old(log), id) == Some(owner)
      ensures ok ==> id in old(rows) && rows == old(rows)[id := EndRow(old(rows)[id], ending, now)]
      ensures ok ==> id in rows && IsEnd(old(rows)[id], ending, now, rows[id])
      ensures !ok ==> Contents() == old(Contents())
    {
      hide Inv, Run, Constraints;
      LeaseIsHistory(log, id);
      ghost var op := Finish(id, owner, ending, now);
      EffectAllowed(log, op);
      ok := false;
      if id in rows && HeldBy(rows[id], owner) {
        ok := UpdateRow(id, EndRow(rows[id], ending, now));
      }
      Record(op);
    }

    method Complete(id: nat, owner: Owner, now: nat) returns (ok: bool)
      requires Valid()
      modifies this
      ensures Valid() && log == old(log) + [Finish(id, owner, Ending.Complete, now)]
      ensures ok <==> Leaseholder(old(log), id) == Some(owner)
      ensures ok ==> id in old(rows) && rows == old(rows)[id := EndRow(old(rows)[id], Ending.Complete, now)]
      ensures !ok ==> Contents() == old(Contents())
    {
      ok := End(id, owner, Ending.Complete, now);
    }

    method Fail(id: nat, owner: Owner, now: nat, code: string) returns (ok: bool)
      requires Valid()
      modifies this
      ensures Valid() && log == old(log) + [Finish(id, owner, Ending.Fail(code), now)]
      ensures ok <==> Leaseholder(old(log), id) == Some(owner)
      ensures ok ==> id in old(rows) && rows == old(rows)[id := EndRow(old(rows)[id], Ending.Fail(code), now)]
      ensures !ok ==> Contents() == old(Contents())
    {
      ok := End(id, owner, Ending.Fail(code), now);
    }

    method Supersede(id: nat, owner: Owner, now: nat, code: Option<string>) returns (ok: bool)
      requires Valid()
      modifies this
      ensures Valid() && log == old(log) + [Finish(id, owner, Ending.Supersede(code), now)]
      ensures ok <==> Leaseholder(old(log), id) == Some(owner)
      ensures ok ==> id in old(rows) && rows == old(rows)[id := EndRow(old(rows)[id], Ending.Supersede(code), now)]
      ensures !ok ==> Contents() == old(Contents())
    {
      ok := End(id, owner, Ending.Supersede(code), now);
    }

    method ReleaseForRetry(id: nat, owner: Owner, now: nat, retryAt: nat, code: Option<string>, maxAttempts: nat)
      returns (ok: bool)
      requires Valid()
      modifies this
      ensures Valid() && log == old(log) + [Release(id, owner, retryAt, maxAttempts, code, now)]
      ensures ok <==> Leaseholder(old(log), id) == Some(owner)
      ensures ok ==> id in old(rows) && rows == old(rows)[id := ReleaseRow(old(rows)[id], retryAt, maxAttempts, code, now)]
      ensures !ok ==> Contents() == old(Contents())
    {
      hide Inv, Run, Constraints;
      LeaseIsHistory(log, id);
      ghost var op := Release(id, owner, retryAt, maxAttempts, code, now);
      EffectAllowed(log, op);
      ok := false;
      if id in rows && HeldBy(rows[id], owner) {
        var r := rows[id];
        if r.attempts >= maxAttempts {
          ok := UpdateRow(id, r.(status := Failed, leaseOwner := None, leaseExpires := None, errorCode := Some("EXHAUSTED_RETRIES"), updatedAt := now));
        } else {
          ok := UpdateRow(id, r.(status := Pending, leaseOwner := None, leaseExpires := None, nextAttempt := Some(retryAt), errorCode := code, updatedAt := now));
        }
      }
      Record(op);
    }

    /** Fails the youngest row of the scope that waits for a plan: the hash check rejects it whenever there is one. */
    method FailWaitingForPlan(scopeKey: string, ruleset: string, selection: Option<Hash>, now: nat, code: string)
      returns (failure: WaitingFailure)
      requires Valid()
      modifies this
      ensures failure != Updated
      ensures Valid() && log == old(log) + [FailWaiting(scopeKey, ruleset, selection, code, now)]
      ensures rows == old(rows)
      ensures failure == Violated <==> exists id :: id in rows && InGroup(rows[id], scopeKey, ruleset) && rows[id].status == WaitingForPlan
                                                    && (Given(selection) ==> rows[id].selection == selection)
    {
      hide Inv, Run, Constraints;
      RunKeeps(log);
      var matching := set id | id in rows && InGroup(rows[id], scopeKey, ruleset) && rows[id].status == WaitingForPlan
                               && (Given(selection) ==> rows[id].selection == selection);
      failure := NoSuchRow;
      assert forall id :: id in matching <==> id in rows && InGroup(rows[id], scopeKey, ruleset) && rows[id].status == WaitingForPlan
                                              && (Given(selection) ==> rows[id].selection == selection);
      if matching != {} {
        var id := Greatest(matching);
        assert id in matching;
        assert rows[id].plan.None? by { WaitsWithoutPlan(Contents(), id); }
        var r := rows[id].(status := Failed, errorCode := Some(code), updatedAt := now);
        FailingWaitingIsForbidden(rows, id, r);
        var ok := UpdateRow(id, r);
        failure := if ok then Updated else Violated;
      }
      Record(FailWaiting(scopeKey, ruleset, selection, code, now));
    }
  }

  lemma WaitsWithoutPlan(t: Table, id: nat)
    requires Inv(t) && id in t.rows && t.rows[id].status == WaitingForPlan
    ensures t.rows[id].plan.None?
  {
    assert HashesCoherent(t.rows[id]);
  }

  lemma EnqueueNeither(t: Table, op: Op)
    requires op.Enqueue? && !Given(op.selection) && !Given(op.plan)
    ensures Apply(t, op) == t
  {
  }

  lemma EnqueueIsBoth(t: Table, op: Op)
    requires op.Enqueue? && Given(op.selection) && Given(op.plan)
    ensures Apply(t, op) == EnqueueBoth(t, op.scopeKey, op.ruleset, op.selection.value, op.plan.value, op.now)
  {
  }

  lemma EnqueueIsSelection(t: Table, op: Op)
    requires op.Enqueue? && Given(op.selection) && !Given(op.plan)
    ensures Apply(t, op) == if SelectionIds(t.rows, op.scopeKey, op.ruleset, op.selection.value) != {} then t
                            else Insert(t, NewRow(t.nextId, op.scopeKey, op.ruleset, Some(op.selection.value), None, WaitingForPlan, op.now))
  {
  }

  lemma EnqueueIsPlan(t: Table, op: Op)
    requires op.Enqueue? && !Given(op.selection) && Given(op.plan)
    ensures Apply(t, op) == if PlanIds(t.rows, op.scopeKey, op.ruleset, op.plan.value) != {} then t
                            else Insert(t, NewRow(t.nextId, op.scopeKey, op.ruleset, None, Some(op.plan.value), WaitingForEvidence, op.now))
  {
  }

  /** The effect of any call on a reachable table is within the constraints. */
  lemma EffectAllowed(log: seq<Op>, op: Op)
    ensures Constraints(Apply(Run(log), op).rows)
  {
    hide Inv, Apply, Run, Constraints;
    RunKeeps(log);
    ApplyKeeps(Run(log), op);
    InvGivesConstraints(Apply(Run(log), op));
  }

  method Greatest(ids: set<nat>) returns (greatest: nat)
    requires ids != {}
    ensures greatest in ids && forall j :: j in ids ==> j <= greatest
  {
    greatest :| greatest in ids;
    var todo := ids - {greatest};
    while todo != {}
      invariant greatest in ids && todo <= ids && forall j :: j in ids && j !in todo ==> j <= greatest
      decreases todo
    {
      var id :| id in todo;
      todo := todo - {id};
      if greatest < id {
        greatest := id;
      }
    }
  }

  method Least(ids: set<nat>) returns (least: nat)
    requires ids != {}
    ensures least in ids && forall j :: j in ids ==> least <= j
  {
    least :| least in ids;
    var todo := ids - {least};
    while todo != {}
      invariant least in ids && todo <= ids && forall j :: j in ids && j !in todo ==> least <= j
      decreases todo
    {
      var id :| id in todo;
      todo := todo - {id};
      if id < least {
        least := id;
      }
    }
  }

  ghost predicate Ascending(s: seq<nat>) {
    forall i, j :: 0 <= i < j < |s| ==> s[i] < s[j]
  }

  /** ORDER BY id LIMIT: the first ids in ascending order. */
  method FirstOf(ids: set<nat>, limit: nat) returns (batch: seq<nat>)
    ensures Ascending(batch) && SetOf(batch) <= ids && |batch| <= limit
    ensures forall id :: id in ids && id !in batch ==> |batch| == limit && forall j :: j in batch ==> j < id
  {
    batch := [];
    var rest := ids;
    while |batch| < limit && rest != {}
      invariant Ascending(batch) && |batch| <= limit
      invariant forall j :: j in ids <==> j in batch || j in rest
      invariant forall i, j :: i in batch && j in rest ==> i < j
      decreases rest
    {
      var next := Least(rest);
      assert forall i :: 0 <= i < |batch| ==> batch[i] in batch;
      batch := batch + [next];
      rest := rest - {next};
    }
  }

  lemma {:induction false} AscendingSize(s: seq<nat>)
    requires Ascending(s)
    ensures |SetOf(s)| == |s|
  {
    if s != [] {
      var front, last := s[..|s| - 1], s[|s| - 1];
      assert s == front + [last];
      AscendingSize(front);
      assert last !in front;
      assert SetOf(s) == SetOf(front) + {last};
    }
  }

  lemma BelowIsPrefix(ids: set<nat>, batch: seq<nat>, k: nat, below: set<nat>)
    requires Ascending(batch) && SetOf(batch) <= ids && k < |batch|
    requires forall id :: id in ids && id !in batch ==> batch[k] < id
    requires forall j :: j in below <==> j in ids && j < batch[k]
    ensures |below| == k
  {
    var front := batch[..k];
    forall j | j in below
      ensures j in front
    {
      assert j in batch;
      var i :| 0 <= i < |batch| && batch[i] == j;
      assert i < k;
      assert front[i] == j;
    }
    forall j | j in front
      ensures j in below
    {
      var i :| 0 <= i < k && front[i] == j;
      assert batch[i] in SetOf(batch);
    }
    assert below == SetOf(front);
    AscendingSize(front);
  }

  /** The first due heads are the claimed ids. */
  lemma BatchIsClaimed(rows: Rows, now: nat, limit: nat, ids: set<nat>, batch: seq<nat>)
    requires forall id :: id in ids <==> id in rows && Claimable(rows, now, id)
    requires Ascending(batch) && SetOf(batch) <= ids && |batch| <= limit
    requires forall id :: id in ids && id !in batch ==> |batch| == limit && forall j :: j in batch ==> j < id
    ensures forall id :: id in batch <==> id in ClaimedIds(rows, now, limit)
  {
    hide Claimable, Ascending;
    forall id | id in batch
      ensures id in ClaimedIds(rows, now, limit)
    {
      var k :| 0 <= k < |batch| && batch[k] == id;
      assert id in SetOf(batch);
      BelowIsPrefix(ids, batch, k, ClaimableBelow(rows, now, id));
    }
    forall id | id in ClaimedIds(rows, now, limit)
      ensures id in batch
    {
      if id !in batch {
        assert SetOf(batch) <= ClaimableBelow(rows, now, id);
        AscendingSize(batch);
        SubsetNotLarger(SetOf(batch), ClaimableBelow(rows, now, id));
      }
    }
  }

  function RowsOf(rows: Rows, ids: seq<nat>): (list: seq<Request>)
    requires forall id :: id in ids ==> id in rows
    ensures |list| == |ids| && forall i :: 0 <= i < |ids| ==> list[i] == rows[ids[i]]
  {
    seq(|ids|, i requires 0 <= i < |ids| => rows[ids[i]])
  }

  lemma IdsMatch(t: Table)
    requires Inv(t)
    ensures forall id :: id in t.rows ==> t.rows[id].id == id
  {
  }

  lemma RowsListed(rows: Rows, batch: seq<nat>, list: seq<Request>)
    requires (forall id :: id in batch ==> id in rows) && list == RowsOf(rows, batch)
    requires Ascending(batch) && forall id :: id in rows ==> rows[id].id == id
    ensures forall i, j :: 0 <= i < j < |list| ==> list[i].id < list[j].id
    ensures forall r: Request :: r in list <==> r.id in batch && rows[r.id] == r
  {
    assert forall i :: 0 <= i < |batch| ==> batch[i] in batch && list[i].id == batch[i];
    forall r: Request | r.id in batch && rows[r.id] == r
      ensures r in list
    {
      var i :| 0 <= i < |batch| && batch[i] == r.id;
      assert list[i] == r;
    }
  }
}
