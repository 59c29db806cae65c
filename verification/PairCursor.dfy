/**
  The trigger adapter over the cursor row, and one cycle of its worker. Each call is atomic, and every write is checked
  against the row's lease constraint.
 */
module PairCursor {
  import opened Evidence
  import opened CursorSpec

  datatype ClaimTicket = ClaimTicket(target: Mark, attempts: nat, expires: nat, last: Mark)

  lemma EffectAllowed(log: seq<Op>, op: Op)
    ensures LeaseCoherent(RowOf(Apply(Run(log), op)))
  {
    hide Apply, Run;
    RunKeeps(log);
    StepKeeps(Run(log), op);
  }

  class TriggerCursor {
    var row: Option<Cursor>
    var evidenceMax: nat
    var thesesMax: nat
    ghost var log: seq<Op>

    ghost function Contents(): State
      reads this
    {
      State(row, Mark(evidenceMax, thesesMax))
    }

    ghost predicate Valid()
      reads this
    {
      Contents() == Run(log)
    }

    constructor ()
      ensures Valid() && log == []
    {
      row, evidenceMax, thesesMax, log := None, 0, 0, [];
    }

    ghost method Record(op: Op)
      requires Contents() == Apply(Run(log), op)
      modifies this`log
      ensures Valid() && log == old(log) + [op]
    {
      RunStep(log, op);
      log := log + [op];
    }

    /** An UPDATE of the row; false if the lease check forbids it. */
    method Write(c: Cursor) returns (ok: bool)
      modifies this`row
      ensures ok <==> LeaseCoherent(c)
      ensures row == if ok then Some(c) else old(row)
    {
      ok := LeaseCoherent(c);
      if ok {
        row := Some(c);
      }
    }

    method InsertEvidence(id: nat)
      requires Valid()
      modifies this
      ensures Valid() && log == old(log) + [CursorSpec.InsertEvidence(id)]
    {
      if id > evidenceMax {
        evidenceMax := id;
      }
      Record(CursorSpec.InsertEvidence(id));
    }

    method InsertTheses(id: nat)
      requires Valid()
      modifies this
      ensures Valid() && log == old(log) + [CursorSpec.InsertTheses(id)]
    {
      if id > thesesMax {
        thesesMax := id;
      }
      Record(CursorSpec.InsertTheses(id));
    }

    method ClaimLatestPairEvidence(owner: Owner, duration: nat, now: nat) returns (ticket: Option<ClaimTicket>)
      requires Valid()
      modifies this
      ensures Valid() && log == old(log) + [CursorSpec.Claim(owner, duration, now)]
      ensures ticket.Some? <==> Claimable(old(Contents()), now)
      ensures ticket.Some? ==>
                && Holder(log) == Some((owner, ticket.value.target)) && ticket.value.target == old(Contents()).max
                && row == Some(ClaimedRow(old(Contents()), owner, duration, now)) && row.value.attempts == ticket.value.attempts
                && ticket.value.expires == now + duration
                && ticket.value.last == RowOf(old(Contents())).last
    {
      hide Run;
      EffectAllowed(log, CursorSpec.Claim(owner, duration, now));
      ghost var op := CursorSpec.Claim(owner, duration, now);
      if row.None? {
        row := Some(NEW_CURSOR);
      }
      var cursor := row.value;
      if cursor.nextAttempt.Some? && cursor.nextAttempt.value > now {
        Record(op);
        return None;
      }
      if cursor.owner.Some? && cursor.expires.Some? && cursor.expires.value > now {
        Record(op);
        return None;
      }
      if evidenceMax <= cursor.last.receipt && thesesMax <= cursor.last.theses {
        Record(op);
        return None;
      }
      var target := Mark(evidenceMax, thesesMax);
      var isSameTarget := cursor.target == Some(target);
      var attempts := if isSameTarget then cursor.attempts + 1 else 1;
      var ok := Write(Cursor(cursor.last, Some(target), Some(owner), Some(now + duration), attempts, None));
      assert ok;
      Record(op);
      HolderIsHistory(log);
      return Some(ClaimTicket(target, attempts, now + duration, cursor.last));
    }

    method Complete(owner: Owner, target: Mark) returns (ok: bool)
      requires Valid()
      modifies this
      ensures Valid() && log == old(log) + [CursorSpec.Complete(owner, target)]
      ensures ok <==> Holder(old(log)) == Some((owner, target))
      ensures ok ==> row == Some(NEW_CURSOR.(last := target))
      ensures !ok ==> Contents() == old(Contents())
    {
      hide Run;
      HolderIsHistory(log);
      EffectAllowed(log, CursorSpec.Complete(owner, target));
      ok := false;
      if row.Some? && row.value.owner == Some(owner) && row.value.target == Some(target) {
        ok := Write(row.value.(last := target, target := None, owner := None, expires := None, attempts := 0, nextAttempt := None));
      }
      Record(CursorSpec.Complete(owner, target));
    }

    method ReleaseForRetry(owner: Owner, target: Mark, retryAt: nat) returns (ok: bool)
      requires Valid()
      modifies this
      ensures Valid() && log == old(log) + [CursorSpec.Release(owner, target, retryAt)]
      ensures ok <==> Holder(old(log)) == Some((owner, target))
      ensures ok ==> old(row).Some? && row == Some(old(row).value.(owner := None, expires := None, nextAttempt := Some(retryAt)))
      ensures !ok ==> Contents() == old(Contents())
    {
      hide Run;
      HolderIsHistory(log);
      EffectAllowed(log, CursorSpec.Release(owner, target, retryAt));
      ok := false;
      if row.Some? && row.value.owner == Some(owner) && row.value.target == Some(target) {
        ok := Write(row.value.(owner := None, expires := None, nextAttempt := Some(retryAt)));
      }
      Record(CursorSpec.Release(owner, target, retryAt));
    }
  }

  // ---------- The worker ----------

  /** What the try block threw, as far as the retry decision goes: the synthesis, or its completing call, then without effect. */
  datatype Failure = Permanent | Transient

  datatype CycleResult =
    | Idle
    | Succeeded(target: Mark)
    | PermanentFailure(target: Mark)
    | TransientFailure(target: Mark)
    | LeaseLost(target: Mark)

  datatype Timing = Timing(leaseMs: nat, retryMs: nat, maxAttempts: nat, start: nat, end: nat)

  predicate NoClaimBy(ops: seq<Op>, owner: Owner) {
    forall i :: 0 <= i < |ops| && ops[i].Claim? ==> ops[i].owner != owner
  }

  /** A worker that still holds the cursor after others have acted held it throughout: same watermark, same attempts. */
  lemma {:induction false} LeaseKeepsCursor(ops: seq<Op>, others: seq<Op>, owner: Owner, target: Mark)
    requires NoClaimBy(others, owner) && Holder(ops + others) == Some((owner, target))
    ensures Holder(ops) == Some((owner, target))
    ensures RowOf(Run(ops + others)) == RowOf(Run(ops))
  {
    if others == [] {
      assert ops + others == ops;
    } else {
      hide Apply, Inv, Claims, RowOf;
      var front, op := others[..|others| - 1], others[|others| - 1];
      assert ops + others == (ops + front) + [op];
      LeaseBefore(ops + front, op, owner, target);
      LeaseKeepsCursor(ops, front, owner, target);
    }
  }

  lemma LeaseBefore(ops: seq<Op>, op: Op, owner: Owner, target: Mark)
    requires (op.Claim? ==> op.owner != owner) && Holder(ops + [op]) == Some((owner, target))
    ensures Holder(ops) == Some((owner, target)) && RowOf(Run(ops + [op])) == RowOf(Run(ops))
  {
    assert (ops + [op])[..|ops|] == ops;
    HolderIsHistory(ops);
    HolderIsHistory(ops + [op]);
    RunKeeps(ops);
    RunStep(ops, op);
    hide Run, Inv;
  }

  method Perform(q: TriggerCursor, op: Op)
    requires q.Valid()
    modifies q
    ensures q.Valid() && q.log == old(q.log) + [op]
  {
    match op
    case InsertEvidence(id) => q.InsertEvidence(id);
    case InsertTheses(id) => q.InsertTheses(id);
    case Claim(owner, duration, now) => var _ := q.ClaimLatestPairEvidence(owner, duration, now);
    case Complete(owner, target) => var _ := q.Complete(owner, target);
    case Release(owner, target, retryAt) => var _ := q.ReleaseForRetry(owner, target, retryAt);
  }

  method PerformAll(q: TriggerCursor, ops: seq<Op>)
    requires q.Valid()
    modifies q
    ensures q.Valid() && q.log == old(q.log) + ops
  {
    for i := 0 to |ops|
      invariant q.Valid() && q.log == old(q.log) + ops[..i]
    {
      Perform(q, ops[i]);
      assert ops[..i + 1] == ops[..i] + [ops[i]];
    }
    assert ops[..|ops|] == ops;
  }

  /** Only a transient failure with attempts left is retried; everything else moves the watermark to the claimed snapshot. */
  method FinishClaim(q: TriggerCursor, owner: Owner, ticket: ClaimTicket, timing: Timing, failure: Option<Failure>)
    returns (result: CycleResult)
    requires q.Valid()
    requires Holder(q.log) == Some((owner, ticket.target)) ==>
        RowOf(q.Contents()).last == ticket.last && RowOf(q.Contents()).attempts == ticket.attempts
    modifies q
    ensures q.Valid() && |q.log| == |old(q.log)| + 1 && q.log[..|old(q.log)|] == old(q.log)
    ensures !result.Idle? && result.target == ticket.target
    ensures result.LeaseLost? <==> Holder(old(q.log)) != Some((owner, ticket.target))
    ensures result.LeaseLost? ==> q.Contents() == old(q.Contents())
    ensures !result.LeaseLost? ==>
              && (result.Succeeded? <==> failure.None?)
              && (result.TransientFailure? <==> failure == Some(Transient) && ticket.attempts < timing.maxAttempts)
    ensures result.Succeeded? || result.PermanentFailure? ==> q.row == Some(NEW_CURSOR.(last := ticket.target))
    ensures result.TransientFailure? ==>
              q.row == Some(Cursor(ticket.last, Some(ticket.target), None, None, ticket.attempts, Some(timing.end + timing.retryMs)))
  {
    hide Run;
    HolderIsHistory(q.log);
    if failure.None? {
      var updated := q.Complete(owner, ticket.target);
      return if updated then Succeeded(ticket.target) else LeaseLost(ticket.target);
    }
    var isExhausted := failure.value != Permanent && ticket.attempts >= timing.maxAttempts;
    if failure.value == Permanent || isExhausted {
      var updated := q.Complete(owner, ticket.target);
      return if updated then PermanentFailure(ticket.target) else LeaseLost(ticket.target);
    }
    var updated := q.ReleaseForRetry(owner, ticket.target, timing.end + timing.retryMs);
    return if updated then TransientFailure(ticket.target) else LeaseLost(ticket.target);
  }

  /** One cycle; others act between the claim and the finishing call, but not under this worker's name. */
  method RunCycle(q: TriggerCursor, owner: Owner, timing: Timing, failure: Option<Failure>, others: seq<Op>)
    returns (result: CycleResult)
    requires q.Valid() && NoClaimBy(others, owner)
    modifies q
    ensures q.Valid()
    ensures result.Idle? <==> !Claimable(old(q.Contents()), timing.start)
    ensures !result.Idle? ==>
              && result.target == old(q.Contents()).max
              && |q.log| == |old(q.log)| + 1 + |others| + 1
              && q.log[..|q.log| - 1] == old(q.log) + [CursorSpec.Claim(owner, timing.leaseMs, timing.start)] + others
              && (result.LeaseLost? <==> Holder(q.log[..|q.log| - 1]) != Some((owner, result.target)))
              && (result.LeaseLost? ==> Run(q.log) == Run(q.log[..|q.log| - 1]))
    ensures !result.Idle? && !result.LeaseLost? ==>
              var attempts := ClaimedRow(old(q.Contents()), owner, timing.leaseMs, timing.start).attempts;
              && (result.Succeeded? <==> failure.None?)
              && (result.TransientFailure? <==> failure == Some(Transient) && attempts < timing.maxAttempts)
    ensures result.Succeeded? || result.PermanentFailure? ==> q.row == Some(NEW_CURSOR.(last := result.target))
    ensures result.TransientFailure? ==>
              && q.row.Some? && q.row.value.last == RowOf(old(q.Contents())).last && q.row.value.target == Some(result.target)
              && q.row.value.owner.None? && q.row.value.nextAttempt == Some(timing.end + timing.retryMs) && q.row.value.attempts < timing.maxAttempts
  {
    hide Run, Apply, Claimable;
    ghost var before := q.log;
    var claim := q.ClaimLatestPairEvidence(owner, timing.leaseMs, timing.start);
    if claim.None? {
      return Idle;
    }
    var ticket := claim.value;
    ghost var claimed := q.log;
    ClaimKeepsLast(before, CursorSpec.Claim(owner, timing.leaseMs, timing.start));
    PerformAll(q, others);
    if Holder(q.log) == Some((owner, ticket.target)) {
      LeaseKeepsCursor(claimed, others, owner, ticket.target);
    }
    result := FinishClaim(q, owner, ticket, timing, failure);
    assert q.log[..|q.log| - 1] == before + [CursorSpec.Claim(owner, timing.leaseMs, timing.start)] + others;
  }

  lemma ClaimKeepsLast(ops: seq<Op>, op: Op)
    requires op.Claim?
    ensures RowOf(Run(ops + [op])).last == RowOf(Run(ops)).last
  {
    hide Run;
    RunStep(ops, op);
  }
}
