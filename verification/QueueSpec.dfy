/**
  The position synthesis request table and what each database call does to it. Every call is one atomic step; error
  messages are left out, and times are non-negative milliseconds.
 */
module QueueSpec {
  import opened Evidence

  type Hash = string
  type Owner = string

  datatype Status = WaitingForPlan | WaitingForEvidence | Pending | Processing | Completed | Failed | Superseded

  datatype Request = Request(
    id: nat,
    scopeKey: string,
    ruleset: string,
    selection: Option<Hash>,
    plan: Option<Hash>,
    status: Status,
    attempts: nat,
    nextAttempt: Option<nat>,
    leaseOwner: Option<Owner>,
    leaseExpires: Option<nat>,
    errorCode: Option<string>,
    createdAt: nat,
    updatedAt: nat)

  type Rows = map<nat, Request>

  /** The rows by id, and the next value of the id sequence. */
  datatype Table = Table(rows: Rows, nextId: nat)

  datatype Ending = Complete | Fail(code: string) | Supersede(reason: Option<string>)

  datatype Op =
    | Enqueue(scopeKey: string, ruleset: string, selection: Option<Hash>, plan: Option<Hash>, now: nat)
    | Claim(owner: Owner, duration: nat, limit: nat, now: nat)
    | Finish(id: nat, owner: Owner, ending: Ending, now: nat)
    | Release(id: nat, owner: Owner, retryAt: nat, maxAttempts: nat, code: Option<string>, now: nat)
    | FailWaiting(scopeKey: string, ruleset: string, selection: Option<Hash>, failure: string, now: nat)

  const EMPTY := Table(map[], 1)

  // ---------- Where clauses ----------

  predicate InGroup(r: Request, scopeKey: string, ruleset: string) {
    r.scopeKey == scopeKey && r.ruleset == ruleset
  }

  function ReadyIds(rows: Rows, scopeKey: string, ruleset: string, selection: Hash, plan: Hash): set<nat> {
    set id | id in rows && InGroup(rows[id], scopeKey, ruleset) && rows[id].selection == Some(selection) && rows[id].plan == Some(plan)
  }

  function SelectionIds(rows: Rows, scopeKey: string, ruleset: string, selection: Hash): set<nat> {
    set id | id in rows && InGroup(rows[id], scopeKey, ruleset) && rows[id].selection == Some(selection)
  }

  function PlanIds(rows: Rows, scopeKey: string, ruleset: string, plan: Hash): set<nat> {
    set id | id in rows && InGroup(rows[id], scopeKey, ruleset) && rows[id].plan == Some(plan)
  }

  function WaitingPlanIds(rows: Rows, scopeKey: string, ruleset: string, selection: Hash): set<nat> {
    set id | id in SelectionIds(rows, scopeKey, ruleset, selection) && rows[id].status == WaitingForPlan
  }

  function WaitingEvidenceIds(rows: Rows, scopeKey: string, ruleset: string, plan: Hash): set<nat> {
    set id | id in PlanIds(rows, scopeKey, ruleset, plan) && rows[id].status == WaitingForEvidence
  }

  predicate Active(r: Request) {
    r.status == Pending || r.status == Processing
  }

  predicate Terminal(r: Request) {
    r.status == Completed || r.status == Failed || r.status == Superseded
  }

  predicate Due(r: Request, now: nat) {
    || (r.status == Pending && (r.nextAttempt.None? || r.nextAttempt.value <= now))
    || (r.status == Processing && r.leaseExpires.Some? && r.leaseExpires.value <= now)
  }

  predicate HeldBy(r: Request, owner: Owner) {
    r.status == Processing && r.leaseOwner == Some(owner)
  }

  /** Empty strings count as missing. */
  predicate Given(h: Option<Hash>) {
    h.Some? && h.value != ""
  }

  // ---------- Row updates ----------

  function NewRow(id: nat, scopeKey: string, ruleset: string, selection: Option<Hash>, plan: Option<Hash>,
      status: Status, now: nat): Request {
    Request(id, scopeKey, ruleset, selection, plan, status, 0, None, None, None, None, now, now)
  }

  function PromoteWithPlan(r: Request, plan: Hash, now: nat): Request {
    r.(plan := Some(plan), status := Pending, updatedAt := now)
  }

  function PromoteWithSelection(r: Request, selection: Hash, now: nat): Request {
    r.(selection := Some(selection), status := Pending, updatedAt := now)
  }

  function ClaimRow(r: Request, owner: Owner, duration: nat, now: nat): Request {
    r.(status := Processing, leaseOwner := Some(owner), leaseExpires := Some(now + duration), attempts := r.attempts + 1, nextAttempt := None, updatedAt := now)
  }

  function EndRow(r: Request, ending: Ending, now: nat): Request {
    var ended := r.(leaseOwner := None, leaseExpires := None, updatedAt := now);
    match ending
    case Complete => ended.(status := Completed)
    case Fail(code) => ended.(status := Failed, errorCode := Some(code))
    case Supersede(reason) => ended.(status := Superseded, errorCode := reason)
  }

  function ReleaseRow(r: Request, retryAt: nat, maxAttempts: nat, code: Option<string>, now: nat): Request {
    if r.attempts >= maxAttempts then
      r.(status := Failed, leaseOwner := None, leaseExpires := None, errorCode := Some("EXHAUSTED_RETRIES"), updatedAt := now)
    else
      r.(status := Pending, leaseOwner := None, leaseExpires := None, nextAttempt := Some(retryAt), errorCode := code, updatedAt := now)
  }

  // ---------- The effect of each call ----------

  ghost function Pick(ids: set<nat>): (id: nat)
    requires ids != {}
    ensures id in ids
  {
    var id :| id in ids;
    id
  }

  /** A request for both hashes promotes the half that waits for the other, or else becomes pending at once. */
  ghost function EnqueueBoth(t: Table, scopeKey: string, ruleset: string, selection: Hash, plan: Hash,
      now: nat): Table {
    var rows := t.rows;
    var waitingPlan := WaitingPlanIds(rows, scopeKey, ruleset, selection);
    var waitingEvidence := WaitingEvidenceIds(rows, scopeKey, ruleset, plan);
    if ReadyIds(rows, scopeKey, ruleset, selection, plan) != {} then t
    else if waitingPlan != {} then
      t.(rows := rows[Pick(waitingPlan) := PromoteWithPlan(rows[Pick(waitingPlan)], plan, now)] - waitingEvidence)
    else if waitingEvidence != {} then
      t.(rows := rows[Pick(waitingEvidence) := PromoteWithSelection(rows[Pick(waitingEvidence)], selection, now)])
    else Insert(t, NewRow(t.nextId, scopeKey, ruleset, Some(selection), Some(plan), Pending, now))
  }

  function Insert(t: Table, r: Request): Table {
    Table(t.rows[t.nextId := r], t.nextId + 1)
  }

  ghost function EnqueueEffect(t: Table, scopeKey: string, ruleset: string, selection: Option<Hash>, plan: Option<Hash>,
      now: nat): Table {
    if Given(selection) && Given(plan) then EnqueueBoth(t, scopeKey, ruleset, selection.value, plan.value, now)
    else if Given(selection) then
      if SelectionIds(t.rows, scopeKey, ruleset, selection.value) != {} then t
      else Insert(t, NewRow(t.nextId, scopeKey, ruleset, selection, None, WaitingForPlan, now))
    else if Given(plan) then
      if PlanIds(t.rows, scopeKey, ruleset, plan.value) != {} then t
      else Insert(t, NewRow(t.nextId, scopeKey, ruleset, None, plan, WaitingForEvidence, now))
    else t
  }

  /** The least active id of its scope. */
  ghost predicate IsHead(rows: Rows, id: nat) {
    id in rows && Active(rows[id]) && forall j :: j in rows && Active(rows[j]) && rows[j].scopeKey == rows[id].scopeKey ==> id <= j
  }

  ghost predicate Claimable(rows: Rows, now: nat, id: nat) {
    IsHead(rows, id) && Due(rows[id], now)
  }

  ghost function ClaimableBelow(rows: Rows, now: nat, id: nat): set<nat> {
    set j | j in rows && j < id && Claimable(rows, now, j)
  }

  /** The first claimable heads, as many as the limit allows. */
  ghost function ClaimedIds(rows: Rows, now: nat, limit: nat): set<nat> {
    set id | id in rows && Claimable(rows, now, id) && |ClaimableBelow(rows, now, id)| < limit
  }

  ghost function ClaimEffect(rows: Rows, owner: Owner, duration: nat, limit: nat, now: nat): Rows {
    map id | id in rows :: if id in ClaimedIds(rows, now, limit) then ClaimRow(rows[id], owner, duration, now) else rows[id]
  }

  ghost predicate Holds(t: Table, id: nat, owner: Owner) {
    id in t.rows && HeldBy(t.rows[id], owner)
  }

  /** The table after a call. Failing a waiting row always violates the hash check, so that call changes nothing. */
  ghost function Apply(t: Table, op: Op): Table {
    match op
    case Enqueue(scopeKey, ruleset, selection, plan, now) => EnqueueEffect(t, scopeKey, ruleset, selection, plan, now)
    case Claim(owner, duration, limit, now) => t.(rows := ClaimEffect(t.rows, owner, duration, limit, now))
    case Finish(id, owner, ending, now) =>
      if Holds(t, id, owner) then t.(rows := t.rows[id := EndRow(t.rows[id], ending, now)]) else t
    case Release(id, owner, retryAt, maxAttempts, code, now) =>
      if Holds(t, id, owner) then t.(rows := t.rows[id := ReleaseRow(t.rows[id], retryAt, maxAttempts, code, now)]) else t
    case FailWaiting(_, _, _, _, _) => t
  }

  ghost function Run(ops: seq<Op>): Table {
    if ops == [] then EMPTY else Apply(Run(ops[..|ops| - 1]), ops[|ops| - 1])
  }

  // ---------- The table's declared constraints ----------

  predicate HashesCoherent(r: Request) {
    match r.status
    case WaitingForPlan => r.selection.Some? && r.plan.None?
    case WaitingForEvidence => r.selection.None? && r.plan.Some?
    case _ => r.selection.Some? && r.plan.Some?
  }

  predicate LeaseCoherent(r: Request) {
    if r.status == Processing then r.leaseOwner.Some? && r.leaseExpires.Some? else r.leaseOwner.None? && r.leaseExpires.None?
  }

  predicate SameGroup(a: Request, b: Request) {
    a.scopeKey == b.scopeKey && a.ruleset == b.ruleset
  }

  predicate UniqueReady(rows: Rows) {
    forall i, j :: i in rows && j in rows && i != j && SameGroup(rows[i], rows[j]) && rows[i].selection.Some? && rows[i].plan.Some? ==>
      rows[i].selection != rows[j].selection || rows[i].plan != rows[j].plan
  }

  predicate UniqueWaitingPlan(rows: Rows) {
    forall i, j :: i in rows && j in rows && i != j && SameGroup(rows[i], rows[j]) && rows[i].status == WaitingForPlan && rows[j].status == WaitingForPlan ==>
      rows[i].selection != rows[j].selection
  }

  predicate UniqueWaitingEvidence(rows: Rows) {
    forall i, j :: i in rows && j in rows && i != j && SameGroup(rows[i], rows[j]) && rows[i].status == WaitingForEvidence && rows[j].status == WaitingForEvidence ==>
      rows[i].plan != rows[j].plan
  }

  /** The checks and partial unique indexes of the schema. */
  predicate Constraints(rows: Rows) {
    && (forall id :: id in rows ==> HashesCoherent(rows[id]) && LeaseCoherent(rows[id]))
    && UniqueReady(rows) && UniqueWaitingPlan(rows) && UniqueWaitingEvidence(rows)
  }

  // ---------- What every reachable table satisfies ----------

  ghost predicate IdsFit(t: Table) {
    forall id :: id in t.rows ==> t.rows[id].id == id && id < t.nextId
  }

  /** A row that waits for a plan is the only row of its group with its selection; likewise for evidence and plan. */
  ghost predicate WaitingAlone(rows: Rows) {
    && (forall i, j :: i in rows && j in rows && i != j && SameGroup(rows[i], rows[j]) && rows[i].status == WaitingForPlan ==>
          rows[i].selection != rows[j].selection)
    && (forall i, j :: i in rows && j in rows && i != j && SameGroup(rows[i], rows[j]) && rows[i].status == WaitingForEvidence ==>
          rows[i].plan != rows[j].plan)
  }

  ghost predicate Coherent(rows: Rows) {
    forall id :: id in rows ==> HashesCoherent(rows[id]) && LeaseCoherent(rows[id])
  }

  ghost predicate Inv(t: Table) {
    IdsFit(t) && Coherent(t.rows) && WaitingAlone(t.rows) && UniqueReady(t.rows)
  }

  /** The waiting rows' isolation gives all three unique indexes. */
  lemma InvGivesConstraints(t: Table)
    requires Inv(t)
    ensures Constraints(t.rows)
  {
  }

  /** At most one row waits with a given hash, so LIMIT 1 has no choice. */
  lemma OneWaits(t: Table, scopeKey: string, ruleset: string, hash: Hash, i: nat, j: nat)
    requires Inv(t)
    ensures i in WaitingPlanIds(t.rows, scopeKey, ruleset, hash) && j in WaitingPlanIds(t.rows, scopeKey, ruleset, hash) ==> i == j
    ensures i in WaitingEvidenceIds(t.rows, scopeKey, ruleset, hash) && j in WaitingEvidenceIds(t.rows, scopeKey, ruleset, hash) ==> i == j
  {
  }

  /** Status, hashes and lease of a row may change; its identity, group and creation time do not. */
  predicate SameIdentity(a: Request, b: Request) {
    a.id == b.id && a.scopeKey == b.scopeKey && a.ruleset == b.ruleset && a.createdAt == b.createdAt
  }

  /** The tables differ only in rows that were active, and stay active or end; groups and hashes are the same. */
  ghost predicate KeepsHashes(t: Table, t': Table) {
    && t'.rows.Keys == t.rows.Keys && t'.nextId == t.nextId
    && (forall id :: id in t.rows ==>
          SameIdentity(t'.rows[id], t.rows[id]) && t'.rows[id].selection == t.rows[id].selection && t'.rows[id].plan == t.rows[id].plan)
    && (forall id :: id in t.rows ==>
          t'.rows[id] == t.rows[id] || (Active(t.rows[id]) && (Active(t'.rows[id]) || Terminal(t'.rows[id])) && LeaseCoherent(t'.rows[id])))
  }

  lemma KeepCoherent(t: Table, t': Table)
    requires KeepsHashes(t, t') && IdsFit(t) && Coherent(t.rows)
    ensures IdsFit(t') && Coherent(t'.rows)
  {
  }

  lemma KeepWaitingAlone(t: Table, t': Table)
    requires KeepsHashes(t, t') && WaitingAlone(t.rows)
    ensures WaitingAlone(t'.rows)
  {
    hide LeaseCoherent;
  }

  lemma KeepUniqueReady(t: Table, t': Table)
    requires KeepsHashes(t, t') && UniqueReady(t.rows)
    ensures UniqueReady(t'.rows)
  {
    hide LeaseCoherent, Active, Terminal;
  }

  /** An update that keeps group and hashes and does not start waiting keeps the invariant. */
  lemma KeepHashes(t: Table, t': Table)
    requires Inv(t) && KeepsHashes(t, t')
    ensures Inv(t')
  {
    hide KeepsHashes, IdsFit, Coherent, WaitingAlone, UniqueReady;
    KeepCoherent(t, t');
    KeepWaitingAlone(t, t');
    KeepUniqueReady(t, t');
  }

  lemma InsertKeeps(t: Table, r: Request)
    requires Inv(t) && r.id == t.nextId && HashesCoherent(r) && LeaseCoherent(r)
    requires forall id :: id in t.rows && SameGroup(t.rows[id], r) && (t.rows[id].status == WaitingForPlan || r.status == WaitingForPlan) ==>
        t.rows[id].selection != r.selection
    requires forall id :: id in t.rows && SameGroup(t.rows[id], r) && (t.rows[id].status == WaitingForEvidence || r.status == WaitingForEvidence) ==>
        t.rows[id].plan != r.plan
    requires forall id :: id in t.rows && SameGroup(t.rows[id], r) && r.selection.Some? && r.plan.Some? ==>
        t.rows[id].selection != r.selection || t.rows[id].plan != r.plan
    ensures Inv(Insert(t, r))
  {
  }

  lemma PromoteKeeps(t: Table, id: nat, r: Request, gone: set<nat>)
    requires Inv(t) && id in t.rows && r.id == id && SameGroup(r, t.rows[id]) && r.status == Pending
    requires HashesCoherent(r) && LeaseCoherent(r) && id !in gone
    requires forall j :: j in t.rows && j != id && j !in gone && SameGroup(t.rows[j], r) ==>
        t.rows[j].selection != r.selection || t.rows[j].plan != r.plan
    requires forall j :: j in t.rows && j != id && j !in gone && SameGroup(t.rows[j], r) && t.rows[j].status == WaitingForPlan ==>
        t.rows[j].selection != r.selection
    requires forall j :: j in t.rows && j != id && j !in gone && SameGroup(t.rows[j], r) && t.rows[j].status == WaitingForEvidence ==>
        t.rows[j].plan != r.plan
    ensures Inv(t.(rows := t.rows[id := r] - gone))
  {
  }

  lemma EnqueueBothKeeps(t: Table, scopeKey: string, ruleset: string, selection: Hash, plan: Hash, now: nat)
    requires Inv(t)
    ensures Inv(EnqueueBoth(t, scopeKey, ruleset, selection, plan, now))
  {
    var rows := t.rows;
    var waitingPlan := WaitingPlanIds(rows, scopeKey, ruleset, selection);
    var waitingEvidence := WaitingEvidenceIds(rows, scopeKey, ruleset, plan);
    if ReadyIds(rows, scopeKey, ruleset, selection, plan) != {} {
    } else if waitingPlan != {} {
      var id := Pick(waitingPlan);
      PromoteKeeps(t, id, PromoteWithPlan(rows[id], plan, now), waitingEvidence);
    } else if waitingEvidence != {} {
      var id := Pick(waitingEvidence);
      var r := PromoteWithSelection(rows[id], selection, now);
      PromoteKeeps(t, id, r, {});
      assert rows[id := r] - {} == rows[id := r];
    } else {
      forall id | id in rows && InGroup(rows[id], scopeKey, ruleset)
        ensures rows[id].selection != Some(selection) || rows[id].plan != Some(plan)
        ensures rows[id].status == WaitingForPlan ==> rows[id].selection != Some(selection)
        ensures rows[id].status == WaitingForEvidence ==> rows[id].plan != Some(plan)
      {
        assert id !in ReadyIds(rows, scopeKey, ruleset, selection, plan) && id !in waitingPlan && id !in waitingEvidence;
      }
      InsertKeeps(t, NewRow(t.nextId, scopeKey, ruleset, Some(selection), Some(plan), Pending, now));
    }
  }

  lemma EnqueueOneKeeps(t: Table, r: Request)
    requires Inv(t) && r.id == t.nextId && HashesCoherent(r) && LeaseCoherent(r)
    requires r.status == WaitingForPlan ==> SelectionIds(t.rows, r.scopeKey, r.ruleset, r.selection.value) == {}
    requires r.status == WaitingForEvidence ==> PlanIds(t.rows, r.scopeKey, r.ruleset, r.plan.value) == {}
    requires r.status == WaitingForPlan || r.status == WaitingForEvidence
    ensures Inv(Insert(t, r))
  {
    forall id | id in t.rows && SameGroup(t.rows[id], r)
      ensures r.status == WaitingForPlan ==> t.rows[id].selection != r.selection
      ensures r.status == WaitingForEvidence ==> t.rows[id].plan != r.plan
    {
      assert r.status == WaitingForPlan ==> id !in SelectionIds(t.rows, r.scopeKey, r.ruleset, r.selection.value);
      assert r.status == WaitingForEvidence ==> id !in PlanIds(t.rows, r.scopeKey, r.ruleset, r.plan.value);
    }
    InsertKeeps(t, r);
  }

  lemma ClaimKeepsHashes(t: Table, op: Op)
    requires op.Claim?
    ensures KeepsHashes(t, Apply(t, op))
  {
    hide ClaimedIds;
    ClaimedAreActive(t.rows, op.now, op.limit);
  }

  /** r replaces an active row, keeps its group and hashes, and stays active or ends. */
  ghost predicate Settles(was: Request, r: Request) {
    && Active(was) && SameIdentity(r, was) && r.selection == was.selection && r.plan == was.plan
    && (Active(r) || Terminal(r)) && LeaseCoherent(r)
  }

  lemma OneRowKeepsHashes(t: Table, id: nat, r: Request)
    requires id in t.rows && Settles(t.rows[id], r)
    ensures KeepsHashes(t, t.(rows := t.rows[id := r]))
  {
  }

  lemma FinishSettles(was: Request, owner: Owner, ending: Ending, now: nat)
    requires HeldBy(was, owner)
    ensures Settles(was, EndRow(was, ending, now))
  {
  }

  lemma ReleaseSettles(was: Request, owner: Owner, retryAt: nat, maxAttempts: nat, code: Option<string>, now: nat)
    requires HeldBy(was, owner)
    ensures Settles(was, ReleaseRow(was, retryAt, maxAttempts, code, now))
  {
  }

  /** Every call keeps the invariant. */
  lemma ApplyKeeps(t: Table, op: Op)
    requires Inv(t)
    ensures Inv(Apply(t, op))
  {
    hide Inv, EnqueueBoth, ClaimEffect, KeepsHashes, Settles, EndRow, ReleaseRow;
    match op
    case Enqueue(scopeKey, ruleset, selection, plan, now) =>
      if Given(selection) && Given(plan) {
        EnqueueBothKeeps(t, scopeKey, ruleset, selection.value, plan.value, now);
      } else if Given(selection) {
        if SelectionIds(t.rows, scopeKey, ruleset, selection.value) == {} {
          EnqueueOneKeeps(t, NewRow(t.nextId, scopeKey, ruleset, selection, None, WaitingForPlan, now));
        }
      } else if Given(plan) {
        if PlanIds(t.rows, scopeKey, ruleset, plan.value) == {} {
          EnqueueOneKeeps(t, NewRow(t.nextId, scopeKey, ruleset, None, plan, WaitingForEvidence, now));
        }
      }
    case Claim(_, _, _, _) =>
      ClaimKeepsHashes(t, op);
      KeepHashes(t, Apply(t, op));
    case Finish(id, owner, ending, now) =>
      if Holds(t, id, owner) {
        FinishSettles(t.rows[id], owner, ending, now);
        OneRowKeepsHashes(t, id, EndRow(t.rows[id], ending, now));
        KeepHashes(t, Apply(t, op));
      }
    case Release(id, owner, retryAt, maxAttempts, code, now) =>
      if Holds(t, id, owner) {
        ReleaseSettles(t.rows[id], owner, retryAt, maxAttempts, code, now);
        OneRowKeepsHashes(t, id, ReleaseRow(t.rows[id], retryAt, maxAttempts, code, now));
        KeepHashes(t, Apply(t, op));
      }
    case FailWaiting(_, _, _, _, _) =>
  }

  lemma ClaimedAreActive(rows: Rows, now: nat, limit: nat)
    ensures forall id :: id in ClaimedIds(rows, now, limit) ==>
        id in rows && Active(rows[id]) && Claimable(rows, now, id)
  {
  }

  /** Every reachable table satisfies the invariant, so the schema's checks and unique indexes never reject a call. */
  lemma {:induction false} RunKeeps(ops: seq<Op>)
    ensures Inv(Run(ops)) && Constraints(Run(ops).rows)
  {
    if ops != [] {
      hide Inv, Constraints, Apply;
      RunKeeps(ops[..|ops| - 1]);
      ApplyKeeps(Run(ops[..|ops| - 1]), ops[|ops| - 1]);
      InvGivesConstraints(Run(ops));
    }
  }
}
