/**
  The pair synthesis cursor: a two-component watermark over evidence receipts and support/resistance theses, with a lease,
  a target snapshot, a back-off time and an attempt counter. Both source tables only grow; ids come from
  sequences, and a row may become visible after rows with higher ids.
 */
module CursorSpec {
  import opened Evidence

  type Owner = string

  /** A position in both source tables. */
  datatype Mark = Mark(receipt: nat, theses: nat) {
    predicate UpTo(other: Mark) {
      receipt <= other.receipt && theses <= other.theses
    }
  }

  datatype Cursor = Cursor(
    last: Mark,
    target: Option<Mark>,
    owner: Option<Owner>,
    expires: Option<nat>,
    attempts: nat,
    nextAttempt: Option<nat>)

  /** The cursor row, absent until the first claim, and the greatest ids in the source tables. */
  datatype State = State(row: Option<Cursor>, max: Mark)

  datatype Op =
    | InsertEvidence(id: nat)
    | InsertTheses(id: nat)
    | Claim(owner: Owner, duration: nat, now: nat)
    | Complete(owner: Owner, target: Mark)
    | Release(owner: Owner, target: Mark, retryAt: nat)

  const ORIGIN := Mark(0, 0)
  const NEW_CURSOR := Cursor(ORIGIN, None, None, None, 0, None)
  const START := State(None, ORIGIN)

  /** INSERT ... ON CONFLICT DO NOTHING. */
  function RowOf(s: State): Cursor {
    if s.row.Some? then s.row.value else NEW_CURSOR
  }

  predicate BackedOff(c: Cursor, now: nat) {
    c.nextAttempt.Some? && c.nextAttempt.value > now
  }

  predicate Leased(c: Cursor, now: nat) {
    c.owner.Some? && c.expires.Some? && c.expires.value > now
  }

  /** A claim succeeds when back-off and lease have passed and there is something after the watermark. */
  predicate Claimable(s: State, now: nat) {
    !BackedOff(RowOf(s), now) && !Leased(RowOf(s), now) && !s.max.UpTo(RowOf(s).last)
  }

  function ClaimedRow(s: State, owner: Owner, duration: nat, now: nat): Cursor {
    var c := RowOf(s);
    Cursor(c.last, Some(s.max), Some(owner), Some(now + duration), if c.target == Some(s.max) then c.attempts + 1 else 1, None)
  }

  predicate HeldFor(s: State, owner: Owner, target: Mark) {
    s.row.Some? && s.row.value.owner == Some(owner) && s.row.value.target == Some(target)
  }

  function Apply(s: State, op: Op): State {
    match op
    case InsertEvidence(id) => if id > s.max.receipt then s.(max := s.max.(receipt := id)) else s
    case InsertTheses(id) => if id > s.max.theses then s.(max := s.max.(theses := id)) else s
    case Claim(owner, duration, now) =>
      s.(row := Some(if Claimable(s, now) then ClaimedRow(s, owner, duration, now) else RowOf(s)))
    case Complete(owner, target) =>
      if HeldFor(s, owner, target) then s.(row := Some(NEW_CURSOR.(last := target))) else s
    case Release(owner, target, retryAt) =>
      if HeldFor(s, owner, target) then s.(row := Some(s.row.value.(owner := None, expires := None, nextAttempt := Some(retryAt)))) else s
  }

  function Run(ops: seq<Op>): State {
    if ops == [] then START else Apply(Run(ops[..|ops| - 1]), ops[|ops| - 1])
  }

  lemma RunStep(ops: seq<Op>, op: Op)
    ensures Run(ops + [op]) == Apply(Run(ops), op)
  {
    assert (ops + [op])[..|ops|] == ops;
  }

  // ---------- The row's declared constraint and the order of the marks ----------

  /** Idle, leased, or released for retry. */
  predicate LeaseCoherent(c: Cursor) {
    || (c.owner.None? && c.target.None? && c.expires.None? && c.nextAttempt.None?)
    || (c.owner.Some? && c.expires.Some? && c.target.Some?)
    || (c.owner.None? && c.expires.None? && c.target.Some? && c.nextAttempt.Some?)
  }

  predicate Ordered(s: State) {
    var c := RowOf(s);
    if c.target.Some? then c.last.UpTo(c.target.value) && c.target.value.UpTo(s.max) else c.last.UpTo(s.max)
  }

  predicate Inv(s: State) {
    LeaseCoherent(RowOf(s)) && Ordered(s) && (RowOf(s).owner.Some? ==> RowOf(s).nextAttempt.None?)
  }

  /** Every call keeps the constraint and the order last <= target <= max, and never moves the watermarks back. */
  lemma StepKeeps(s: State, op: Op)
    requires Inv(s)
    ensures Inv(Apply(s, op))
    ensures RowOf(s).last.UpTo(RowOf(Apply(s, op)).last) && s.max.UpTo(Apply(s, op).max)
  {
  }

  lemma {:induction false} RunKeeps(ops: seq<Op>)
    ensures Inv(Run(ops))
  {
    if ops != [] {
      RunKeeps(ops[..|ops| - 1]);
      StepKeeps(Run(ops[..|ops| - 1]), ops[|ops| - 1]);
    }
  }

  /** Watermarks and source maxima only advance. */
  lemma {:induction false} WatermarksAdvance(ops: seq<Op>, more: seq<Op>)
    ensures RowOf(Run(ops)).last.UpTo(RowOf(Run(ops + more)).last) && Run(ops).max.UpTo(Run(ops + more).max)
  {
    if more == [] {
      assert ops + more == ops;
    } else {
      hide Apply, Inv;
      var front := more[..|more| - 1];
      assert ops + more == (ops + front) + [more[|more| - 1]];
      WatermarksAdvance(ops, front);
      RunKeeps(ops + front);
      RunStep(ops + front, more[|more| - 1]);
      StepKeeps(Run(ops + front), more[|more| - 1]);
    }
  }

  // ---------- What gets marked as processed ----------

  predicate Claims(s: State, op: Op) {
    op.Claim? && Claimable(s, op.now)
  }

  /** Who holds the cursor and for which snapshot, by history alone: a claim takes the maxima of that moment. */
  function Holder(ops: seq<Op>): Option<(Owner, Mark)> {
    if ops == [] then None
    else
      var front, op := ops[..|ops| - 1], ops[|ops| - 1];
      if Claims(Run(front), op) then Some((op.owner, Run(front).max))
      else if (op.Complete? || op.Release?) && Holder(front) == Some((op.owner, op.target)) then None
      else Holder(front)
  }

  function HolderOf(s: State): Option<(Owner, Mark)> {
    if s.row.Some? && s.row.value.owner.Some? && s.row.value.target.Some? then Some((s.row.value.owner.value, s.row.value.target.value)) else None
  }

  lemma HolderStep(s: State, op: Op)
    requires Inv(s)
    ensures HolderOf(Apply(s, op)) ==
            if Claims(s, op) then Some((op.owner, s.max))
            else if (op.Complete? || op.Release?) && HolderOf(s) == Some((op.owner, op.target)) then None
            else HolderOf(s)
  {
  }

  /** Finishing calls succeed exactly for the last claimant and its snapshot, until it has finished. */
  lemma {:induction false} HolderIsHistory(ops: seq<Op>)
    ensures Holder(ops) == HolderOf(Run(ops))
    ensures forall owner, target :: HeldFor(Run(ops), owner, target) <==> Holder(ops) == Some((owner, target))
  {
    if ops != [] {
      hide Apply, Inv, Claims;
      var front, op := ops[..|ops| - 1], ops[|ops| - 1];
      HolderIsHistory(front);
      RunKeeps(front);
      HolderStep(Run(front), op);
    }
  }

  /** The claim at i took the snapshot that its owner completed at j. */
  ghost predicate CompletesSnapshot(ops: seq<Op>, i: nat, j: nat) {
    && i < j < |ops| && Claims(Run(ops[..i]), ops[i])
    && ops[j] == Complete(ops[i].owner, Run(ops[..i]).max) && Holder(ops[..j]) == Some((ops[i].owner, Run(ops[..i]).max))
  }

  /** The current lease comes from a claim, whose snapshot is the current target. */
  lemma {:induction false} HolderClaimed(ops: seq<Op>) returns (i: nat)
    requires Holder(ops).Some?
    ensures i < |ops| && Claims(Run(ops[..i]), ops[i]) && Holder(ops) == Some((ops[i].owner, Run(ops[..i]).max))
  {
    var front, op := ops[..|ops| - 1], ops[|ops| - 1];
    if Claims(Run(front), op) {
      i := |ops| - 1;
    } else {
      hide Claims;
      i := HolderClaimed(front);
      assert front[..i] == ops[..i];
    }
  }

  lemma LastStep(s: State, op: Op)
    requires Inv(s)
    ensures RowOf(Apply(s, op)).last ==
            if op.Complete? && HolderOf(s) == Some((op.owner, op.target)) then op.target else RowOf(s).last
  {
  }

  /** The watermark is always the origin or the exact snapshot of a claim that its owner completed later. */
  lemma {:induction false} WatermarkIsSnapshot(ops: seq<Op>)
    ensures RowOf(Run(ops)).last == ORIGIN || exists i: nat, j: nat :: CompletesSnapshot(ops, i, j) && RowOf(Run(ops)).last == Run(ops[..i]).max
  {
    if ops != [] {
      hide Apply, Inv, Claims;
      var front, op := ops[..|ops| - 1], ops[|ops| - 1];
      WatermarkIsSnapshot(front);
      RunKeeps(front);
      LastStep(Run(front), op);
      HolderIsHistory(front);
      if op.Complete? && Holder(front) == Some((op.owner, op.target)) {
        var i := HolderClaimed(front);
        assert front[..i] == ops[..i] && ops[..|ops| - 1] == front;
        assert CompletesSnapshot(ops, i, |ops| - 1);
      } else if i: nat, j: nat :| CompletesSnapshot(front, i, j) && RowOf(Run(front)).last == Run(front[..i]).max {
        assert front[..i] == ops[..i] && front[..j] == ops[..j];
        assert CompletesSnapshot(ops, i, j);
      }
    }
  }

  predicate Inserts(op: Op) {
    op.InsertEvidence? || op.InsertTheses?
  }

  /** The call inserted a row that the watermark covers. */
  predicate Covers(last: Mark, op: Op) {
    (op.InsertEvidence? && op.id <= last.receipt) || (op.InsertTheses? && op.id <= last.theses)
  }

  lemma MaxAdvances(ops: seq<Op>, i: nat, k: nat)
    requires i <= k <= |ops|
    ensures Run(ops[..i]).max.UpTo(Run(ops[..k]).max)
    ensures RowOf(Run(ops[..i])).last.UpTo(RowOf(Run(ops[..k])).last)
  {
    hide Run;
    WatermarksAdvance(ops[..i], ops[i..k]);
    assert ops[..i] + ops[i..k] == ops[..k];
  }

  /** A completed claim covers what was inserted before it. */
  lemma CompletedCovers(ops: seq<Op>, k: nat, i: nat, j: nat)
    requires k < i && CompletesSnapshot(ops, i, j) && Inserts(ops[k])
    ensures Covers(RowOf(Run(ops)).last, ops[k])
  {
    hide Run, Claims, Inv;
    RunStep(ops[..k], ops[k]);
    assert ops[..k] + [ops[k]] == ops[..k + 1];
    MaxAdvances(ops, k + 1, i);
    RunStep(ops[..j], ops[j]);
    assert ops[..j] + [ops[j]] == ops[..j + 1];
    RunKeeps(ops[..j]);
    HolderIsHistory(ops[..j]);
    LastStep(Run(ops[..j]), ops[j]);
    MaxAdvances(ops, j + 1, |ops|);
    assert ops[..|ops|] == ops;
  }

  /** Some claim made after the call at k has been completed. */
  ghost predicate ClaimedSince(ops: seq<Op>, k: nat) {
    exists i: nat, j: nat :: CompletesSnapshot(ops, i, j) && k < i
  }

  /** Every row that the watermark covers was there when some completed claim was made. */
  ghost predicate Fair(ops: seq<Op>) {
    forall k: nat :: k < |ops| && Inserts(ops[k]) && Covers(RowOf(Run(ops)).last, ops[k]) ==> ClaimedSince(ops, k)
  }

  /** Fair at every moment of the run, and still fair if anyone completes next. */
  ghost predicate StaysFair(ops: seq<Op>) {
    forall n: nat, owner, target :: n <= |ops| ==> Fair(ops[..n] + [Op.Complete(owner, target)])
  }

  /** The row lies above the watermark, and above the snapshot of whoever holds the cursor, expired or not. */
  predicate LandsAhead(s: State, op: Op) {
    !Covers(RowOf(s).last, op) && (HolderOf(s).Some? ==> !Covers(HolderOf(s).value.1, op))
  }

  ghost predicate AllLandAhead(ops: seq<Op>) {
    forall k: nat :: k < |ops| && Inserts(ops[k]) ==> LandsAhead(Run(ops[..k]), ops[k])
  }

  /** The claim at i is the one that the cursor is held by. */
  ghost predicate HeldSince(ops: seq<Op>, i: nat) {
    i < |ops| && Claims(Run(ops[..i]), ops[i]) && Holder(ops) == Some((ops[i].owner, Run(ops[..i]).max))
  }

  /** Whatever the held snapshot covers was inserted before the holder's claim. */
  ghost predicate HoldsFairly(ops: seq<Op>) {
    forall k: nat :: k < |ops| && Inserts(ops[k]) && Holder(ops).Some? && Covers(Holder(ops).value.1, ops[k]) ==>
      exists i: nat :: HeldSince(ops, i) && k < i
  }

  lemma ClaimedSinceLonger(ops: seq<Op>, op: Op, k: nat)
    requires ClaimedSince(ops, k)
    ensures ClaimedSince(ops + [op], k)
  {
    hide Run, Claims, Holder;
    var i: nat, j: nat :| CompletesSnapshot(ops, i, j) && k < i;
    assert (ops + [op])[..i] == ops[..i] && (ops + [op])[..j] == ops[..j];
    assert CompletesSnapshot(ops + [op], i, j);
  }

  /** A completion by the holder covers exactly what its snapshot covers; every other call leaves the watermark. */
  lemma FairNext(ops: seq<Op>, op: Op)
    requires Fair(ops) && HoldsFairly(ops)
    requires Inserts(op) ==> LandsAhead(Run(ops), op)
    ensures Fair(ops + [op])
  {
    var next := ops + [op];
    RunKeeps(ops);
    RunStep(ops, op);
    LastStep(Run(ops), op);
    HolderIsHistory(ops);
    hide Run, Inv, Claims, Holder, HolderOf, Apply;
    forall k: nat | k < |next| && Inserts(next[k]) && Covers(RowOf(Run(next)).last, next[k])
      ensures ClaimedSince(next, k)
    {
      if op.Complete? && Holder(ops) == Some((op.owner, op.target)) {
        assert Covers(Holder(ops).value.1, ops[k]);
        var i: nat :| HeldSince(ops, i) && k < i;
        assert next[..i] == ops[..i] && next[..|ops|] == ops;
        assert CompletesSnapshot(next, i, |ops|);
      } else if k < |ops| {
        ClaimedSinceLonger(ops, op, k);
      }
    }
  }

  /** A claim takes over everything inserted before it; every other call keeps or ends the lease. */
  lemma HoldsFairlyNext(ops: seq<Op>, op: Op)
    requires HoldsFairly(ops)
    requires Inserts(op) ==> LandsAhead(Run(ops), op)
    ensures HoldsFairly(ops + [op])
  {
    var next := ops + [op];
    assert next[..|ops|] == ops;
    HolderIsHistory(ops);
    HolderNext(ops, op);
    hide Run, Inv, Claims, Holder, HolderOf, Apply;
    forall k: nat | k < |next| && Inserts(next[k]) && Holder(next).Some? && Covers(Holder(next).value.1, next[k])
      ensures exists i: nat :: HeldSince(next, i) && k < i
    {
      if Claims(Run(ops), op) {
        assert HeldSince(next, |ops|);
      } else {
        assert Holder(next) == Holder(ops) && k < |ops|;
        var i: nat :| HeldSince(ops, i) && k < i;
        assert next[..i] == ops[..i];
        assert HeldSince(next, i);
      }
    }
  }

  lemma HolderNext(ops: seq<Op>, op: Op)
    ensures Holder(ops + [op]) ==
            if Claims(Run(ops), op) then Some((op.owner, Run(ops).max))
            else if (op.Complete? || op.Release?) && Holder(ops) == Some((op.owner, op.target)) then None
            else Holder(ops)
  {
    hide Run, Claims;
    assert (ops + [op])[..|ops|] == ops;
  }

  lemma {:induction false} AheadIsFair(ops: seq<Op>)
    requires AllLandAhead(ops)
    ensures Fair(ops) && HoldsFairly(ops)
  {
    if ops != [] {
      hide Run, LandsAhead, Holder, Fair, HoldsFairly;
      var front, op := ops[..|ops| - 1], ops[|ops| - 1];
      assert forall k: nat :: k < |front| ==> front[..k] == ops[..k];
      AheadIsFair(front);
      FairNext(front, op);
      HoldsFairlyNext(front, op);
      assert front + [op] == ops;
    } else {
      hide Run;
    }
  }

  lemma AheadThenComplete(ops: seq<Op>, n: nat, owner: Owner, target: Mark)
    requires AllLandAhead(ops) && n <= |ops|
    ensures AllLandAhead(ops[..n] + [Op.Complete(owner, target)])
  {
    hide Run, LandsAhead;
    var next := ops[..n] + [Op.Complete(owner, target)];
    assert forall k: nat :: k <= n ==> next[..k] == ops[..k];
  }

  /** No claim follows a row that was inserted last but one, before a completion. */
  lemma NoClaimSince(ops: seq<Op>, op: Op, owner: Owner, target: Mark)
    requires Inserts(op)
    ensures !ClaimedSince(ops + [op] + [Op.Complete(owner, target)], |ops|)
  {
    hide Run, Holder, Claimable;
  }

  /** A row that lands behind is covered without a claim, at the latest when the holder completes. */
  lemma BehindIsUnfair(ops: seq<Op>, op: Op)
    requires Inserts(op) && !LandsAhead(Run(ops), op)
    ensures exists owner, target :: !Fair(ops + [op] + [Op.Complete(owner, target)])
  {
    var s := Run(ops);
    var owner, target := if HolderOf(s).Some? then HolderOf(s).value.0 else "", if HolderOf(s).Some? then HolderOf(s).value.1 else ORIGIN;
    var next := ops + [op] + [Op.Complete(owner, target)];
    RunKeeps(ops);
    RunStep(ops, op);
    RunKeeps(ops + [op]);
    HolderStep(s, op);
    LastStep(s, op);
    RunStep(ops + [op], Op.Complete(owner, target));
    LastStep(Run(ops + [op]), Op.Complete(owner, target));
    StepKeeps(Run(ops + [op]), Op.Complete(owner, target));
    NoClaimSince(ops, op, owner, target);
    hide Run, Apply, Inv, HolderOf, ClaimedSince;
    assert next[|ops|] == op && Covers(RowOf(Run(next)).last, op);
    assert !Fair(next);
  }

  /**
    Nothing inserted after a claim is marked as processed by it, now or whoever completes next, if and only if every row
    lands above the watermark and above the snapshot that is held when it is inserted.
   */
  lemma FairExactly(ops: seq<Op>)
    ensures StaysFair(ops) <==> AllLandAhead(ops)
  {
    hide Fair, Run, LandsAhead;
    if AllLandAhead(ops) {
      forall n: nat, owner, target | n <= |ops|
        ensures Fair(ops[..n] + [Op.Complete(owner, target)])
      {
        AheadThenComplete(ops, n, owner, target);
        AheadIsFair(ops[..n] + [Op.Complete(owner, target)]);
      }
    } else {
      var k: nat :| k < |ops| && Inserts(ops[k]) && !LandsAhead(Run(ops[..k]), ops[k]);
      BehindIsUnfair(ops[..k], ops[k]);
      assert ops[..k] + [ops[k]] == ops[..k + 1];
    }
  }

  /** If every row lands ahead, the watermark covers exactly the rows that precede some completed claim. */
  lemma CoveredExactly(ops: seq<Op>, k: nat)
    requires AllLandAhead(ops) && k < |ops| && Inserts(ops[k])
    ensures Covers(RowOf(Run(ops)).last, ops[k]) <==> ClaimedSince(ops, k)
  {
    hide Run, Inv, LandsAhead;
    AheadIsFair(ops);
    if i: nat, j: nat :| CompletesSnapshot(ops, i, j) && k < i {
      CompletedCovers(ops, k, i, j);
    }
  }

  /** Rows appear in the order of their ids: every insert is above all that its table holds. */
  ghost predicate InsertsInOrder(ops: seq<Op>) {
    && (forall i :: 0 <= i < |ops| && ops[i].InsertEvidence? ==> ops[i].id > Run(ops[..i]).max.receipt)
    && (forall i :: 0 <= i < |ops| && ops[i].InsertTheses? ==> ops[i].id > Run(ops[..i]).max.theses)
  }

  /** Ids in insertion order always land ahead. */
  lemma InOrderLandsAhead(ops: seq<Op>)
    requires InsertsInOrder(ops)
    ensures AllLandAhead(ops)
  {
    hide Run;
    forall k: nat | k < |ops| && Inserts(ops[k])
      ensures LandsAhead(Run(ops[..k]), ops[k])
    {
      RunKeeps(ops[..k]);
    }
  }

  const FIRST := InsertEvidence(5)
  const TAKEN := Op.Claim("w", 10, 0)
  const LATE := InsertEvidence(3)
  const DONE := Op.Complete("w", Mark(5, 0))

  lemma LateRun()
    ensures RowOf(Run([FIRST, TAKEN, LATE, DONE])).last == Mark(5, 0)
  {
    RunStep([], FIRST);
    assert [] + [FIRST] == [FIRST] && Run([]) == START;
    RunStep([FIRST], TAKEN);
    assert [FIRST] + [TAKEN] == [FIRST, TAKEN];
    RunStep([FIRST, TAKEN], LATE);
    assert [FIRST, TAKEN] + [LATE] == [FIRST, TAKEN, LATE];
    RunStep([FIRST, TAKEN, LATE], DONE);
    assert [FIRST, TAKEN, LATE] + [DONE] == [FIRST, TAKEN, LATE, DONE];
    hide Run;
    assert Run([FIRST]) == State(None, Mark(5, 0));
    assert Run([FIRST, TAKEN]).row == Some(Cursor(ORIGIN, Some(Mark(5, 0)), Some("w"), Some(10), 1, None));
  }

  /** It can fail: a row that appears late, with an id below the held snapshot, is covered by the claim made before it. */
  lemma LateRowIsCovered()
    ensures Covers(RowOf(Run([FIRST, TAKEN, LATE, DONE])).last, LATE)
    ensures !ClaimedSince([FIRST, TAKEN, LATE, DONE], 2)
  {
    hide Run, Claimable, Holder;
    LateRun();
  }

  /** What it takes to land ahead: a higher id than the watermark's, and than the held snapshot's, in the row's own table. */
  lemma LandingSays(s: State, id: nat)
    ensures Inserts(InsertEvidence(id)) && Inserts(InsertTheses(id))
    ensures LandsAhead(s, InsertEvidence(id)) <==>
              id > RowOf(s).last.receipt && (HolderOf(s).Some? ==> id > HolderOf(s).value.1.receipt)
    ensures LandsAhead(s, InsertTheses(id)) <==>
              id > RowOf(s).last.theses && (HolderOf(s).Some? ==> id > HolderOf(s).value.1.theses)
  {
  }

  // ---------- Attempts ----------

  /** How often a snapshot was claimed. */
  function SnapshotClaims(ops: seq<Op>, m: Mark): nat {
    if ops == [] then 0
    else
      var s := Run(ops[..|ops| - 1]);
      SnapshotClaims(ops[..|ops| - 1], m) + if Claims(s, ops[|ops| - 1]) && s.max == m then 1 else 0
  }

  /** The most recently claimed or completed snapshot. */
  function High(s: State): Mark {
    if RowOf(s).target.Some? then RowOf(s).target.value else RowOf(s).last
  }

  lemma HighStep(s: State, op: Op)
    requires Inv(s)
    ensures High(s).UpTo(High(Apply(s, op)))
    ensures Claims(s, op) ==> High(Apply(s, op)) == s.max && (RowOf(s).target.None? ==> s.max != High(s))
  {
  }

  lemma {:induction false} ClaimsBelowHigh(ops: seq<Op>, m: Mark)
    ensures SnapshotClaims(ops, m) > 0 ==> m.UpTo(High(Run(ops)))
  {
    if ops != [] {
      hide Apply, Inv, Claims, High;
      var front, op := ops[..|ops| - 1], ops[|ops| - 1];
      ClaimsBelowHigh(front, m);
      RunKeeps(front);
      HighStep(Run(front), op);
    }
  }

  lemma AttemptStep(s: State, op: Op)
    requires Inv(s)
    ensures var c, c' := RowOf(s), RowOf(Apply(s, op));
            if Claims(s, op) then c'.target == Some(s.max) && c'.attempts == if c.target == Some(s.max) then c.attempts + 1 else 1
            else (c'.target == c.target && c'.attempts == c.attempts) || (c'.target.None? && c'.attempts == 0)
    ensures Claims(s, op) && RowOf(s).target != Some(s.max) ==> High(s) != s.max
  {
  }

  /** The attempt counter is the number of times the current snapshot has been claimed. */
  lemma {:induction false} AttemptsAreClaims(ops: seq<Op>)
    ensures RowOf(Run(ops)).attempts == if RowOf(Run(ops)).target.Some? then SnapshotClaims(ops, RowOf(Run(ops)).target.value) else 0
  {
    if ops != [] {
      hide Apply, Inv, Claims, High;
      var front, op := ops[..|ops| - 1], ops[|ops| - 1];
      AttemptsAreClaims(front);
      RunKeeps(front);
      AttemptStep(Run(front), op);
      ClaimsBelowHigh(front, Run(front).max);
      FreshSnapshot(Run(front));
    }
  }

  lemma FreshSnapshot(s: State)
    requires Inv(s)
    ensures s.max.UpTo(High(s)) ==> s.max == High(s)
  {
  }

  /** Claims of a snapshot whose earlier lease had expired unfinished. */
  function Takeovers(ops: seq<Op>, m: Mark): nat {
    if ops == [] then 0
    else
      var s := Run(ops[..|ops| - 1]);
      Takeovers(ops[..|ops| - 1], m) + if Claims(s, ops[|ops| - 1]) && s.max == m && RowOf(s).owner.Some? && RowOf(s).target == Some(m) then 1 else 0
  }

  /** Workers release only below the attempt limit; at the limit they complete. */
  predicate Disciplined(ops: seq<Op>, maxAttempts: nat) {
    maxAttempts > 0 && forall i :: 0 <= i < |ops| && ops[i].Release? && HeldFor(Run(ops[..i]), ops[i].owner, ops[i].target) ==> RowOf(Run(ops[..i])).attempts < maxAttempts
  }

  predicate ReleasedHasBudget(s: State, maxAttempts: nat) {
    RowOf(s).target.Some? && RowOf(s).owner.None? ==> RowOf(s).attempts < maxAttempts
  }

  lemma BudgetStep(s: State, op: Op, maxAttempts: nat)
    requires Inv(s) && ReleasedHasBudget(s, maxAttempts)
    requires op.Release? && HeldFor(s, op.owner, op.target) ==> RowOf(s).attempts < maxAttempts
    ensures ReleasedHasBudget(Apply(s, op), maxAttempts)
  {
  }

  lemma {:induction false} ReleasedBudget(ops: seq<Op>, maxAttempts: nat)
    requires Disciplined(ops, maxAttempts)
    ensures ReleasedHasBudget(Run(ops), maxAttempts)
  {
    if ops != [] {
      hide Apply, Inv, HeldFor;
      var front := ops[..|ops| - 1];
      assert forall i :: 0 <= i < |front| ==> front[..i] == ops[..i];
      ReleasedBudget(front, maxAttempts);
      RunKeeps(front);
      BudgetStep(Run(front), ops[|ops| - 1], maxAttempts);
    }
  }

  /** No snapshot is claimed more often than the limit plus the number of expired leases taken over. */
  lemma {:induction false} ClaimsBounded(ops: seq<Op>, maxAttempts: nat, m: Mark)
    requires Disciplined(ops, maxAttempts)
    ensures SnapshotClaims(ops, m) <= maxAttempts + Takeovers(ops, m)
  {
    if ops != [] {
      hide Apply, Inv, HeldFor, Claims;
      var front, op := ops[..|ops| - 1], ops[|ops| - 1];
      assert forall i :: 0 <= i < |front| ==> front[..i] == ops[..i];
      ClaimsBounded(front, maxAttempts, m);
      ReleasedBudget(front, maxAttempts);
      RunKeeps(front);
      AttemptsAreClaims(front);
      AttemptsAreClaims(ops);
      AttemptStep(Run(front), op);
    }
  }

  // ---------- Time ----------

  /** The cursor is held, under a lease that does not end before the given time. */
  predicate LeasedUntil(s: State, time: int) {
    s.row.Some? && s.row.value.owner.Some? && s.row.value.expires.Some? && s.row.value.expires.value >= time
  }

  lemma LeaseStep(s: State, op: Op, time: int)
    requires Inv(s) && LeasedUntil(s, time)
    ensures Claims(s, op) ==> op.now >= time
    ensures HolderOf(Apply(s, op)).Some? ==> LeasedUntil(Apply(s, op), time)
  {
  }

  /** The claim at i succeeded, and someone has held the cursor ever since. */
  ghost predicate InHandsSince(ops: seq<Op>, i: nat, j: nat) {
    i < j <= |ops| && Claims(Run(ops[..i]), ops[i]) && forall k :: i < k <= j ==> Holder(ops[..k]).Some?
  }

  lemma {:induction false} LeaseEndures(ops: seq<Op>, i: nat, j: nat)
    requires InHandsSince(ops, i, j)
    ensures LeasedUntil(Run(ops[..j]), ops[i].now + ops[i].duration)
    decreases j
  {
    assert ops[i].Claim?;
    hide Run, Claims, Inv, Holder, HolderOf, LeasedUntil;
    RunKeeps(ops[..j - 1]);
    RunStep(ops[..j - 1], ops[j - 1]);
    assert ops[..j - 1] + [ops[j - 1]] == ops[..j];
    HolderIsHistory(ops[..j]);
    if i == j - 1 {
      ClaimLeases(Run(ops[..i]), ops[i]);
    } else {
      LeaseEndures(ops, i, j - 1);
      LeaseStep(Run(ops[..j - 1]), ops[j - 1], ops[i].now + ops[i].duration);
    }
  }

  lemma ClaimLeases(s: State, op: Op)
    requires Claims(s, op)
    ensures LeasedUntil(Apply(s, op), op.now + op.duration)
  {
  }

  /** A cursor that nobody has let go is not claimed again before the lease of its claim has passed. */
  lemma LeaseLasts(ops: seq<Op>, i: nat, j: nat)
    requires InHandsSince(ops, i, j) && j < |ops| && Claims(Run(ops[..j]), ops[j])
    ensures ops[j].now >= ops[i].now + ops[i].duration
  {
    assert ops[i].Claim?;
    hide Run, Claims, Inv, LeasedUntil;
    LeaseEndures(ops, i, j);
    RunKeeps(ops[..j]);
    LeaseStep(Run(ops[..j]), ops[j], ops[i].now + ops[i].duration);
  }

  /** A target holds something that the watermark does not cover. */
  predicate TargetIsNews(s: State) {
    RowOf(s).target.Some? ==> !RowOf(s).target.value.UpTo(RowOf(s).last)
  }

  lemma {:induction false} RunTargetsNews(ops: seq<Op>)
    ensures TargetIsNews(Run(ops))
  {
    if ops != [] {
      RunTargetsNews(ops[..|ops| - 1]);
    }
  }

  /** Once claimed, the cursor can be claimed again exactly when the lease has passed. */
  lemma TakeoverExactly(ops: seq<Op>, op: Op, now: nat)
    requires Claims(Run(ops), op)
    ensures Claimable(Run(ops + [op]), now) <==> now >= op.now + op.duration
  {
    RunStep(ops, op);
    hide Run;
  }

  /** Once released for retry, it can be claimed again exactly from the retry time on. */
  lemma RetryExactly(ops: seq<Op>, op: Op, now: nat)
    requires op.Release? && Holder(ops) == Some((op.owner, op.target))
    ensures Claimable(Run(ops + [op]), now) <==> now >= op.retryAt
  {
    HolderIsHistory(ops);
    RunKeeps(ops);
    RunTargetsNews(ops);
    RunStep(ops, op);
    hide Run, Holder;
  }

  /** Once completed, it can be claimed again exactly when something lies after the completed snapshot. */
  lemma NewsIsClaimable(ops: seq<Op>, op: Op, now: nat)
    requires op.Complete? && Holder(ops) == Some((op.owner, op.target))
    ensures Claimable(Run(ops + [op]), now) <==> Run(ops).max.receipt > op.target.receipt || Run(ops).max.theses > op.target.theses
  {
    HolderIsHistory(ops);
    RunStep(ops, op);
    hide Run, Holder;
  }

  // ---------- Attempts without takeovers ----------

  /** No claim finds the cursor in someone's hands. */
  predicate NeverTakenOver(ops: seq<Op>) {
    forall i :: 0 <= i < |ops| && Claims(Run(ops[..i]), ops[i]) ==> Holder(ops[..i]).None?
  }

  lemma {:induction false} NoTakeovers(ops: seq<Op>, m: Mark)
    requires NeverTakenOver(ops)
    ensures Takeovers(ops, m) == 0
  {
    if ops != [] {
      hide Run, Claims, Holder;
      var front := ops[..|ops| - 1];
      assert forall i :: 0 <= i < |front| ==> front[..i] == ops[..i];
      NoTakeovers(front, m);
      HolderIsHistory(front);
    }
  }

  /** Where every owner finishes in time, no snapshot is claimed more often than the attempt limit. */
  lemma ClaimedWithinLimit(ops: seq<Op>, maxAttempts: nat, m: Mark)
    requires Disciplined(ops, maxAttempts) && NeverTakenOver(ops)
    ensures SnapshotClaims(ops, m) <= maxAttempts
  {
    ClaimsBounded(ops, maxAttempts, m);
    NoTakeovers(ops, m);
  }
}
