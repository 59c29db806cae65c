/**
  The bounded concurrent map that reconciles scopes at start-up: several workers share one index, and their steps interleave
  in any order. The mapped function answers for item i with Answer(i), or throws.
 */
module ConcurrentMap {
  import opened Evidence

  datatype Worker = Ready | Busy(item: nat) | Finished | Failed(item: nat)

  datatype State<R> = State(index: nat, hasError: bool, workers: seq<Worker>, results: seq<Option<R>>)

  /** A worker checks the loop condition, or its awaited call returns or throws. */
  datatype Step = Check(worker: nat) | Return(worker: nat) | Throw(worker: nat)

  function Min(a: nat, b: nat): nat {
    if a < b then a else b
  }

  function Start<R>(n: nat, limit: nat): State<R> {
    State(0, false, seq(Min(limit, n), i => Ready), seq(n, i => None))
  }

  predicate Enabled<R>(s: State<R>, step: Step) {
    step.worker < |s.workers| &&
    match step
    case Check(w) => s.workers[w] == Ready
    case Return(w) => s.workers[w].Busy? && s.workers[w].item < |s.results|
    case Throw(w) => s.workers[w].Busy?
  }

  function Apply<R>(s: State<R>, step: Step, answer: nat -> R): State<R>
    requires Enabled(s, step)
  {
    match step
    case Check(w) =>
      if s.index < |s.results| && !s.hasError then s.(index := s.index + 1, workers := s.workers[w := Busy(s.index)])
      else s.(workers := s.workers[w := Finished])
    case Return(w) => s.(results := s.results[s.workers[w].item := Some(answer(s.workers[w].item))], workers := s.workers[w := Ready])
    case Throw(w) => s.(hasError := true, workers := s.workers[w := Failed(s.workers[w].item)])
  }

  /** Steps that are not enabled do not happen. */
  function Run<R>(n: nat, limit: nat, steps: seq<Step>, answer: nat -> R): State<R> {
    if steps == [] then Start(n, limit)
    else
      var s := Run(n, limit, steps[..|steps| - 1], answer);
      if Enabled(s, steps[|steps| - 1]) then Apply(s, steps[|steps| - 1], answer) else s
  }

  /** The item that a worker has started and not answered. */
  function Hand(w: Worker): Option<nat> {
    match w
    case Busy(i) => Some(i)
    case Failed(i) => Some(i)
    case _ => None
  }

  ghost predicate HandsOpen<R>(s: State<R>) {
    forall w :: 0 <= w < |s.workers| && Hand(s.workers[w]).Some? ==>
      Hand(s.workers[w]).value < s.index && Hand(s.workers[w]).value < |s.results| && s.results[Hand(s.workers[w]).value].None?
  }

  ghost predicate HandsDistinct<R>(s: State<R>) {
    forall v, w :: 0 <= v < w < |s.workers| && Hand(s.workers[v]).Some? ==> Hand(s.workers[w]) != Hand(s.workers[v])
  }

  ghost predicate AnswersRight<R>(s: State<R>, answer: nat -> R) {
    forall i :: 0 <= i < |s.results| && s.results[i].Some? ==> i < s.index && s.results[i] == Some(answer(i))
  }

  ghost predicate InSomeHand<R>(s: State<R>, i: nat) {
    exists w :: 0 <= w < |s.workers| && Hand(s.workers[w]) == Some(i)
  }

  ghost predicate NothingLost<R>(s: State<R>) {
    forall i: nat :: i < s.index && i < |s.results| && s.results[i].None? ==> InSomeHand(s, i)
  }

  ghost predicate ErrorShown<R>(s: State<R>) {
    s.hasError <==> exists w :: 0 <= w < |s.workers| && s.workers[w].Failed?
  }

  ghost predicate FinishedLate<R>(s: State<R>) {
    forall w :: 0 <= w < |s.workers| && s.workers[w].Finished? ==> s.index == |s.results| || s.hasError
  }

  /** Items below the index are answered or in exactly one worker's hands, the others untouched. */
  ghost predicate Inv<R>(s: State<R>, n: nat, limit: nat, answer: nat -> R) {
    && |s.results| == n && |s.workers| == Min(limit, n) && s.index <= n
    && HandsOpen(s) && HandsDistinct(s) && AnswersRight(s, answer) && NothingLost(s) && ErrorShown(s) && FinishedLate(s)
  }

  lemma StartInv<R>(n: nat, limit: nat, answer: nat -> R)
    ensures Inv(Start(n, limit), n, limit, answer)
  {
  }

  lemma HandsStay<R>(s: State<R>, step: Step, answer: nat -> R)
    requires Enabled(s, step) && HandsOpen(s) && HandsDistinct(s) && AnswersRight(s, answer)
    ensures HandsOpen(Apply(s, step, answer)) && HandsDistinct(Apply(s, step, answer))
  {
    if step.Check? && s.index < |s.results| {
      assert s.results[s.index].Some? ==> s.index < s.index;
    }
  }

  lemma AnswersStay<R>(s: State<R>, step: Step, answer: nat -> R)
    requires Enabled(s, step) && HandsOpen(s) && AnswersRight(s, answer)
    ensures AnswersRight(Apply(s, step, answer), answer)
  {
    if step.Return? {
      assert Hand(s.workers[step.worker]) == Some(s.workers[step.worker].item);
    }
  }

  lemma NothingGetsLost<R>(s: State<R>, step: Step, answer: nat -> R)
    requires Enabled(s, step) && NothingLost(s)
    ensures NothingLost(Apply(s, step, answer))
  {
    var s' := Apply(s, step, answer);
    forall i: nat | i < s'.index && i < |s'.results| && s'.results[i].None?
      ensures InSomeHand(s', i)
    {
      if i < s.index {
        assert InSomeHand(s, i);
        var w :| 0 <= w < |s.workers| && Hand(s.workers[w]) == Some(i);
        assert Hand(s'.workers[w]) == Some(i);
      } else {
        assert Hand(s'.workers[step.worker]) == Some(i);
      }
    }
  }

  lemma ErrorsStay<R>(s: State<R>, step: Step, answer: nat -> R)
    requires Enabled(s, step) && ErrorShown(s) && FinishedLate(s) && s.index <= |s.results|
    ensures ErrorShown(Apply(s, step, answer)) && FinishedLate(Apply(s, step, answer))
  {
    var s' := Apply(s, step, answer);
    if w :| 0 <= w < |s.workers| && s.workers[w].Failed? {
      assert s'.workers[w].Failed?;
    }
    if step.Throw? {
      assert s'.workers[step.worker].Failed?;
    } else if w :| 0 <= w < |s'.workers| && s'.workers[w].Failed? {
      assert w != step.worker && s.workers[w].Failed?;
    }
  }

  /** Whatever the interleaving, every item is in at most one worker's hands and no answer is lost or overwritten. */
  lemma {:induction false} RunInv<R>(n: nat, limit: nat, steps: seq<Step>, answer: nat -> R)
    ensures Inv(Run(n, limit, steps, answer), n, limit, answer)
  {
    if steps == [] {
      StartInv(n, limit, answer);
    } else {
      var s, step := Run(n, limit, steps[..|steps| - 1], answer), steps[|steps| - 1];
      RunInv(n, limit, steps[..|steps| - 1], answer);
      hide HandsOpen, HandsDistinct, AnswersRight, NothingLost, ErrorShown, FinishedLate;
      if Enabled(s, step) {
        HandsStay(s, step, answer);
        AnswersStay(s, step, answer);
        NothingGetsLost(s, step, answer);
        ErrorsStay(s, step, answer);
      }
    }
  }

  /** Promise.all resolves. */
  predicate Resolved<R>(s: State<R>) {
    forall w :: 0 <= w < |s.workers| ==> s.workers[w].Finished?
  }

  /** When the map resolves, every item has its own answer in its own place. */
  lemma ResolvedMeansAll<R>(n: nat, limit: nat, steps: seq<Step>, answer: nat -> R)
    requires limit > 0 && Resolved(Run(n, limit, steps, answer))
    ensures var results := Run(n, limit, steps, answer).results;
            |results| == n && forall i :: 0 <= i < n ==> results[i] == Some(answer(i))
  {
    hide Run;
    RunInv(n, limit, steps, answer);
    var s := Run(n, limit, steps, answer);
    forall i: nat
      ensures !InSomeHand(s, i)
    {
    }
    if n > 0 {
      assert s.workers[0].Finished?;
    }
  }

  /** After a failure no further item is started, and the map can no longer resolve. */
  lemma {:induction false} FailureStops<R>(n: nat, limit: nat, steps: seq<Step>, more: seq<Step>, answer: nat -> R)
    requires Run(n, limit, steps, answer).hasError
    ensures var s, t := Run(n, limit, steps, answer), Run(n, limit, steps + more, answer);
            t.hasError && t.index == s.index && !Resolved(t)
  {
    if more == [] {
      assert steps + more == steps;
    } else {
      var front := more[..|more| - 1];
      assert (steps + more)[..|steps + more| - 1] == steps + front;
      FailureStops(n, limit, steps, front, answer);
    }
    RunInv(n, limit, steps + more, answer);
  }

  /** A map that has neither resolved nor failed can always take a step. */
  lemma NeverStuck<R>(n: nat, limit: nat, steps: seq<Step>, answer: nat -> R) returns (step: Step)
    requires !Resolved(Run(n, limit, steps, answer)) && !Run(n, limit, steps, answer).hasError
    ensures Enabled(Run(n, limit, steps, answer), step)
  {
    hide Run;
    RunInv(n, limit, steps, answer);
    var s := Run(n, limit, steps, answer);
    var w :| 0 <= w < |s.workers| && !s.workers[w].Finished?;
    step := if s.workers[w] == Ready then Check(w) else Return(w);
  }

  /** The items in the workers' hands. */
  ghost function InHands(workers: seq<Worker>): set<nat> {
    if workers == [] then {}
    else
      var hand := Hand(workers[|workers| - 1]);
      InHands(workers[..|workers| - 1]) + if hand.Some? then {hand.value} else {}
  }

  lemma {:induction false} HandsFit(workers: seq<Worker>)
    ensures |InHands(workers)| <= |workers|
    ensures forall i :: i in InHands(workers) <==> exists w :: 0 <= w < |workers| && Hand(workers[w]) == Some(i)
  {
    if workers != [] {
      var front, last := workers[..|workers| - 1], workers[|workers| - 1];
      HandsFit(front);
      assert forall w :: 0 <= w < |front| ==> workers[w] == front[w];
      hide Hand;
    }
  }

  /** However the workers interleave, no more than limit calls are open at a time. */
  lemma OpenCallsBounded<R>(n: nat, limit: nat, steps: seq<Step>, answer: nat -> R)
    ensures var s := Run(n, limit, steps, answer);
            |InHands(s.workers)| <= limit && forall i: nat :: i in InHands(s.workers) <==> InSomeHand(s, i)
  {
    hide Run;
    RunInv(n, limit, steps, answer);
    HandsFit(Run(n, limit, steps, answer).workers);
  }
}
