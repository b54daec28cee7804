/**
  The step counter both wizards share: steps are numbered from 1 to `total`,
  Next moves one step forward unless already on the last step, Previous one
  step back unless already on the first.
 */
module Navigation {

  predicate InRange(step: int, total: int) {
    1 <= step <= total
  }

  function Min(a: int, b: int): int { if a <= b then a else b }
  function Max(a: int, b: int): int { if a >= b then a else b }

  /** `handleNext`: one step forward, except on the last step where it does nothing. */
  function Next(step: int, total: int): (r: int)
    ensures InRange(step, total) ==> InRange(r, total) && r == Min(step + 1, total)
    ensures InRange(step, total) ==> (r == step <==> step == total)
  {
    if step < total then step + 1 else step
  }

  /** `handlePrevious`: one step back, except on the first step where it does nothing. */
  function Previous(step: int): (r: int)
    ensures step >= 1 ==> r == Max(step - 1, 1)
    ensures r <= step
    ensures r == step <==> step <= 1
  {
    if step > 1 then step - 1 else step
  }

  /** Previous undoes Next wherever Next moved. */
  lemma PreviousUndoesNext(step: int, total: int)
    requires InRange(step, total) && step < total
    ensures Previous(Next(step, total)) == step
  {
  }

  /** Next undoes Previous wherever Previous moved. */
  lemma NextUndoesPrevious(step: int, total: int)
    requires InRange(step, total) && step > 1
    ensures Next(Previous(step), total) == step
  {
  }

  datatype Move = Forward | Back

  function Apply(step: int, total: int, m: Move): int {
    match m
    case Forward => Next(step, total)
    case Back => Previous(step)
  }

  function Run(step: int, total: int, moves: seq<Move>): int
    decreases |moves|
  {
    if moves == [] then step else Run(Apply(step, total, moves[0]), total, moves[1..])
  }

  /** However the user clicks, the step stays within the catalogue. */
  lemma {:induction false} RunStaysInRange(step: int, total: int, moves: seq<Move>)
    requires InRange(step, total)
    ensures InRange(Run(step, total, moves), total)
    decreases |moves|
  {
    if moves != [] {
      RunStaysInRange(Apply(step, total, moves[0]), total, moves[1..]);
    }
  }

  /** `k` presses of Next from an in-range step land on `min(step + k, total)`:
      every step is reachable and the last one is never passed. */
  lemma {:induction false} RunForward(step: int, total: int, k: nat)
    requires InRange(step, total)
    ensures Run(step, total, seq(k, _ => Forward)) == Min(step + k, total)
    decreases k
  {
    if k > 0 {
      var moves := seq(k, _ => Forward);
      assert moves[0] == Forward;
      assert moves[1..] == seq(k - 1, _ => Forward);
      RunForward(Next(step, total), total, k - 1);
    }
  }

  /** `k` presses of Previous land on `max(step - k, 1)`. */
  lemma {:induction false} RunBack(step: int, total: int, k: nat)
    requires InRange(step, total)
    ensures Run(step, total, seq(k, _ => Back)) == Max(step - k, 1)
    decreases k
  {
    if k > 0 {
      var moves := seq(k, _ => Back);
      assert moves[0] == Back;
      assert moves[1..] == seq(k - 1, _ => Back);
      RunBack(Previous(step), total, k - 1);
    }
  }
}
