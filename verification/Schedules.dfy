/** Runs of a step function over a schedule of actions. */
module Schedules {
  function RunWith<S, A>(step: (S, A) -> S, s: S, schedule: seq<A>): S {
    if schedule == [] then s
    else step(RunWith(step, s, schedule[..|schedule| - 1]), schedule[|schedule| - 1])
  }

  /** Running one schedule after another is running both in one. */
  lemma {:induction false} RunWithAppend<S, A>(step: (S, A) -> S, s: S, first: seq<A>, second: seq<A>)
    ensures RunWith(step, s, first + second) == RunWith(step, RunWith(step, s, first), second)
    decreases |second|
  {
    if second == [] {
      assert first + second == first;
    } else {
      var n := |second| - 1;
      RunWithAppend(step, s, first, second[..n]);
      assert (first + second)[..|first + second| - 1] == first + second[..n];
    }
  }
}
