/**
 Commit and rollback (`saveLocked`, `rollbackSaveLocked`): the state in memory and the last state
 whose `state.json` rename succeeded.  Encoding, decoding and normalizing is a round trip, so the
 committed encoding is kept as the state it decodes to.
 */
module Durable {

  datatype Store<S> = Store(live: S, committed: S)

  /** What an operation leaves in memory, and whether it then calls `saveLocked`. */
  datatype Write<S> = Write(next: S, saves: bool)

  function Settle<S>(store: Store<S>, write: Write<S>, saved: bool): Store<S> {
    if !write.saves then
      store.(live := write.next)
    else if saved then
      Store(write.next, write.next)
    else
      Store(store.committed, store.committed)
  }

  /* ------------------------------ Runs ------------------------------ */

  /** An operation, with the outcome its save would have. */
  datatype Step<O> = Step(op: O, saved: bool)

  /** `states[i + 1]` is `states[i]` after `steps[i]`. */
  ghost predicate StepAt<S, O>(perform: (S, O) --> Write<S>, states: seq<Store<S>>, steps: seq<Step<O>>, i: nat)
    requires i < |steps| && |states| == |steps| + 1
  {
    && perform.requires(states[i].live, steps[i].op)
    && states[i + 1] == Settle(states[i], perform(states[i].live, steps[i].op), steps[i].saved)
  }

  ghost predicate IsRun<S, O>(perform: (S, O) --> Write<S>, states: seq<Store<S>>, steps: seq<Step<O>>) {
    && |states| == |steps| + 1
    && forall i: nat :: i < |steps| ==> StepAt(perform, states, steps, i)
  }

  /** Step `i` meets a state in which it saves, and its save goes through. */
  ghost predicate CommitsAt<S, O>(perform: (S, O) --> Write<S>, states: seq<Store<S>>, steps: seq<Step<O>>, i: nat)
    requires IsRun(perform, states, steps) && i < |steps|
  {
    assert StepAt(perform, states, steps, i);
    perform(states[i].live, steps[i].op).saves && steps[i].saved
  }

  /** Step `i` meets a state in which it saves, and its save fails. */
  ghost predicate FailsAt<S, O>(perform: (S, O) --> Write<S>, states: seq<Store<S>>, steps: seq<Step<O>>, i: nat)
    requires IsRun(perform, states, steps) && i < |steps|
  {
    assert StepAt(perform, states, steps, i);
    perform(states[i].live, steps[i].op).saves && !steps[i].saved
  }

  /** Step `i` saves in the state it meets, or leaves that state alone. */
  ghost predicate DisciplinedAt<S, O>(perform: (S, O) --> Write<S>, states: seq<Store<S>>, steps: seq<Step<O>>, i: nat)
    requires IsRun(perform, states, steps) && i < |steps|
  {
    assert StepAt(perform, states, steps, i);
    var w := perform(states[i].live, steps[i].op);
    w.saves || w.next == states[i].live
  }

  lemma RunPrefix<S, O>(perform: (S, O) --> Write<S>, states: seq<Store<S>>, steps: seq<Step<O>>, n: nat)
    requires IsRun(perform, states, steps) && n <= |steps|
    ensures IsRun(perform, states[..n + 1], steps[..n])
  {
    var states0, steps0 := states[..n + 1], steps[..n];
    forall i: nat | i < n ensures StepAt(perform, states0, steps0, i) {
      assert StepAt(perform, states, steps, i);
    }
  }

  lemma RunSnoc<S, O>(perform: (S, O) --> Write<S>, states: seq<Store<S>>, steps: seq<Step<O>>, step: Step<O>)
    requires IsRun(perform, states, steps) && perform.requires(states[|steps|].live, step.op)
    ensures var next := Settle(states[|steps|], perform(states[|steps|].live, step.op), step.saved);
            IsRun(perform, states + [next], steps + [step])
  {
    var longer := states + [Settle(states[|steps|], perform(states[|steps|].live, step.op), step.saved)];
    forall i: nat | i < |steps| + 1 ensures StepAt(perform, longer, steps + [step], i) {
      if i < |steps| { assert StepAt(perform, states, steps, i); }
    }
  }

  /* ------------------------------ Theorems ------------------------------ */

  /** The committed state is what the last committing step wrote (or the initial one), however many
      steps failed or did not save since; after a failed save the state in memory is that one too. */
  lemma {:induction false} LastCommitStands<S, O>(perform: (S, O) --> Write<S>, states: seq<Store<S>>, steps: seq<Step<O>>, i: nat, j: nat)
    requires IsRun(perform, states, steps) && i <= j <= |steps|
    requires i > 0 ==> CommitsAt(perform, states, steps, i - 1)
    requires forall k: nat :: i <= k < j ==> !CommitsAt(perform, states, steps, k)
    ensures states[j].committed == states[i].committed
    ensures i > 0 ==> StepAt(perform, states, steps, i - 1) && states[i].committed == perform(states[i - 1].live, steps[i - 1].op).next
    ensures i < j && FailsAt(perform, states, steps, j - 1) ==> states[j].live == states[i].committed
    decreases j
  {
    if i > 0 { assert StepAt(perform, states, steps, i - 1); }
    if i < j {
      assert StepAt(perform, states, steps, j - 1) && !CommitsAt(perform, states, steps, j - 1);
      LastCommitStands(perform, states, steps, i, j - 1);
    }
  }

  /** Step `i` is the same in both runs, or saves and fails in both. */
  ghost predicate SameUnlessFailed<S, O>(
    perform: (S, O) --> Write<S>, states: seq<Store<S>>, steps: seq<Step<O>>, states': seq<Store<S>>, steps': seq<Step<O>>, i: nat)
    requires IsRun(perform, states, steps) && IsRun(perform, states', steps') && i < |steps| && i < |steps'|
  {
    steps[i] == steps'[i] || (FailsAt(perform, states, steps, i) && FailsAt(perform, states', steps', i))
  }

  /** What an operation mutated before its save failed has no influence on anything later: with any
      other operation that saves and fails in its place, every state and every commit is the same. */
  lemma {:induction false} FailedMutationsDoNotMatter<S, O>(
    perform: (S, O) --> Write<S>, states: seq<Store<S>>, steps: seq<Step<O>>, states': seq<Store<S>>, steps': seq<Step<O>>, n: nat)
    requires IsRun(perform, states, steps) && IsRun(perform, states', steps') && n <= |steps| == |steps'|
    requires states[0] == states'[0]
    requires forall i: nat :: i < |steps| ==> SameUnlessFailed(perform, states, steps, states', steps', i)
    ensures states[n] == states'[n]
  {
    if n > 0 {
      FailedMutationsDoNotMatter(perform, states, steps, states', steps', n - 1);
      assert StepAt(perform, states, steps, n - 1) && StepAt(perform, states', steps', n - 1);
      assert SameUnlessFailed(perform, states, steps, states', steps', n - 1);
    }
  }

  /** The steps whose save goes through. */
  function Succeeding<O>(steps: seq<Step<O>>): seq<Step<O>> {
    if steps == [] then []
    else
      var n := |steps| - 1;
      Succeeding(steps[..n]) + (if steps[n].saved then [steps[n]] else [])
  }

  lemma {:induction false} AllSucceed<O>(steps: seq<Step<O>>)
    requires forall i :: 0 <= i < |steps| ==> steps[i].saved
    ensures Succeeding(steps) == steps
  {
    if steps != [] {
      var n := |steps| - 1;
      AllSucceed(steps[..n]);
      assert steps == steps[..n] + [steps[n]];
    }
  }

  /** Failed saves leave no trace: where every step saves or changes nothing, the run without the
      failed steps is a run too and ends in the same state, in memory and on disk. */
  lemma {:induction false} FailedSavesLeaveNoTrace<S, O>(perform: (S, O) --> Write<S>, states: seq<Store<S>>, steps: seq<Step<O>>)
    returns (kept: seq<Store<S>>)
    requires IsRun(perform, states, steps) && states[0].live == states[0].committed
    requires forall i: nat :: i < |steps| ==> DisciplinedAt(perform, states, steps, i)
    ensures IsRun(perform, kept, Succeeding(steps)) && kept[0] == states[0]
    ensures kept[|kept| - 1] == states[|steps|] && states[|steps|].live == states[|steps|].committed
    decreases |steps|
  {
    if steps == [] {
      kept := states;
    } else {
      var n := |steps| - 1;
      RunPrefix(perform, states, steps, n);
      var states0, steps0 := states[..n + 1], steps[..n];
      forall i: nat | i < n ensures DisciplinedAt(perform, states0, steps0, i) {
        assert DisciplinedAt(perform, states, steps, i);
      }
      kept := FailedSavesLeaveNoTrace(perform, states0, steps0);
      assert StepAt(perform, states, steps, n) && DisciplinedAt(perform, states, steps, n);
      if steps[n].saved {
        RunSnoc(perform, kept, Succeeding(steps[..n]), steps[n]);
        kept := kept + [states[n + 1]];
      } else {
        assert Succeeding(steps) == Succeeding(steps[..n]);
      }
    }
  }
}
