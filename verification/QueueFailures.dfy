/** Failed saves in runs of the queue engine. */
module QueueFailures {
  import opened Common
  import opened Durable
  import opened Queues
  import opened QueueProofs
  import Runs = QueueRuns

  /* ------------------------------ Which operations change memory without saving ------------------------------ */

  /** An accepted FIFO send that is a duplicate, while some record has expired. */
  ghost predicate PrunesUnsaved(queues: Queues, op: Op) {
    && op.Send? && op.name in queues
    && var q := queues[op.name];
    && SendError(q, op.sending).None? && IsFifo(q)
    && DedupKey(q.attributes, op.sending.group, ChosenDedupId(op.sending)) in Unexpired(q.dedup, op.now)
    && exists k <- q.dedup :: q.dedup[k].expiresAt <= op.now
  }

  lemma {:induction false} UnchangedScan(c: Receiving, dlq: Option<Queue>, messages: seq<Message>)
    requires c.max <= |c.ids| && !ScanAll(c, dlq, messages).changed
    ensures ScanAll(c, dlq, messages).remaining == messages && ScanAll(c, dlq, messages).deadLetter == dlq
  {
    if messages != [] {
      var n := |messages| - 1;
      UnchangedScan(c, dlq, messages[..n]);
      assert messages == messages[..n] + [messages[n]];
    }
  }

  lemma ReceiveIsDisciplined(queues: Queues, op: Op)
    requires op.Receive? && WellFormed(op) && !Perform(queues, op).saves
    ensures Perform(queues, op).next == queues
  {
    if op.name in queues {
      hide ScanAll;
      var q := queues[op.name];
      UnchangedScan(Context(q, op.max, op.visibility, op.now, op.ids), DeadLetterQueue(queues, q), q.messages);
    }
  }

  lemma SendIsDisciplinedIff(queues: Queues, op: Op)
    requires op.Send? && op.name in queues && SendError(queues[op.name], op.sending).None?
    ensures !Perform(queues, op).saves && Perform(queues, op).next != queues <==> PrunesUnsaved(queues, op)
  {
    hide SendError, IsFifo;
    var q := queues[op.name];
    var pruned := Unexpired(q.dedup, op.now);
    assert pruned == q.dedup <==> forall k <- q.dedup :: q.dedup[k].expiresAt > op.now;
    assert q.(dedup := pruned) == q <==> pruned == q.dedup;
    assert queues[op.name := q.(dedup := pruned)] == queues <==> q.(dedup := pruned) == q by {
      assert queues[op.name := q.(dedup := pruned)][op.name] == q.(dedup := pruned);
    }
  }

  /** An operation changes the queues in memory without saving exactly when it is such a send. */
  lemma UnsavedChangeIff(queues: Queues, op: Op)
    requires WellFormed(op)
    ensures !Perform(queues, op).saves && Perform(queues, op).next != queues <==> PrunesUnsaved(queues, op)
  {
    hide ScanAll, Sent, FindReceipt, ValidCreation, ValidFifoAttributes, ValidRedrive, Unexpired, IsFifo;
    if op.Receive? {
      if !Perform(queues, op).saves { ReceiveIsDisciplined(queues, op); }
    } else if op.Send? && op.name in queues && SendError(queues[op.name], op.sending).None? {
      SendIsDisciplinedIff(queues, op);
    }
  }

  /* ------------------------------ Runs ------------------------------ */

  /** In every run the committed queues are what the last committing step left; after a failed save,
      even of a receive that changed two queues, memory holds exactly those. */
  lemma FailedSaveRestores(states: seq<Store<Queues>>, steps: seq<Step<Op>>, i: nat, j: nat)
    requires Runs.IsRun(states, steps) && i < j <= |steps| && FailsAt(Perform, states, steps, j - 1)
    requires i > 0 ==> CommitsAt(Perform, states, steps, i - 1)
    requires forall k: nat :: i <= k < j ==> !CommitsAt(Perform, states, steps, k)
    ensures states[j] == Store(states[i].live, states[i].live)
  {
    hide Perform;
    LastCommitStands(Perform, states, steps, i, j);
    if i > 0 { assert StepAt(Perform, states, steps, i - 1); }
    assert StepAt(Perform, states, steps, j - 1);
  }

  /** A redriving receive whose save fails: its mutation took messages from one queue and appended
      them to another, and both queues are back to the last committed ones. */
  lemma FailedRedriveRestoresBoth(states: seq<Store<Queues>>, steps: seq<Step<Op>>, i: nat, j: nat)
    requires Runs.IsRun(states, steps) && i < j <= |steps| && FailsAt(Perform, states, steps, j - 1)
    requires i > 0 ==> CommitsAt(Perform, states, steps, i - 1)
    requires forall k: nat :: i <= k < j ==> !CommitsAt(Perform, states, steps, k)
    requires var queues, op := states[j - 1].live, steps[j - 1].op;
             && op.Receive? && op.name in queues && DeadLetterQueue(queues, queues[op.name]).Some?
             && WellFormed(op)
             && var q := queues[op.name];
                exists f <- Fates(Context(q, op.max, op.visibility, op.now, op.ids), DeadLetterQueue(queues, q), q.messages) :: f.Exhausted?
    ensures var queues, op := states[j - 1].live, steps[j - 1].op;
            var next, target := Perform(queues, op).next, queues[op.name].redrive.value.target;
            && |next[op.name].messages| < |queues[op.name].messages|
            && |next[target].messages| > |queues[target].messages|
            && states[j] == Store(states[i].live, states[i].live)
  {
    FailedSaveRestores(states, steps, i, j);
    Runs.AlwaysShaped(states, steps, j - 1);
    var queues, op := states[j - 1].live, steps[j - 1].op;
    var q := queues[op.name];
    assert ShapeOk(op.name, q);
    Runs.ReceiveTouchesTwo(queues, op);
    hide Perform, ScanAll, Fates;
    var c, dlq := Context(q, op.max, op.visibility, op.now, op.ids), DeadLetterQueue(queues, q);
    ReceiveSplitsByFate(c, dlq, q.messages);
    var fates, s := Fates(c, dlq, q.messages), ScanAll(c, dlq, q.messages);
    PickedCount(Ids(q.messages), fates);
    assert |Ids(s.remaining)| == |s.remaining| && |Ids(Moved(dlq, s))| == |Moved(dlq, s)|;
  }

  /** Something exhausted leaves the queue shorter and the moved list not empty. */
  lemma {:induction false} PickedCount(ids: seq<string>, fates: seq<Fate>)
    requires |ids| == |fates|
    ensures |Pick(ids, fates, InQueue)| <= |ids|
    ensures (exists f <- fates :: f.Exhausted?) ==> |Pick(ids, fates, InQueue)| < |ids| && |Pick(ids, fates, InDeadLetter)| > 0
  {
    if ids != [] {
      var n := |ids| - 1;
      PickedCount(ids[..n], fates[..n]);
      assert fates == fates[..n] + [fates[n]];
    }
  }

  /** Two runs that differ only in steps whose save fails agree in every state and every commit. */
  lemma QueueFailuresDoNotMatter(
    states: seq<Store<Queues>>, steps: seq<Step<Op>>, states': seq<Store<Queues>>, steps': seq<Step<Op>>, n: nat)
    requires Runs.IsRun(states, steps) && Runs.IsRun(states', steps') && n <= |steps| == |steps'|
    requires forall i: nat :: i < |steps| ==> SameUnlessFailed(Perform, states, steps, states', steps', i)
    ensures states[n] == states'[n]
  {
    FailedMutationsDoNotMatter(Perform, states, steps, states', steps', n);
  }

  /** Where no duplicate send meets an expired record, erasing the failed steps changes nothing. */
  lemma QueueFailuresLeaveNoTrace(states: seq<Store<Queues>>, steps: seq<Step<Op>>) returns (kept: seq<Store<Queues>>)
    requires Runs.IsRun(states, steps)
    requires forall i: nat :: i < |steps| ==> !PrunesUnsaved(states[i].live, steps[i].op)
    ensures Runs.IsRun(kept, Succeeding(steps)) && kept[|kept| - 1] == states[|steps|]
  {
    hide Perform, PrunesUnsaved;
    forall i: nat | i < |steps| ensures DisciplinedAt(Perform, states, steps, i) {
      Runs.RunStep(states, steps, i);
      UnsavedChangeIff(states[i].live, steps[i].op);
    }
    kept := FailedSavesLeaveNoTrace(Perform, states, steps);
  }
}
