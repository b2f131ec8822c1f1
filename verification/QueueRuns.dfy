/** Theorems over whole runs of the queue engine, with any save failing. */
module QueueRuns {
  import opened Common
  import opened Durable
  import D = Durable
  import opened Queues
  import opened QueueProofs

  /** A run of the queue engine, from an empty store. */
  ghost predicate IsRun(states: seq<Store<Queues>>, steps: seq<Step<Op>>) {
    D.IsRun(Perform, states, steps) && states[0] == Store(map[], map[])
  }

  lemma RunStep(states: seq<Store<Queues>>, steps: seq<Step<Op>>, i: nat)
    requires IsRun(states, steps) && i < |steps|
    ensures WellFormed(steps[i].op) && states[i + 1] == Advance(states[i], steps[i])
  {
    hide Perform;
    assert D.StepAt(Perform, states, steps, i);
  }

  /** In every run, in memory and on disk, the name suffix decides the type and no queue redrives
      into itself or into the other type. */
  lemma {:induction false} AlwaysShaped(states: seq<Store<Queues>>, steps: seq<Step<Op>>, i: nat)
    requires IsRun(states, steps) && i < |states|
    ensures Shaped(states[i].live) && Shaped(states[i].committed)
  {
    hide Perform, ShapeOk;
    if i > 0 {
      AlwaysShaped(states, steps, i - 1);
      RunStep(states, steps, i - 1);
      PerformKeepsShape(states[i - 1].live, steps[i - 1].op);
    }
  }

  /** In every run that hands out fewer than 2^64 numbers in a queue, in memory and on disk, the
      sequence numbers strictly increase along every queue and stay at most its counter. */
  lemma {:induction false} AlwaysLegal(states: seq<Store<Queues>>, steps: seq<Step<Op>>, i: nat)
    requires IsRun(states, steps) && i < |states|
    requires forall k :: 0 <= k < i ==> HasRoom(states[k].live, steps[k].op)
    ensures Legal(states[i].live) && Legal(states[i].committed)
  {
    hide Perform, LegalQueue, HasRoom;
    if i > 0 {
      AlwaysLegal(states, steps, i - 1);
      RunStep(states, steps, i - 1);
      PerformKeepsLegal(states[i - 1].live, steps[i - 1].op);
    }
  }

  /* ------------------------------ Redrive ------------------------------ */

  lemma IdsAreConserved(c: Receiving, dlq: Option<Queue>, messages: seq<Message>)
    requires c.max <= |c.ids| && dlq.Some?
    ensures var s := ScanAll(c, dlq, messages);
            && s.deadLetter.Some? && dlq.value.messages <= s.deadLetter.value.messages
            && multiset(Ids(s.remaining)) + multiset(Ids(s.deadLetter.value.messages)) == multiset(Ids(messages)) + multiset(Ids(dlq.value.messages))
  {
    hide ScanAll;
    ReceiveConserves(c, dlq, messages);
    var s := ScanAll(c, dlq, messages);
    assert s.deadLetter.value.messages == dlq.value.messages + Moved(dlq, s);
    assert Ids(s.deadLetter.value.messages) == Ids(dlq.value.messages) + Ids(Moved(dlq, s));
  }

  lemma ReceiveTouchesTwo(queues: Queues, op: Op)
    requires op.Receive? && WellFormed(op) && op.name in queues && ShapeOk(op.name, queues[op.name])
    requires DeadLetterQueue(queues, queues[op.name]).Some?
    ensures var q := queues[op.name];
            var target := q.redrive.value.target;
            var next := Perform(queues, op).next;
            var s := ScanAll(Context(q, op.max, op.visibility, op.now, op.ids), DeadLetterQueue(queues, q), q.messages);
            && s.deadLetter.Some? && target != op.name && next.Keys == queues.Keys
            && (forall n <- queues :: n != op.name && n != target ==> next[n] == queues[n])
            && next[op.name].messages == s.remaining && next[target].messages == s.deadLetter.value.messages
  {
    hide ScanAll;
    var q := queues[op.name];
    ReceiveConserves(Context(q, op.max, op.visibility, op.now, op.ids), DeadLetterQueue(queues, q), q.messages);
  }

  /** In every run a receive keeps the message ids of source plus dead-letter queue, touches no other
      queue, and under a live policy returns no message more often than the policy allows. */
  lemma RedriveConserves(states: seq<Store<Queues>>, steps: seq<Step<Op>>, i: nat)
    requires IsRun(states, steps) && i < |steps| && steps[i].op.Receive? && WellFormed(steps[i].op)
    requires var queues, name := states[i].live, steps[i].op.name;
             name in queues && DeadLetterQueue(queues, queues[name]).Some?
    ensures var queues, op := states[i].live, steps[i].op;
            var q := queues[op.name];
            var target := q.redrive.value.target;
            var next := Perform(queues, op).next;
            var s := ScanAll(Context(q, op.max, op.visibility, op.now, op.ids), DeadLetterQueue(queues, q), q.messages);
            && target != op.name && next.Keys == queues.Keys
            && (forall n <- queues :: n != op.name && n != target ==> next[n] == queues[n])
            && queues[target].messages <= next[target].messages
            && multiset(Ids(next[op.name].messages)) + multiset(Ids(next[target].messages))
               == multiset(Ids(q.messages)) + multiset(Ids(queues[target].messages))
            && (forall m <- s.result :: m.receiveCount <= q.redrive.value.maxReceiveCount)
  {
    AlwaysShaped(states, steps, i);
    var queues, op := states[i].live, steps[i].op;
    var q := queues[op.name];
    assert ShapeOk(op.name, q);
    ReceiveTouchesTwo(queues, op);
    hide IsRun, ScanAll, Perform;
    var c, dlq := Context(q, op.max, op.visibility, op.now, op.ids), DeadLetterQueue(queues, q);
    IdsAreConserved(c, dlq, q.messages);
    DeliveryIsBounded(c, dlq, q.messages);
  }

  /* ------------------------------ FIFO order ------------------------------ */

  /** In each group, the messages received at least once come first. */
  ghost predicate ReceivedFirst(messages: seq<Message>) {
    forall i, j :: 0 <= i < j < |messages| && messages[i].group == messages[j].group && messages[j].receiveCount >= 1 ==>
      messages[i].receiveCount >= 1
  }

  ghost predicate UnreceivedFrom(s: Scan, messages: seq<Message>) {
    forall m <- s.remaining :: m.receiveCount == 0 ==> m in messages && m.group in s.blocked
  }

  lemma VisitKeepsReceivedFirst(c: Receiving, s: Scan, before: seq<Message>, m: Message)
    requires c.max <= |c.ids| && c.fifo && ReceivedFirst(s.remaining) && UnreceivedFrom(s, before)
    requires ReceivedFirst(before + [m])
    ensures ReceivedFirst(Visit(c, s, m).remaining) && UnreceivedFrom(Visit(c, s, m), before + [m])
  {
    var s' := Visit(c, s, m);
    if |s'.remaining| > |s.remaining| {
      var last := s'.remaining[|s.remaining|];
      assert (before + [m])[|before|] == m;
      assert forall k :: 0 <= k < |before| ==> (before + [m])[k] == before[k];
      assert forall i :: 0 <= i < |s.remaining| ==> s.remaining[i] in s.remaining;
    }
  }

  lemma {:induction false} ReceiveKeepsReceivedFirst(c: Receiving, dlq: Option<Queue>, messages: seq<Message>)
    requires c.max <= |c.ids| && c.fifo && ReceivedFirst(messages)
    ensures ReceivedFirst(ScanAll(c, dlq, messages).remaining)
    ensures UnreceivedFrom(ScanAll(c, dlq, messages), messages)
  {
    if messages != [] {
      var before, m := messages[..|messages| - 1], messages[|messages| - 1];
      assert messages == before + [m];
      ReceiveKeepsReceivedFirst(c, dlq, before);
      VisitKeepsReceivedFirst(c, ScanAll(c, dlq, before), before, m);
    }
  }

  /** A receive whose live policy moves messages into `name`. */
  ghost predicate RedrivesInto(queues: Queues, op: Op, name: string) {
    && op.Receive? && op.name in queues
    && queues[op.name].redrive.Some? && queues[op.name].redrive.value.target == name
  }

  ghost predicate OrderedAt(queues: Queues, name: string) {
    name in queues ==> ReceivedFirst(queues[name].messages)
  }

  lemma ReceiveKeepsOrder(queues: Queues, op: Op, name: string)
    requires op.Receive? && WellFormed(op) && Shaped(queues) && FifoName(name)
    requires OrderedAt(queues, name) && !RedrivesInto(queues, op, name)
    ensures OrderedAt(Perform(queues, op).next, name)
  {
    if op.name in queues && op.name == name {
      var q := queues[name];
      assert ShapeOk(name, q);
      ReceiveKeepsReceivedFirst(Context(q, op.max, op.visibility, op.now, op.ids), DeadLetterQueue(queues, q), q.messages);
    }
  }

  lemma EditedKeepsOrder(q: Queue, op: Op, i: nat)
    requires (op.DeleteMessage? || op.ChangeVisibility?) && i < |q.messages| && ReceivedFirst(q.messages)
    ensures ReceivedFirst(Edited(q, op, i).messages)
  {
    var after := Edited(q, op, i).messages;
    if op.DeleteMessage? {
      assert forall k :: 0 <= k < |after| ==> after[k] == q.messages[if k < i then k else k + 1];
    }
  }

  lemma PerformKeepsOrder(queues: Queues, op: Op, name: string)
    requires WellFormed(op) && Shaped(queues) && FifoName(name)
    requires OrderedAt(queues, name) && !RedrivesInto(queues, op, name)
    ensures OrderedAt(Perform(queues, op).next, name)
  {
    hide SendError, FindReceipt, ScanAll, FifoName;
    if op.Receive? {
      ReceiveKeepsOrder(queues, op, name);
    }
  }

  ghost predicate OrderedStore(store: Store<Queues>, name: string) {
    OrderedAt(store.live, name) && OrderedAt(store.committed, name)
  }

  lemma AdvanceKeepsOrder(store: Store<Queues>, step: Step<Op>, name: string)
    requires WellFormed(step.op) && Shaped(store.live) && FifoName(name)
    requires OrderedStore(store, name) && !RedrivesInto(store.live, step.op, name)
    ensures OrderedStore(Advance(store, step), name)
  {
    PerformKeepsOrder(store.live, step.op, name);
  }

  /** FIFO order over runs: as long as nothing is redriven into it, a FIFO queue's received messages
      form a prefix of every group, whatever else happens and whichever saves fail. */
  lemma {:induction false} ReceivedFormPrefix(states: seq<Store<Queues>>, steps: seq<Step<Op>>, name: string, i: nat)
    requires IsRun(states, steps) && i < |states| && FifoName(name)
    requires forall k :: 0 <= k < i ==> !RedrivesInto(states[k].live, steps[k].op, name)
    ensures OrderedStore(states[i], name)
  {
    hide Perform;
    if i > 0 {
      ReceivedFormPrefix(states, steps, name, i - 1);
      AlwaysShaped(states, steps, i - 1);
      RunStep(states, steps, i - 1);
      AdvanceKeepsOrder(states[i - 1], steps[i - 1], name);
    }
  }

  /** A dead-letter target keeps the order exactly when the group it receives into has no unreceived message. */
  lemma RedriveKeepsOrderIff(dlq: Queue, m: Message, now: int)
    requires ReceivedFirst(dlq.messages) && m.receiveCount >= 1
    ensures ReceivedFirst(Redriven(dlq, m, now).messages)
            <==> forall i :: 0 <= i < |dlq.messages| && dlq.messages[i].group == m.group ==> dlq.messages[i].receiveCount >= 1
  {
    var grown := Redriven(dlq, m, now).messages;
    assert grown[|dlq.messages|].group == m.group && grown[|dlq.messages|].receiveCount == m.receiveCount;
    assert forall i :: 0 <= i < |dlq.messages| ==> grown[i] == dlq.messages[i];
  }

  /* ------------------------------ Deduplication ------------------------------ */

  /** An accepted send to the FIFO queue `name` under the deduplication key `key`. */
  ghost predicate SendsUnder(queues: Queues, op: Op, name: string, key: string) {
    && op.Send? && op.name == name && name in queues
    && SendError(queues[name], op.sending).None? && IsFifo(queues[name])
    && key == DedupKey(queues[name].attributes, op.sending.group, ChosenDedupId(op.sending))
  }

  ghost function Reply(queues: Queues, op: Op): SendReply
    requires op.Send? && op.name in queues && SendError(queues[op.name], op.sending).None?
  {
    Sent(queues[op.name], op.sending, op.now, op.id).2
  }

  /** The queue is not deleted, reset or redriven into. */
  ghost predicate Keeps(queues: Queues, op: Op, name: string) {
    && !(op.Delete? && op.name == name) && !op.ResetWorkload? && !op.Reset?
    && !RedrivesInto(queues, op, name)
  }

  ghost predicate Recorded(queues: Queues, name: string, key: string, record: DedupRecord) {
    name in queues && key in queues[name].dedup && queues[name].dedup[key] == record
  }

  lemma ReceiveKeepsRecord(queues: Queues, op: Op, name: string, key: string, record: DedupRecord)
    requires op.Receive? && WellFormed(op) && Recorded(queues, name, key, record) && Keeps(queues, op, name)
    ensures Recorded(Perform(queues, op).next, name, key, record)
  {
    hide ScanAll;
  }

  lemma SendKeepsRecord(queues: Queues, op: Op, name: string, key: string, record: DedupRecord)
    requires op.Send? && Recorded(queues, name, key, record)
    requires op.name == name ==> op.now < record.expiresAt
    ensures Recorded(Perform(queues, op).next, name, key, record)
  {
    hide SendError, IsFifo, NewMessage;
    if op.name == name && SendError(queues[name], op.sending).None? {
      assert key in Unexpired(queues[name].dedup, op.now);
    }
  }

  lemma OtherKeepsRecord(queues: Queues, op: Op, name: string, key: string, record: DedupRecord)
    requires !op.Receive? && !op.Send? && Recorded(queues, name, key, record) && Keeps(queues, op, name)
    ensures Recorded(Perform(queues, op).next, name, key, record)
  {
    hide FindReceipt, ValidCreation, ValidFifoAttributes, ValidRedrive;
    if op.DeleteMessage? || op.ChangeVisibility? {
      hide Perform;
      PerformEdits(queues, op);
    }
  }

  ghost predicate SendsTo(step: Step<Op>, name: string) {
    step.op.Send? && step.op.name == name
  }

  /** The clock of the sends to one queue does not run backwards. */
  ghost predicate ClockForward(steps: seq<Step<Op>>, name: string) {
    forall k, l | 0 <= k < l < |steps| && SendsTo(steps[k], name) && SendsTo(steps[l], name) ::
      steps[k].op.now <= steps[l].op.now
  }

  lemma {:induction false} RecordSurvives(states: seq<Store<Queues>>, steps: seq<Step<Op>>, name: string, key: string, i: nat, j: nat, until: int)
    requires IsRun(states, steps) && i < j <= |steps|
    requires SendsUnder(states[i].live, steps[i].op, name, key) && steps[i].saved
    requires Reply(states[i].live, steps[i].op).Enqueued? && until == steps[i].op.now + 300_000_000_000
    requires forall k :: i < k < j ==> Keeps(states[k].live, steps[k].op, name)
    requires forall k :: i < k < j && steps[k].op.Send? && steps[k].op.name == name ==> steps[k].op.now < until
    ensures var m := Reply(states[i].live, steps[i].op).message;
            && m.seqNo.Some?
            && Recorded(states[j].live, name, key, DedupRecord(m.id, m.seqNo.value, until))
            && Recorded(states[j].committed, name, key, DedupRecord(m.id, m.seqNo.value, until))
  {
    RunStep(states, steps, j - 1);
    if j > i + 1 {
      RecordSurvives(states, steps, name, key, i, j - 1, until);
      var m := Reply(states[i].live, steps[i].op).message;
      var queues, op, record := states[j - 1].live, steps[j - 1].op, DedupRecord(m.id, m.seqNo.value, until);
      hide Perform, IsRun;
      if op.Receive? {
        ReceiveKeepsRecord(queues, op, name, key, record);
      } else if op.Send? {
        SendKeepsRecord(queues, op, name, key, record);
      } else {
        OtherKeepsRecord(queues, op, name, key, record);
      }
    }
  }

  /** The deduplication window: after a saved send, a send under the same key less than five minutes
      later enqueues nothing and is answered with the first message's id and sequence number. */
  lemma DuplicateInsideWindow(states: seq<Store<Queues>>, steps: seq<Step<Op>>, name: string, key: string, i: nat, j: nat)
    requires IsRun(states, steps) && i < j < |steps| && ClockForward(steps, name)
    requires SendsUnder(states[i].live, steps[i].op, name, key) && steps[i].saved
    requires Reply(states[i].live, steps[i].op).Enqueued?
    requires SendsUnder(states[j].live, steps[j].op, name, key)
    requires forall k :: i < k < j ==> Keeps(states[k].live, steps[k].op, name)
    requires steps[j].op.now < steps[i].op.now + 300_000_000_000
    ensures var first := Reply(states[i].live, steps[i].op).message;
            && first.seqNo.Some?
            && Reply(states[j].live, steps[j].op) == Duplicate(first.id, first.seqNo.value)
            && Perform(states[j].live, steps[j].op).next[name].messages == states[j].live[name].messages
  {
    RecordSurvives(states, steps, name, key, i, j, steps[i].op.now + 300_000_000_000);
  }

  /** Hence two saved sends under one key that both enqueue are at least five minutes apart. */
  lemma EnqueuedFiveMinutesApart(states: seq<Store<Queues>>, steps: seq<Step<Op>>, name: string, key: string, i: nat, j: nat)
    requires IsRun(states, steps) && i < j < |steps| && ClockForward(steps, name)
    requires SendsUnder(states[i].live, steps[i].op, name, key) && steps[i].saved
    requires SendsUnder(states[j].live, steps[j].op, name, key)
    requires Reply(states[i].live, steps[i].op).Enqueued? && Reply(states[j].live, steps[j].op).Enqueued?
    requires forall k :: i < k < j ==> Keeps(states[k].live, steps[k].op, name)
    ensures steps[j].op.now >= steps[i].op.now + 300_000_000_000
  {
    if steps[j].op.now < steps[i].op.now + 300_000_000_000 {
      DuplicateInsideWindow(states, steps, name, key, i, j);
    }
  }

  /** Under group scope, distinct (group, id) pairs of accepted sends never share a key. */
  lemma GroupKeysAreDistinct(attributes: map<string, string>, g: string, d: string, g': string, d': string)
    requires GroupScoped(attributes) && ValidIdentifier(g) && ValidIdentifier(g') && ValidIdentifier(d) && ValidIdentifier(d')
    requires DedupKey(attributes, g, d) == DedupKey(attributes, g', d')
    ensures g == g' && d == d'
  {
    CutUnique('\0', g, d, g', d');
  }
}
