/** Runs of the queue engine that reach the states in which a promise fails. */
module QueueWitnesses {
  import opened Common
  import opened Durable
  import opened Queues
  import opened QueueProofs
  import Runs = QueueRuns

  const ATTRIBUTES := map["FifoQueue" := "true", "ContentBasedDeduplication" := "false"]

  const CREATION := AttributeChange(map["FifoQueue" := "true"], None, None, Unmentioned)

  /** A FIFO queue without a delay. */
  function Fifo(name: string, redrive: Option<RedrivePolicy>, messages: seq<Message>, dedup: map<string, DedupRecord>, nextSeq: nat): Queue {
    Queue(name, ATTRIBUTES, 0, 30, redrive, messages, dedup, nextSeq)
  }

  /** A send of group "g" with this deduplication id. */
  function Body(d: string): Sending {
    Sending("", "", 0, false, "g", d)
  }

  lemma TrueIsLower()
    ensures Lower("true") == "true"
  {
    LowerAt("true");
  }

  lemma FifoIsFifo(q: Queue)
    requires q.attributes == ATTRIBUTES && FifoName(q.name)
    ensures IsFifo(q)
  {
    hide Lower;
    TrueIsLower();
  }

  /** Creating a FIFO queue, with or without a redrive policy. */
  lemma CreateStep(queues: Queues, name: string, redrive: RedriveChange)
    requires name !in queues && FifoName(name) && ValidRedrive(queues, name, redrive) && !redrive.Blank?
    ensures Perform(queues, Create(name, CREATION.(redrive := redrive))) ==
            Write(queues[name := Fifo(name, if redrive.Policy? then Some(redrive.policy) else None, [], map[], 0)], true)
  {
    hide Lower, FifoName, ValidRedrive;
    TrueIsLower();
    assert NewQueue(name).attributes + CREATION.text == ATTRIBUTES;
  }

  /** The message that such a send enqueues. */
  function Queued(q: Queue, d: string, now: int, id: string): Message {
    Message(id, "", now, now, "", 0, "g", d, Some(NextSeq(q.nextSeq)))
  }

  lemma SendStep(queues: Queues, name: string, d: string, now: int, id: string)
    requires name in queues && ValidIdentifier(d) && FifoName(name)
    requires queues[name].name == name && queues[name].attributes == ATTRIBUTES && queues[name].delaySeconds == 0
    requires d !in Unexpired(queues[name].dedup, now)
    ensures var q := queues[name];
            Perform(queues, Send(name, Body(d), now, id)) ==
            Write(queues[name := q.(messages := q.messages + [Queued(q, d, now, id)], nextSeq := NextSeq(q.nextSeq),
                                    dedup := Unexpired(q.dedup, now)[d := DedupRecord(id, NextSeq(q.nextSeq), now + WINDOW)])], true)
  {
    FifoIsFifo(queues[name]);
    hide SendError, IsFifo, Unexpired, DedupKey, FifoName;
  }

  lemma DuplicateStep(queues: Queues, name: string, d: string, now: int, id: string)
    requires name in queues && ValidIdentifier(d) && FifoName(name)
    requires queues[name].name == name && queues[name].attributes == ATTRIBUTES && queues[name].delaySeconds == 0
    requires d in Unexpired(queues[name].dedup, now)
    ensures var q := queues[name];
            Perform(queues, Send(name, Body(d), now, id)) == Write(queues[name := q.(dedup := Unexpired(q.dedup, now))], false)
  {
    FifoIsFifo(queues[name]);
    hide SendError, IsFifo, Unexpired, DedupKey, FifoName;
  }

  /** A run with one more step. */
  lemma Extend(states: seq<Store<Queues>>, steps: seq<Step<Op>>, step: Step<Op>, next: Store<Queues>)
    requires Runs.IsRun(states, steps) && WellFormed(step.op) && next == Advance(states[|steps|], step)
    ensures Runs.IsRun(states + [next], steps + [step])
  {
    hide Perform;
    RunSnoc(Perform, states, steps, step);
  }

  /* ------------------------------ Unsaved pruning ------------------------------ */

  const Q := "q.fifo"

  /** The queue after a send "a" at time 0 and a send "b" 200 seconds later. */
  function Both(): Queue {
    Fifo(Q, None,
         [Message("1", "", 0, 0, "", 0, "g", "a", Some(1)), Message("2", "", Seconds(200), Seconds(200), "", 0, "g", "b", Some(2))],
         map["a" := DedupRecord("1", 1, WINDOW), "b" := DedupRecord("2", 2, Seconds(200) + WINDOW)], 2)
  }

  /** The same without the expired record of "a". */
  function Pruned(): Queue {
    Both().(dedup := map["b" := DedupRecord("2", 2, Seconds(200) + WINDOW)])
  }

  /** The queue after the first send. */
  function One(): Queue {
    Fifo(Q, None, [Message("1", "", 0, 0, "", 0, "g", "a", Some(1))], map["a" := DedupRecord("1", 1, WINDOW)], 1)
  }

  lemma SendsA()
    ensures Perform(map[Q := Fifo(Q, None, [], map[], 0)], Send(Q, Body("a"), 0, "1")) == Write(map[Q := One()], true)
  {
    hide Perform;
    assert FifoName(Q) && ValidIdentifier("a");
    var q0 := Fifo(Q, None, [], map[], 0);
    assert Unexpired(map[], 0) == map[];
    SendStep(map[Q := q0], Q, "a", 0, "1");
    hide FifoName, ValidIdentifier, Unexpired;
    assert q0.messages + [Queued(q0, "a", 0, "1")] == One().messages && map[]["a" := DedupRecord("1", 1, WINDOW)] == One().dedup;
    assert map[Q := q0][Q := One()] == map[Q := One()];
  }

  lemma SendsB()
    ensures Perform(map[Q := One()], Send(Q, Body("b"), Seconds(200), "2")) == Write(map[Q := Both()], true)
  {
    hide Perform;
    assert FifoName(Q) && ValidIdentifier("b");
    assert Unexpired(One().dedup, Seconds(200)) == One().dedup;
    SendStep(map[Q := One()], Q, "b", Seconds(200), "2");
    hide FifoName, ValidIdentifier, Unexpired;
    assert One().messages + [Queued(One(), "b", Seconds(200), "2")] == Both().messages;
    assert One().dedup["b" := DedupRecord("2", 2, Seconds(200) + WINDOW)] == Both().dedup;
    assert map[Q := One()][Q := Both()] == map[Q := Both()];
  }

  lemma SendsBAgain()
    ensures Perform(map[Q := Both()], Send(Q, Body("b"), Seconds(301), "3")) == Write(map[Q := Pruned()], false)
  {
    hide Perform;
    assert FifoName(Q) && ValidIdentifier("b");
    assert Unexpired(Both().dedup, Seconds(301)) == Pruned().dedup;
    DuplicateStep(map[Q := Both()], Q, "b", Seconds(301), "3");
    assert map[Q := Both()][Q := Pruned()] == map[Q := Pruned()];
  }

  /** The steps of the run; the last one fails to save. */
  function PruningSteps(): seq<Step<Op>> {
    [Step(Create(Q, CREATION), true), Step(Send(Q, Body("a"), 0, "1"), true), Step(Send(Q, Body("b"), Seconds(200), "2"), true),
     Step(Send(Q, Body("b"), Seconds(301), "3"), true), Step(Purge(Q), false)]
  }

  /** The store after the first four of them. */
  lemma RunUpToPruning() returns (states: seq<Store<Queues>>)
    ensures Runs.IsRun(states, PruningSteps()[..4])
    ensures states[4] == Store(map[Q := Pruned()], map[Q := Both()])
  {
    hide Perform;
    var steps := PruningSteps();
    var q0 := map[Q := Fifo(Q, None, [], map[], 0)];
    SendsA();
    SendsB();
    SendsBAgain();
    assert FifoName(Q);
    CreateStep(map[], Q, Unmentioned);
    states := [Store(map[], map[])];
    Extend(states, [], steps[0], Store(q0, q0));
    states := states + [Store(q0, q0)];
    Extend(states, [steps[0]], steps[1], Store(map[Q := One()], map[Q := One()]));
    states := states + [Store(map[Q := One()], map[Q := One()])];
    Extend(states, [steps[0], steps[1]], steps[2], Store(map[Q := Both()], map[Q := Both()]));
    states := states + [Store(map[Q := Both()], map[Q := Both()])];
    Extend(states, [steps[0], steps[1], steps[2]], steps[3], Store(map[Q := Pruned()], map[Q := Both()]));
    states := states + [Store(map[Q := Pruned()], map[Q := Both()])];
    assert steps[..4] == [steps[0], steps[1], steps[2], steps[3]];
  }

  /** A run in which a duplicate send prunes in memory and a failed purge then brings the expired
      record back: it ends differently from the run without the failed step. */
  lemma UnsavedPruningIsUndone() returns (states: seq<Store<Queues>>, kept: seq<Store<Queues>>)
    ensures |states| == 6 && |kept| == 5
    ensures Runs.IsRun(states, PruningSteps()) && Runs.IsRun(kept, Succeeding(PruningSteps()))
    ensures states[5].live == map[Q := Both()] && kept[4].live == map[Q := Pruned()] && Both() != Pruned()
  {
    var steps := PruningSteps();
    kept := RunUpToPruning();
    assert Perform(map[Q := Pruned()], Purge(Q)).saves;
    hide Perform;
    Extend(kept, steps[..4], steps[4], Store(map[Q := Both()], map[Q := Both()]));
    states := kept + [Store(map[Q := Both()], map[Q := Both()])];
    assert steps == steps[..4] + [steps[4]];
    AllSucceed(steps[..4]);
    assert Succeeding(steps) == Succeeding(steps[..4]) + [] == steps[..4];
    assert "a" in Both().dedup && "a" !in Pruned().dedup;
  }

  /* ------------------------------ The wrap of the sequence counter ------------------------------ */

  /** The message of the k-th of a series of sends five minutes apart. */
  function Nth(k: nat): Message {
    Message("m", "", k * WINDOW, k * WINDOW, "", 0, "g", "a", Some(k))
  }

  /** The queue after `n` of them. */
  function Series(n: nat): Queue {
    Fifo(Q, None, seq(n, i requires 0 <= i < n => Nth(i + 1)), if n == 0 then map[] else map["a" := DedupRecord("m", n, (n + 1) * WINDOW)], n)
  }

  lemma SeriesStep(n: nat)
    requires n + 1 < WRAP
    ensures Perform(map[Q := Series(n)], Send(Q, Body("a"), (n + 1) * WINDOW, "m")) == Write(map[Q := Series(n + 1)], true)
  {
    hide Perform;
    assert FifoName(Q) && ValidIdentifier("a");
    assert Unexpired(Series(n).dedup, (n + 1) * WINDOW) == map[];
    SendStep(map[Q := Series(n)], Q, "a", (n + 1) * WINDOW, "m");
    assert NextSeq(n) == n + 1 && Queued(Series(n), "a", (n + 1) * WINDOW, "m") == Nth(n + 1);
    assert Series(n).messages + [Nth(n + 1)] == Series(n + 1).messages;
    assert (n + 1) * WINDOW + WINDOW == (n + 2) * WINDOW;
    assert map[]["a" := DedupRecord("m", n + 1, (n + 2) * WINDOW)] == Series(n + 1).dedup;
    assert map[Q := Series(n)][Q := Series(n + 1)] == map[Q := Series(n + 1)];
  }

  /** Every length of the series below the wrap is reached. */
  lemma {:induction false} SeriesIsReached(n: nat) returns (states: seq<Store<Queues>>, steps: seq<Step<Op>>)
    requires n < WRAP
    ensures Runs.IsRun(states, steps) && states[|steps|] == Store(map[Q := Series(n)], map[Q := Series(n)])
  {
    hide Perform;
    if n == 0 {
      assert FifoName(Q);
      CreateStep(map[], Q, Unmentioned);
      assert Series(0) == Fifo(Q, None, [], map[], 0);
      states, steps := [Store(map[], map[])], [];
      Extend(states, steps, Step(Create(Q, CREATION), true), Store(map[Q := Series(0)], map[Q := Series(0)]));
      states, steps := states + [Store(map[Q := Series(0)], map[Q := Series(0)])], steps + [Step(Create(Q, CREATION), true)];
    } else {
      states, steps := SeriesIsReached(n - 1);
      SeriesStep(n - 1);
      var step, next := Step(Send(Q, Body("a"), n * WINDOW, "m"), true), Store(map[Q := Series(n)], map[Q := Series(n)]);
      Extend(states, steps, step, next);
      states, steps := states + [next], steps + [step];
    }
  }

  /** The queue after one send more than there are numbers. */
  function Wrapped(): Queue {
    var q := Series(WRAP - 1);
    q.(messages := q.messages + [Queued(q, "a", WRAP * WINDOW, "m")], nextSeq := 0, dedup := map["a" := DedupRecord("m", 0, WRAP * WINDOW + WINDOW)])
  }

  lemma WrappingSend()
    ensures Perform(map[Q := Series(WRAP - 1)], Send(Q, Body("a"), WRAP * WINDOW, "m")) == Write(map[Q := Wrapped()], true)
  {
    hide Perform;
    var q := Series(WRAP - 1);
    assert FifoName(Q) && ValidIdentifier("a");
    assert Unexpired(q.dedup, WRAP * WINDOW) == map[];
    SendStep(map[Q := q], Q, "a", WRAP * WINDOW, "m");
    hide FifoName, ValidIdentifier, Unexpired;
    assert NextSeq(q.nextSeq) == 0;
    assert map[]["a" := DedupRecord("m", 0, WRAP * WINDOW + WINDOW)] == Wrapped().dedup;
    assert map[Q := q][Q := Wrapped()] == map[Q := Wrapped()];
  }

  lemma WrappedIsNotLegal()
    ensures !Legal(map[Q := Wrapped()])
  {
    hide FifoName;
    var q := Series(WRAP - 1);
    var messages := Wrapped().messages;
    assert messages[0] == q.messages[0] == Nth(1) && messages[WRAP - 1] == Queued(q, "a", WRAP * WINDOW, "m");
    assert messages[0].seqNo == Some(1) && messages[WRAP - 1].seqNo == Some(0);
    assert !LegalQueue(Q, map[Q := Wrapped()][Q]);
  }

  /** A run whose last send draws the number 0 behind 2^64 - 1 numbered messages. */
  lemma CounterWraps() returns (states: seq<Store<Queues>>, steps: seq<Step<Op>>)
    ensures Runs.IsRun(states, steps) && |steps| > 0 && Legal(states[|steps| - 1].live) && !Legal(states[|steps|].live)
  {
    hide Perform, Legal, Series, Wrapped;
    states, steps := SeriesIsReached(WRAP - 1);
    WrappingSend();
    SeriesIsLegal(WRAP - 1);
    WrappedIsNotLegal();
    states, steps := Saved(states, steps, Send(Q, Body("a"), WRAP * WINDOW, "m"), map[Q := Wrapped()]);
  }

  lemma SeriesIsLegal(n: nat)
    requires n < WRAP
    ensures Legal(map[Q := Series(n)])
  {
    assert FifoName(Q);
    FifoIsFifo(Series(n));
  }

  /* ------------------------------ Redrive behind an unreceived message ------------------------------ */

  const D := "d.fifo"
  const POLICY := RedrivePolicy(D, 1)

  function Plain(id: string): Message {
    Message(id, "", 0, 0, "", 0, "g", "a", Some(1))
  }

  function Target(): Queue {
    Fifo(D, None, [Plain("1")], map["a" := DedupRecord("1", 1, WINDOW)], 1)
  }

  function Source(messages: seq<Message>): Queue {
    Fifo(Q, Some(POLICY), messages, map["a" := DedupRecord("2", 1, WINDOW)], 1)
  }

  /** The message of the source after its only delivery, visible again at once. */
  function Handed(): Message {
    Plain("2").(receipt := "r", receiveCount := 1)
  }

  function Pull(): Op {
    Receive(Q, 1, 0, 0, ["r"])
  }

  lemma PullOnce(queues: Queues)
    requires Q in queues
    ensures var q := queues[Q];
            var s := ScanAll(Context(q, 1, 0, 0, ["r"]), DeadLetterQueue(queues, q), q.messages);
            Perform(queues, Pull()) == Write(AfterReceive(queues, Q, s), s.changed)
  {
    hide ScanAll;
  }

  lemma FirstReceive()
    ensures Perform(map[D := Target(), Q := Source([Plain("2")])], Pull()) == Write(map[D := Target(), Q := Source([Handed()])], true)
  {
    var queues := map[D := Target(), Q := Source([Plain("2")])];
    var q := queues[Q];
    assert FifoName(Q);
    FifoIsFifo(q);
    var c := Context(q, 1, 0, 0, ["r"]);
    PullOnce(queues);
    hide IsFifo, Redriven, Perform;
    assert [Plain("2")][..0] == [];
    var s := ScanAll(c, Some(Target()), [Plain("2")]);
    assert s == Visit(c, Scan([], [], {}, Some(Target()), false), Plain("2"));
    hide ScanAll;
    assert Delivered(c, Plain("2"), 0) == Handed();
    assert s.remaining == [Handed()] && s.deadLetter == Some(Target()) && s.changed;
    assert queues[D := Target()][Q := Source([Handed()])] == map[D := Target(), Q := Source([Handed()])];
  }

  /** The target after the redrive: the received message stands behind the unreceived one. */
  lemma SecondReceive()
    ensures var queues := map[D := Target(), Q := Source([Handed()])];
            var next := Perform(queues, Pull());
            && next.saves && D in next.next
            && next.next[D].messages == [Plain("1"), DeadLettered(Target(), Handed(), 0)]
  {
    var queues := map[D := Target(), Q := Source([Handed()])];
    var q := queues[Q];
    assert FifoName(Q);
    FifoIsFifo(q);
    var c := Context(q, 1, 0, 0, ["r"]);
    PullOnce(queues);
    hide IsFifo, Perform;
    assert [Handed()][..0] == [];
    var s := ScanAll(c, Some(Target()), [Handed()]);
    assert s == Visit(c, Scan([], [], {}, Some(Target()), false), Handed());
    assert s.deadLetter == Some(Redriven(Target(), Handed(), 0));
    assert Redriven(Target(), Handed(), 0).messages == Target().messages + [DeadLettered(Target(), Handed(), 0)];
  }

  function NewSource(): Queue {
    Fifo(Q, Some(POLICY), [], map[], 0)
  }

  lemma CreateSource()
    ensures Perform(map[D := Fifo(D, None, [], map[], 0)], Create(Q, CREATION.(redrive := Policy(POLICY))))
            == Write(map[D := Fifo(D, None, [], map[], 0), Q := NewSource()], true)
  {
    hide Perform;
    assert FifoName(Q) && FifoName(D) && Q != D;
    var d := map[D := Fifo(D, None, [], map[], 0)];
    CreateStep(d, Q, Policy(POLICY));
    hide FifoName;
    assert d[Q := NewSource()] == map[D := Fifo(D, None, [], map[], 0), Q := NewSource()];
  }

  lemma SendToTarget()
    ensures Perform(map[D := Fifo(D, None, [], map[], 0), Q := NewSource()], Send(D, Body("a"), 0, "1"))
            == Write(map[D := Target(), Q := NewSource()], true)
  {
    hide Perform;
    assert FifoName(D) && ValidIdentifier("a") && Q != D;
    assert Unexpired(map[], 0) == map[];
    var d0 := Fifo(D, None, [], map[], 0);
    var both := map[D := d0, Q := NewSource()];
    SendStep(both, D, "a", 0, "1");
    hide FifoName, ValidIdentifier, Unexpired;
    assert d0.messages + [Queued(d0, "a", 0, "1")] == Target().messages && map[]["a" := DedupRecord("1", 1, WINDOW)] == Target().dedup;
    assert both[D := Target()] == map[D := Target(), Q := NewSource()];
  }

  lemma SendToSource()
    ensures Perform(map[D := Target(), Q := NewSource()], Send(Q, Body("a"), 0, "2"))
            == Write(map[D := Target(), Q := Source([Plain("2")])], true)
  {
    hide Perform;
    assert FifoName(Q) && ValidIdentifier("a") && Q != D;
    assert Unexpired(map[], 0) == map[];
    var q0 := NewSource();
    SendStep(map[D := Target(), Q := q0], Q, "a", 0, "2");
    hide FifoName, ValidIdentifier, Unexpired;
    assert q0.messages + [Queued(q0, "a", 0, "2")] == [Plain("2")] && map[]["a" := DedupRecord("2", 1, WINDOW)] == Source([]).dedup;
    assert map[D := Target(), Q := q0][Q := Source([Plain("2")])] == map[D := Target(), Q := Source([Plain("2")])];
  }

  /** A run after which a dead-letter target holds a received message behind an unreceived one of the
      same group. */
  lemma RedriveBreaksOrder() returns (states: seq<Store<Queues>>, steps: seq<Step<Op>>)
    ensures Runs.IsRun(states, steps) && D in states[|steps|].live && !Runs.ReceivedFirst(states[|steps|].live[D].messages)
  {
    hide Perform;
    var d0, q0 := Fifo(D, None, [], map[], 0), NewSource();
    assert FifoName(D);
    CreateStep(map[], D, Unmentioned);
    CreateSource();
    SendToTarget();
    SendToSource();
    hide FifoName;
    FirstReceive();
    SecondReceive();
    states, steps := [Store(map[], map[])], [];
    states, steps := Saved(states, steps, Create(D, CREATION), map[D := d0]);
    states, steps := Saved(states, steps, Create(Q, CREATION.(redrive := Policy(POLICY))), map[D := d0, Q := q0]);
    states, steps := Saved(states, steps, Send(D, Body("a"), 0, "1"), map[D := Target(), Q := q0]);
    states, steps := Saved(states, steps, Send(Q, Body("a"), 0, "2"), map[D := Target(), Q := Source([Plain("2")])]);
    states, steps := Saved(states, steps, Pull(), map[D := Target(), Q := Source([Handed()])]);
    var last := Perform(map[D := Target(), Q := Source([Handed()])], Pull()).next;
    states, steps := Saved(states, steps, Pull(), last);
    var messages := states[|steps|].live[D].messages;
    assert messages[0].receiveCount == 0 && messages[1].receiveCount == 1 && messages[0].group == messages[1].group;
  }

  /** A saved step. */
  lemma Saved(states: seq<Store<Queues>>, steps: seq<Step<Op>>, op: Op, next: Queues) returns (states': seq<Store<Queues>>, steps': seq<Step<Op>>)
    requires Runs.IsRun(states, steps) && WellFormed(op) && Perform(states[|steps|].live, op) == Write(next, true)
    ensures Runs.IsRun(states', steps') && steps' == steps + [Step(op, true)] && states' == states + [Store(next, next)]
  {
    hide Perform;
    Extend(states, steps, Step(op, true), Store(next, next));
    states', steps' := states + [Store(next, next)], steps + [Step(op, true)];
  }

  /* ------------------------------ An empty receipt handle ------------------------------ */

  /** A run that sends one message and deletes it with an empty receipt handle, before anyone received it. */
  lemma UnreceivedIsDeleted() returns (states: seq<Store<Queues>>, steps: seq<Step<Op>>)
    ensures Runs.IsRun(states, steps) && |steps| > 0 && steps[|steps| - 1].op == DeleteMessage(Q, "")
    ensures Q in states[|steps| - 1].live && |states[|steps| - 1].live[Q].messages| == 1 && states[|steps| - 1].live[Q].messages[0].receiveCount == 0
    ensures Q in states[|steps|].live && states[|steps|].live[Q].messages == []
  {
    hide Perform;
    states, steps := SeriesIsReached(1);
    var q, op := Series(1), DeleteMessage(Q, "");
    EmptyReceiptTakesUnreceived(map[Q := q], op, 0);
    var q' := Edited(q, op, 0);
    assert q'.messages == [] && map[Q := q][Q := q'] == map[Q := q'];
    states, steps := Saved(states, steps, op, map[Q := q']);
  }
}
