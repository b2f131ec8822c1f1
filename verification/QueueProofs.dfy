/** What the queue engine keeps over every run: queue shapes, sequence numbers, FIFO order,
    redrive conservation and the deduplication window. */
module QueueProofs {
  import opened Common
  import opened Durable
  import opened Queues

  /* ------------------------------ One receive ------------------------------ */

  function Ids(messages: seq<Message>): (r: seq<string>)
    ensures |r| == |messages|
  {
    seq(|messages|, i requires 0 <= i < |messages| => messages[i].id)
  }

  /** Where a message is after the call: still in the queue, in the reply, or in the dead-letter queue. */
  datatype Place = InQueue | InReply | InDeadLetter

  predicate Reaches(fate: Fate, place: Place) {
    match place
    case InQueue => !fate.Exhausted?
    case InReply => fate.Taken?
    case InDeadLetter => fate.Exhausted?
  }

  /** The ids that reach `place`, in queue order. */
  function Pick(ids: seq<string>, fates: seq<Fate>, place: Place): seq<string>
    requires |ids| == |fates|
  {
    if ids == [] then []
    else
      var n := |ids| - 1;
      Pick(ids[..n], fates[..n], place) + (if Reaches(fates[n], place) then [ids[n]] else [])
  }

  lemma IdsSnoc(messages: seq<Message>, m: Message)
    ensures Ids(messages + [m]) == Ids(messages) + [m.id]
  {
  }

  lemma PickSnoc(ids: seq<string>, id: string, fates: seq<Fate>, fate: Fate, place: Place)
    requires |ids| == |fates|
    ensures Pick(ids + [id], fates + [fate], place) == Pick(ids, fates, place) + (if Reaches(fate, place) then [id] else [])
  {
    assert (ids + [id])[..|ids|] == ids && (fates + [fate])[..|ids|] == fates;
  }

  lemma {:induction false} PickSplits(ids: seq<string>, fates: seq<Fate>)
    requires |ids| == |fates|
    ensures multiset(Pick(ids, fates, InQueue)) + multiset(Pick(ids, fates, InDeadLetter)) == multiset(ids)
  {
    if ids != [] {
      var ids0, id, fates0, fate := ids[..|ids| - 1], ids[|ids| - 1], fates[..|ids| - 1], fates[|ids| - 1];
      assert ids == ids0 + [id] && fates == fates0 + [fate];
      PickSplits(ids0, fates0);
      PickSnoc(ids0, id, fates0, fate, InQueue);
      PickSnoc(ids0, id, fates0, fate, InDeadLetter);
      hide Pick;
      SplitSnoc(ids0, id, Pick(ids0, fates0, InQueue), Pick(ids0, fates0, InDeadLetter), Reaches(fate, InQueue));
    }
  }

  lemma SplitSnoc(ids: seq<string>, id: string, stay: seq<string>, move: seq<string>, stays: bool)
    requires multiset(stay) + multiset(move) == multiset(ids)
    ensures multiset(stay + (if stays then [id] else [])) + multiset(move + (if stays then [] else [id])) == multiset(ids + [id])
  {
  }

  /** The messages a receive appends to the dead-letter queue. */
  function Moved(dlq: Option<Queue>, s: Scan): seq<Message>
    requires Grew(dlq, s.deadLetter)
  {
    if dlq.Some? then s.deadLetter.value.messages[|dlq.value.messages|..] else []
  }

  /** The dead-letter queue only grows at its end and keeps its identity. */
  predicate Grew(dlq: Option<Queue>, dlq': Option<Queue>) {
    && dlq.Some? == dlq'.Some?
    && (dlq.Some? ==>
          && dlq.value.messages <= dlq'.value.messages
          && dlq'.value == dlq.value.(messages := dlq'.value.messages, nextSeq := dlq'.value.nextSeq, dedup := dlq'.value.dedup))
  }

  /** One iteration, by fate. */
  lemma VisitPlaces(c: Receiving, dlq: Option<Queue>, s: Scan, m: Message)
    requires c.max <= |c.ids| && Grew(dlq, s.deadLetter) && |s.result| <= c.max
    ensures var s', fate := Visit(c, s, m), FateOf(c, s, m);
            && Grew(dlq, s'.deadLetter) && |s'.result| <= c.max
            && Ids(s'.remaining) == Ids(s.remaining) + (if Reaches(fate, InQueue) then [m.id] else [])
            && Ids(s'.result) == Ids(s.result) + (if Reaches(fate, InReply) then [m.id] else [])
            && Ids(Moved(dlq, s')) == Ids(Moved(dlq, s)) + (if Reaches(fate, InDeadLetter) then [m.id] else [])
  {
    var s', fate := Visit(c, s, m), FateOf(c, s, m);
    if fate.Exhausted? {
      var d := DeadLettered(s.deadLetter.value, m, c.now);
      assert Moved(dlq, s') == Moved(dlq, s) + [d];
      IdsSnoc(Moved(dlq, s), d);
    } else if fate.Taken? {
      var d := Delivered(c, m, |s.result|);
      IdsSnoc(s.remaining, d);
      IdsSnoc(s.result, d);
    } else {
      IdsSnoc(s.remaining, m);
    }
  }

  /** What stays, what is returned and what is moved are each the picked messages in queue order. */
  ghost predicate Splits(dlq: Option<Queue>, s: Scan, ids: seq<string>, fates: seq<Fate>) {
    && Grew(dlq, s.deadLetter) && |ids| == |fates|
    && Ids(s.remaining) == Pick(ids, fates, InQueue)
    && Ids(s.result) == Pick(ids, fates, InReply)
    && Ids(Moved(dlq, s)) == Pick(ids, fates, InDeadLetter)
  }

  lemma VisitSplits(c: Receiving, dlq: Option<Queue>, s: Scan, m: Message, ids: seq<string>, fates: seq<Fate>)
    requires c.max <= |c.ids| && |s.result| <= c.max && Splits(dlq, s, ids, fates)
    ensures Splits(dlq, Visit(c, s, m), ids + [m.id], fates + [FateOf(c, s, m)]) && |Visit(c, s, m).result| <= c.max
  {
    hide Visit, FateOf, Grew, Moved, Pick;
    VisitPlaces(c, dlq, s, m);
    var fate := FateOf(c, s, m);
    PickSnoc(ids, m.id, fates, fate, InQueue);
    PickSnoc(ids, m.id, fates, fate, InReply);
    PickSnoc(ids, m.id, fates, fate, InDeadLetter);
  }

  /** The loop splits the queue by fate: no message is lost, duplicated or reordered, and at most
      `max` are returned. */
  lemma {:induction false} ReceiveSplitsByFate(c: Receiving, dlq: Option<Queue>, messages: seq<Message>)
    requires c.max <= |c.ids|
    ensures Splits(dlq, ScanAll(c, dlq, messages), Ids(messages), Fates(c, dlq, messages))
    ensures |ScanAll(c, dlq, messages).result| <= c.max
  {
    if messages != [] {
      hide Splits, Visit, FateOf;
      var n := |messages| - 1;
      var before, m := messages[..n], messages[n];
      ReceiveSplitsByFate(c, dlq, before);
      assert messages == before + [m];
      IdsSnoc(before, m);
      VisitSplits(c, dlq, ScanAll(c, dlq, before), m, Ids(before), Fates(c, dlq, before));
    }
  }

  /** Redrive conservation: source plus dead-letter queue hold the same message ids before and after. */
  lemma ReceiveConserves(c: Receiving, dlq: Option<Queue>, messages: seq<Message>)
    requires c.max <= |c.ids|
    ensures var s := ScanAll(c, dlq, messages);
            && Grew(dlq, s.deadLetter)
            && multiset(Ids(s.remaining)) + multiset(Ids(Moved(dlq, s))) == multiset(Ids(messages))
  {
    ReceiveSplitsByFate(c, dlq, messages);
    PickSplits(Ids(messages), Fates(c, dlq, messages));
  }

  /** Under a live policy no message is returned more than `maxReceiveCount` times. */
  lemma {:induction false} DeliveryIsBounded(c: Receiving, dlq: Option<Queue>, messages: seq<Message>)
    requires c.max <= |c.ids| && dlq.Some?
    ensures ScanAll(c, dlq, messages).deadLetter.Some?
    ensures forall m <- ScanAll(c, dlq, messages).result :: m.receiveCount <= c.maxReceiveCount
  {
    if messages != [] {
      DeliveryIsBounded(c, dlq, messages[..|messages| - 1]);
    }
  }

  /** A message that stays without being returned blocks its group for the rest of the call. */
  lemma {:induction false} SkippedGroupsAreBlocked(c: Receiving, dlq: Option<Queue>, messages: seq<Message>, i: nat)
    requires c.max <= |c.ids| && c.fifo && i < |messages|
    requires Fates(c, dlq, messages)[i].Held? || Fates(c, dlq, messages)[i].Passed?
    ensures messages[i].group in ScanAll(c, dlq, messages).blocked
  {
    var n := |messages| - 1;
    if i < n {
      SkippedGroupsAreBlocked(c, dlq, messages[..n], i);
    }
  }

  lemma {:induction false} FatesOfPrefix(c: Receiving, dlq: Option<Queue>, messages: seq<Message>, n: nat)
    requires c.max <= |c.ids| && n <= |messages|
    ensures Fates(c, dlq, messages)[..n] == Fates(c, dlq, messages[..n])
  {
    if n < |messages| {
      FatesOfPrefix(c, dlq, messages[..|messages| - 1], n);
      assert messages[..|messages| - 1][..n] == messages[..n];
    } else {
      assert messages[..n] == messages;
    }
  }

  /** FIFO order in one call: when a message is returned, every earlier message of its group is
      returned too (earlier, as results are in queue order) or left the queue. */
  lemma FifoOrder(c: Receiving, dlq: Option<Queue>, messages: seq<Message>, i: nat, j: nat)
    requires c.max <= |c.ids| && c.fifo && i < j < |messages|
    requires messages[i].group == messages[j].group
    requires Fates(c, dlq, messages)[j].Taken?
    ensures Fates(c, dlq, messages)[i].Taken? || Fates(c, dlq, messages)[i].Exhausted?
  {
    var f := Fates(c, dlq, messages);
    FatesOfPrefix(c, dlq, messages, j);
    FatesOfPrefix(c, dlq, messages, j + 1);
    assert f[i] == Fates(c, dlq, messages[..j])[i];
    assert messages[..j + 1][..j] == messages[..j];
    assert f[j] == Fates(c, dlq, messages[..j + 1])[j] == FateOf(c, ScanAll(c, dlq, messages[..j]), messages[j]);
    if f[i].Held? || f[i].Passed? {
      SkippedGroupsAreBlocked(c, dlq, messages[..j], i);
    }
  }

  /* ------------------------------ Shapes and sequence numbers ------------------------------ */

  /** Along the queue, the sequence numbers that are present strictly increase and do not exceed `next`. */
  ghost predicate Numbered(messages: seq<Message>, next: nat) {
    && (forall i, j :: 0 <= i < j < |messages| && messages[i].seqNo.Some? && messages[j].seqNo.Some? ==>
          messages[i].seqNo.value < messages[j].seqNo.value)
    && (forall i :: 0 <= i < |messages| && messages[i].seqNo.Some? ==> messages[i].seqNo.value <= next)
  }

  ghost predicate Unnumbered(messages: seq<Message>) {
    forall i :: 0 <= i < |messages| ==> messages[i].seqNo.None?
  }

  ghost predicate SequenceOk(q: Queue) {
    && q.nextSeq < WRAP && Numbered(q.messages, q.nextSeq)
    && (!IsFifo(q) ==> Unnumbered(q.messages))
  }

  /** The name suffix decides the type, no queue redrives into itself or into the other type. */
  ghost predicate ShapeOk(name: string, q: Queue) {
    && q.name == name && IsFifo(q) == FifoName(name)
    && (q.redrive.Some? ==>
          && q.redrive.value.target != name && FifoName(q.redrive.value.target) == FifoName(name)
          && 1 <= q.redrive.value.maxReceiveCount <= 1000)
  }

  ghost predicate LegalQueue(name: string, q: Queue) {
    ShapeOk(name, q) && SequenceOk(q)
  }

  ghost predicate Legal(queues: Queues) {
    forall n <- queues :: LegalQueue(n, queues[n])
  }

  /** Queue types and redrive policies are in order, whatever the messages. */
  ghost predicate Shaped(queues: Queues) {
    forall n <- queues :: ShapeOk(n, queues[n])
  }

  lemma SentKeepsShape(name: string, q: Queue, m: Sending, now: int, id: string)
    requires ShapeOk(name, q) && SendError(q, m).None?
    ensures ShapeOk(name, Sent(q, m, now, id).0)
  {
    hide SendError, FifoName;
  }

  lemma ReceiveKeepsShape(queues: Queues, op: Op)
    requires op.Receive? && WellFormed(op) && Shaped(queues)
    ensures Shaped(Perform(queues, op).next)
  {
    if op.name in queues {
      hide ScanAll, FifoName;
      var q := queues[op.name];
      var c, dlq := Context(q, op.max, op.visibility, op.now, op.ids), DeadLetterQueue(queues, q);
      ReceiveConserves(c, dlq, q.messages);
      assert ShapeOk(op.name, q);
      if dlq.Some? { assert ShapeOk(q.redrive.value.target, dlq.value); }
    }
  }

  lemma AttributesKeepShape(queues: Queues, op: Op)
    requires (op.Create? || op.SetAttributes?) && Shaped(queues)
    ensures Shaped(Perform(queues, op).next)
  {
    if op.Create? {
      if op.name !in queues && ValidCreation(op.name, op.change.text) { LowerOfFlag(op.name, op.change.text); }
    } else if op.name in queues {
      assert ShapeOk(op.name, queues[op.name]);
    }
  }

  /** No operation makes a queue its own dead-letter target, mixes types or breaks the name rule. */
  lemma PerformKeepsShape(queues: Queues, op: Op)
    requires WellFormed(op) && Shaped(queues)
    ensures Shaped(Perform(queues, op).next)
  {
    hide FifoName, Sent, SendError, FindReceipt, ScanAll;
    if op.Receive? {
      ReceiveKeepsShape(queues, op);
    } else if op.Create? || op.SetAttributes? {
      AttributesKeepShape(queues, op);
    } else if op.Send? && op.name in queues && SendError(queues[op.name], op.sending).None? {
      SentKeepsShape(op.name, queues[op.name], op.sending, op.now, op.id);
    }
  }

  lemma PutLegal(queues: Queues, name: string, q: Queue)
    requires Legal(queues) && LegalQueue(name, q)
    ensures Legal(queues[name := q])
  {
  }

  /** How many messages go to the dead-letter queue. */
  function Exhaustions(fates: seq<Fate>): nat {
    if fates == [] then 0 else Exhaustions(fates[..|fates| - 1]) + (if fates[|fates| - 1].Exhausted? then 1 else 0)
  }

  /** Every number that this operation draws fits in the counter it is drawn from: a FIFO send that
      enqueues draws one, a receive one for every message it redrives into a FIFO queue. */
  ghost predicate HasRoom(queues: Queues, op: Op) {
    && WellFormed(op)
    && (op.Send? && op.name in queues && Draws(queues[op.name], op) ==> queues[op.name].nextSeq + 1 < WRAP)
    && (op.Receive? && op.name in queues ==>
          var q := queues[op.name];
          var dlq := DeadLetterQueue(queues, q);
          dlq.Some? && IsFifo(dlq.value) ==>
            dlq.value.nextSeq + Exhaustions(Fates(Context(q, op.max, op.visibility, op.now, op.ids), dlq, q.messages)) < WRAP)
  }

  /** A send that enqueues into a FIFO queue. */
  predicate Draws(q: Queue, op: Op)
    requires op.Send?
  {
    IsFifo(q) && SendError(q, op.sending).None? && Sent(q, op.sending, op.now, op.id).2.Enqueued?
  }

  ghost predicate Below(messages: seq<Message>, m: Message) {
    m.seqNo.Some? ==> forall i :: 0 <= i < |messages| && messages[i].seqNo.Some? ==> messages[i].seqNo.value < m.seqNo.value
  }

  lemma VisitStaysNumbered(c: Receiving, s: Scan, m: Message, next: nat)
    requires c.max <= |c.ids| && Numbered(s.remaining, next) && Below(s.remaining, m)
    requires m.seqNo.Some? ==> m.seqNo.value <= next
    ensures var s' := Visit(c, s, m);
            && Numbered(s'.remaining, next)
            && s.remaining <= s'.remaining
            && forall i :: |s.remaining| <= i < |s'.remaining| ==> s'.remaining[i].seqNo == m.seqNo
  {
  }

  lemma BelowGrows(before: seq<Message>, after: seq<Message>, m: Message, later: Message)
    requires before <= after && Below(before, later)
    requires forall i :: |before| <= i < |after| ==> after[i].seqNo == m.seqNo
    requires m.seqNo.Some? && later.seqNo.Some? ==> m.seqNo.value < later.seqNo.value
    ensures Below(after, later)
  {
  }

  /** After `n` iterations the kept numbers are below those still to come. */
  lemma {:induction false} RemainingStaysNumbered(c: Receiving, dlq: Option<Queue>, messages: seq<Message>, next: nat, n: nat)
    requires c.max <= |c.ids| && n <= |messages| && Numbered(messages, next)
    ensures Numbered(ScanAll(c, dlq, messages[..n]).remaining, next)
    ensures forall k :: n <= k < |messages| ==> Below(ScanAll(c, dlq, messages[..n]).remaining, messages[k])
    ensures Unnumbered(messages) ==> Unnumbered(ScanAll(c, dlq, messages[..n]).remaining)
  {
    if n > 0 {
      hide Visit;
      RemainingStaysNumbered(c, dlq, messages, next, n - 1);
      assert messages[..n][..n - 1] == messages[..n - 1];
      var s0 := ScanAll(c, dlq, messages[..n - 1]);
      assert Below(s0.remaining, messages[n - 1]);
      VisitStaysNumbered(c, s0, messages[n - 1], next);
      assert forall k :: n <= k < |messages| && messages[n - 1].seqNo.Some? && messages[k].seqNo.Some? ==>
          messages[n - 1].seqNo.value < messages[k].seqNo.value;
      assert ScanAll(c, dlq, messages[..n]) == Visit(c, s0, messages[n - 1]);
      var s1 := ScanAll(c, dlq, messages[..n]);
      hide ScanAll, Numbered;
      forall k | n <= k < |messages| ensures Below(s1.remaining, messages[k]) {
        assert Below(s0.remaining, messages[k]);
        BelowGrows(s0.remaining, s1.remaining, messages[n - 1], messages[k]);
      }
    }
  }

  /** A redriven message keeps the target's numbers in order exactly when the counter has room or no
      message in the target carries a number. */
  lemma RedrivenKeepsNumbersIff(name: string, dlq: Queue, m: Message, now: int)
    requires IsFifo(dlq) && LegalQueue(name, dlq)
    ensures LegalQueue(name, Redriven(dlq, m, now)) <==> dlq.nextSeq + 1 < WRAP || Unnumbered(dlq.messages)
  {
    hide FifoName, Lower, DedupKey;
    var dlq', n := Redriven(dlq, m, now), |dlq.messages|;
    assert dlq'.messages[n].seqNo == Some(NextSeq(dlq.nextSeq));
    assert forall i :: 0 <= i < n ==> dlq'.messages[i] == dlq.messages[i];
    assert IsFifo(dlq');
  }

  lemma RedrivenStaysNumbered(dlq: Queue, m: Message, now: int)
    requires SequenceOk(dlq) && (IsFifo(dlq) ==> dlq.nextSeq + 1 < WRAP) && (IsFifo(dlq) || m.seqNo.None?)
    ensures var dlq' := Redriven(dlq, m, now);
            SequenceOk(dlq') && dlq'.nextSeq == (if IsFifo(dlq) then dlq.nextSeq + 1 else dlq.nextSeq) && IsFifo(dlq') == IsFifo(dlq)
  {
    hide FifoName, Lower, DedupKey;
  }

  lemma {:induction false} DeadLetterStaysNumbered(c: Receiving, dlq: Queue, messages: seq<Message>)
    requires c.max <= |c.ids| && SequenceOk(dlq)
    requires IsFifo(dlq) ==> dlq.nextSeq + Exhaustions(Fates(c, Some(dlq), messages)) < WRAP
    requires IsFifo(dlq) || Unnumbered(messages)
    ensures ScanAll(c, Some(dlq), messages).deadLetter.Some?
    ensures var dlq' := ScanAll(c, Some(dlq), messages).deadLetter.value;
            && Grew(Some(dlq), Some(dlq')) && SequenceOk(dlq') && IsFifo(dlq') == IsFifo(dlq)
            && dlq'.nextSeq == dlq.nextSeq + (if IsFifo(dlq) then Exhaustions(Fates(c, Some(dlq), messages)) else 0)
  {
    if messages != [] {
      var n := |messages| - 1;
      var before, m := messages[..n], messages[n];
      var s0 := ScanAll(c, Some(dlq), before);
      assert Fates(c, Some(dlq), messages)[..n] == Fates(c, Some(dlq), before);
      assert ScanAll(c, Some(dlq), messages) == Visit(c, s0, m) && Fates(c, Some(dlq), messages)[n] == FateOf(c, s0, m);
      hide SequenceOk, IsFifo, ScanAll, Fates, Redriven;
      DeadLetterStaysNumbered(c, dlq, before);
      if FateOf(c, s0, m).Exhausted? {
        RedrivenStaysNumbered(s0.deadLetter.value, m, c.now);
        RedrivenGrows(dlq, s0.deadLetter.value, m, c.now);
      }
    }
  }

  lemma RedrivenGrows(dlq: Queue, grown: Queue, m: Message, now: int)
    requires Grew(Some(dlq), Some(grown))
    ensures Grew(Some(dlq), Some(Redriven(grown, m, now)))
  {
    hide IsFifo;
  }

  lemma ReceiveKeepsLegal(queues: Queues, op: Op)
    requires op.Receive? && WellFormed(op) && Legal(queues) && HasRoom(queues, op)
    ensures Legal(Perform(queues, op).next)
  {
    if op.name in queues {
      var q := queues[op.name];
      var c, dlq := Context(q, op.max, op.visibility, op.now, op.ids), DeadLetterQueue(queues, q);
      var s := ScanAll(c, dlq, q.messages);
      assert LegalQueue(op.name, q);
      RemainingStaysNumbered(c, dlq, q.messages, q.nextSeq, |q.messages|);
      assert q.messages[..|q.messages|] == q.messages;
      assert LegalQueue(op.name, q.(messages := s.remaining));
      if dlq.Some? {
        assert LegalQueue(q.redrive.value.target, dlq.value);
        DeadLetterStaysNumbered(c, dlq.value, q.messages);
        PutLegal(queues, q.redrive.value.target, s.deadLetter.value);
        PutLegal(queues[q.redrive.value.target := s.deadLetter.value], op.name, q.(messages := s.remaining));
      } else {
        NoDeadLetterQueue(c, q.messages);
        PutLegal(queues, op.name, q.(messages := s.remaining));
      }
    }
  }

  lemma {:induction false} NoDeadLetterQueue(c: Receiving, messages: seq<Message>)
    requires c.max <= |c.ids|
    ensures ScanAll(c, None, messages).deadLetter.None?
  {
    if messages != [] { NoDeadLetterQueue(c, messages[..|messages| - 1]); }
  }

  lemma LowerOfFlag(name: string, text: map<string, string>)
    requires ValidCreation(name, text)
    ensures IsFifo(Changed(NewQueue(name), AttributeChange(text, None, None, Unmentioned))) == FifoName(name)
  {
    assert Lower("true") == "true";
    assert Lower("") == "";
  }

  lemma AttributesKeepLegal(queues: Queues, op: Op)
    requires (op.Create? || op.SetAttributes?) && WellFormed(op) && Legal(queues)
    ensures Legal(Perform(queues, op).next)
  {
    hide ValidFifoAttributes;
    if op.Create? {
      if op.name !in queues && ValidCreation(op.name, op.change.text) && ValidRedrive(queues, op.name, op.change.redrive) {
        LowerOfFlag(op.name, op.change.text);
        var q := Changed(NewQueue(op.name), op.change);
        PutLegal(queues, op.name, q);
      }
    } else if op.name in queues && "FifoQueue" !in op.change.text && ValidRedrive(queues, op.name, op.change.redrive) {
      var q, q' := queues[op.name], Changed(queues[op.name], op.change);
      assert LegalQueue(op.name, q);
      PutLegal(queues, op.name, q');
    }
  }

  lemma SentKeepsLegal(name: string, q: Queue, m: Sending, now: int, id: string)
    requires SendError(q, m).None? && LegalQueue(name, q)
    requires IsFifo(q) && Sent(q, m, now, id).2.Enqueued? ==> q.nextSeq + 1 < WRAP
    ensures LegalQueue(name, Sent(q, m, now, id).0)
  {
  }

  /** At the wrap of the counter: a send that enqueues keeps the numbers in order exactly when the
      counter has room or no message in the queue carries a number. */
  lemma SentKeepsNumbersIff(name: string, q: Queue, m: Sending, now: int, id: string)
    requires SendError(q, m).None? && IsFifo(q) && LegalQueue(name, q) && Sent(q, m, now, id).2.Enqueued?
    ensures LegalQueue(name, Sent(q, m, now, id).0) <==> q.nextSeq + 1 < WRAP || Unnumbered(q.messages)
  {
    if q.nextSeq + 1 < WRAP {
      SentKeepsLegal(name, q, m, now, id);
    } else {
      hide SendError, FifoName;
      var q', n := Sent(q, m, now, id).0, |q.messages|;
      assert q'.nextSeq == 0 && q'.messages[n].seqNo == Some(0);
      assert forall i :: 0 <= i < n ==> q'.messages[i] == q.messages[i];
    }
  }

  lemma SendKeepsLegal(queues: Queues, op: Op)
    requires op.Send? && WellFormed(op) && Legal(queues) && HasRoom(queues, op)
    ensures Legal(Perform(queues, op).next)
  {
    if op.name in queues && SendError(queues[op.name], op.sending).None? {
      var q := queues[op.name];
      assert LegalQueue(op.name, q);
      SentKeepsLegal(op.name, q, op.sending, op.now, op.id);
      PutLegal(queues, op.name, Sent(q, op.sending, op.now, op.id).0);
    }
  }

  lemma EditKeepsNumbers(q: Queue, i: nat, visibleAt: int)
    requires i < |q.messages| && SequenceOk(q)
    ensures SequenceOk(q.(messages := q.messages[..i] + q.messages[i + 1..]))
    ensures SequenceOk(q.(messages := q.messages[i := q.messages[i].(visibleAt := visibleAt)]))
  {
  }

  /** The queue after its `i`-th message is deleted or made visible at another time. */
  function Edited(q: Queue, op: Op, i: nat): Queue
    requires (op.DeleteMessage? || op.ChangeVisibility?) && i < |q.messages|
  {
    q.(messages := if op.DeleteMessage? then q.messages[..i] + q.messages[i + 1..]
                   else q.messages[i := q.messages[i].(visibleAt := op.now + Seconds(op.seconds))])
  }

  lemma PerformEdits(queues: Queues, op: Op)
    requires op.DeleteMessage? || op.ChangeVisibility?
    ensures var next := Perform(queues, op).next;
            if op.name in queues && FindReceipt(queues[op.name].messages, op.receipt) < |queues[op.name].messages|
            then next == queues[op.name := Edited(queues[op.name], op, FindReceipt(queues[op.name].messages, op.receipt))]
            else next == queues
  {
    hide FindReceipt;
  }

  lemma EditKeepsOther(q: Queue, op: Op, k: nat, i: nat)
    requires (op.DeleteMessage? || op.ChangeVisibility?) && k < |q.messages| && i < |q.messages| && i != k
    ensures q.messages[i] in Edited(q, op, k).messages
  {
    var after := Edited(q, op, k).messages;
    assert after[if op.DeleteMessage? && i > k then i - 1 else i] == q.messages[i];
  }

  /** With a receipt handle that is not empty, a deletion or a change of visibility leaves alone every
      message that has none, that is, was not received since it was queued. */
  lemma UnreceivedAreNotEdited(queues: Queues, op: Op, i: nat)
    requires (op.DeleteMessage? || op.ChangeVisibility?) && op.receipt != "" && op.name in queues
    requires i < |queues[op.name].messages| && queues[op.name].messages[i].receipt == ""
    ensures op.name in Perform(queues, op).next && queues[op.name].messages[i] in Perform(queues, op).next[op.name].messages
  {
    hide Perform;
    PerformEdits(queues, op);
    var q := queues[op.name];
    var k := FindReceipt(q.messages, op.receipt);
    hide FindReceipt, Edited;
    if k < |q.messages| {
      EditKeepsOther(q, op, k, i);
    } else {
      assert q.messages[i] in q.messages;
    }
  }

  /** With an empty one, it takes the first of them. */
  lemma EmptyReceiptTakesUnreceived(queues: Queues, op: Op, i: nat)
    requires (op.DeleteMessage? || op.ChangeVisibility?) && op.receipt == "" && op.name in queues
    requires i < |queues[op.name].messages| && queues[op.name].messages[i].receipt == ""
    requires forall j :: 0 <= j < i ==> queues[op.name].messages[j].receipt != ""
    ensures Perform(queues, op) == Write(queues[op.name := Edited(queues[op.name], op, i)], true)
  {
    assert FindReceipt(queues[op.name].messages, "") == i;
    hide FindReceipt;
  }

  lemma EditKeepsLegal(queues: Queues, op: Op)
    requires (op.DeleteMessage? || op.ChangeVisibility?) && Legal(queues)
    ensures Legal(Perform(queues, op).next)
  {
    hide Perform;
    PerformEdits(queues, op);
    if op.name in queues && FindReceipt(queues[op.name].messages, op.receipt) < |queues[op.name].messages| {
      var q, i := queues[op.name], FindReceipt(queues[op.name].messages, op.receipt);
      assert LegalQueue(op.name, q);
      EditKeepsNumbers(q, i, if op.ChangeVisibility? then op.now + Seconds(op.seconds) else 0);
      hide SequenceOk, FifoName, Lower;
      PutLegal(queues, op.name, Edited(q, op, i));
    }
  }

  lemma EmptyingKeepsLegal(queues: Queues, op: Op)
    requires (op.Delete? || op.ResetWorkload? || op.Reset?) && Legal(queues)
    ensures Legal(Perform(queues, op).next)
  {
    hide FifoName, Lower;
    if op.ResetWorkload? {
      forall n | n in queues ensures LegalQueue(n, Emptied(queues[n])) {
        assert LegalQueue(n, queues[n]);
      }
    }
  }

  lemma NotifiedIsLegal(name: string, q: Queue, body: string, now: int, id: string)
    requires LegalQueue(name, q)
    ensures LegalQueue(name, Notified(q, body, now, id))
  {
    hide FifoName, Lower;
  }

  lemma PurgedIsLegal(name: string, q: Queue)
    requires LegalQueue(name, q)
    ensures LegalQueue(name, q.(messages := []))
  {
    hide FifoName, Lower;
  }

  lemma AppendingKeepsLegal(queues: Queues, op: Op)
    requires (op.Purge? || op.Notify?) && Legal(queues)
    ensures Legal(Perform(queues, op).next)
  {
    if op.name in queues {
      var q := queues[op.name];
      var q' := if op.Purge? then q.(messages := []) else Notified(q, op.body, op.now, op.id);
      assert Perform(queues, op).next == queues[op.name := q'];
      assert LegalQueue(op.name, q);
      hide Perform, LegalQueue;
      if op.Notify? { NotifiedIsLegal(op.name, q, op.body, op.now, op.id); } else { PurgedIsLegal(op.name, q); }
      PutLegal(queues, op.name, q');
    }
  }

  /** Every operation keeps the queue shapes and the sequence numbers. */
  lemma PerformKeepsLegal(queues: Queues, op: Op)
    requires WellFormed(op) && Legal(queues) && HasRoom(queues, op)
    ensures Legal(Perform(queues, op).next)
  {
    hide Perform, Legal;
    if op.Receive? {
      ReceiveKeepsLegal(queues, op);
    } else if op.Create? || op.SetAttributes? {
      AttributesKeepLegal(queues, op);
    } else if op.Send? {
      SendKeepsLegal(queues, op);
    } else if op.DeleteMessage? || op.ChangeVisibility? {
      EditKeepsLegal(queues, op);
    } else if op.Purge? || op.Notify? {
      AppendingKeepsLegal(queues, op);
    } else {
      EmptyingKeepsLegal(queues, op);
    }
  }
}
