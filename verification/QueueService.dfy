/** The store's queue methods: queues changed in place by loops, proved against `Queues.Advance`. */
module QueueService {
  import opened Common
  import opened Durable
  import opened Queues
  import QueueDelivery
  import QueueProofs

  /** The redrive policy that an accepted request leaves. */
  predicate Configured(queues: Queues, name: string, before: Option<RedrivePolicy>, change: AttributeChange, after: Option<RedrivePolicy>) {
    match change.redrive
    case Policy(p) => after == Some(p) && 1 <= p.maxReceiveCount <= 1000 && p.target in queues && p.target != name
    case Blank => after == None
    case _ => after == before
  }

  /** `i` is the first message with this receipt handle. */
  ghost predicate First(messages: seq<Message>, receipt: string, i: nat) {
    i < |messages| && messages[i].receipt == receipt && forall j :: 0 <= j < i ==> messages[j].receipt != receipt
  }

  /** A deletion or a change of visibility edits the first message with the handle. */
  lemma EditsFirst(queues: Queues, op: Op, i: nat)
    requires (op.DeleteMessage? || op.ChangeVisibility?) && op.name in queues && i == FindReceipt(queues[op.name].messages, op.receipt)
    requires i < |queues[op.name].messages|
    ensures First(queues[op.name].messages, op.receipt, i)
    ensures Perform(queues, op) == Write(queues[op.name := QueueProofs.Edited(queues[op.name], op, i)], true)
  {
  }

  lemma EditsNone(queues: Queues, op: Op)
    requires op.DeleteMessage? || op.ChangeVisibility?
    requires op.name in queues ==> FindReceipt(queues[op.name].messages, op.receipt) == |queues[op.name].messages|
    ensures Perform(queues, op) == Write(queues, false)
    ensures op.name in queues ==> forall m <- queues[op.name].messages :: m.receipt != op.receipt
  {
  }

  class QueueStore {
    var queues: Queues
    var committed: Queues

    ghost function Now(): Store<Queues>
      reads this
    {
      Store(queues, committed)
    }

    constructor ()
      ensures Now() == Store(map[], map[])
    {
      queues, committed := map[], map[];
    }

    /** `saveLocked`: the rename either happens, or the committed state is loaded again. */
    method Save(ok: bool)
      modifies this
      ensures Now() == Settle(old(Now()), Write(old(queues), true), ok)
    {
      if ok {
        committed := queues;
      } else {
        queues := committed;
      }
    }

    method CreateQueue(name: string, change: AttributeChange, saveOk: bool) returns (r: Result<Queue, Error>)
      modifies this
      ensures Now() == Advance(old(Now()), Step(Create(name, change), saveOk))
      ensures r.Ok? ==> name in queues && r.value == queues[name]
      ensures r.Ok? && name in old(queues) ==> queues == old(queues)
      ensures r.Ok? && name !in old(queues) ==>
                && queues == old(queues)[name := r.value] && r.value.messages == [] && r.value.dedup == map[] && r.value.nextSeq == 0
                && r.value.delaySeconds == (if change.delaySeconds.Some? then change.delaySeconds.value else 0)
                && r.value.visibilityTimeout == (if change.visibilityTimeout.Some? then change.visibilityTimeout.value else 30)
                && Configured(old(queues), name, None, change, r.value.redrive)
      ensures r == Err(InvalidQueueAttribute) <==>
                name !in old(queues) && !(ValidCreation(name, change.text) && ValidRedrive(old(queues), name, change.redrive))
    {
      if name in queues {
        return Ok(queues[name]);
      }
      if !ValidCreation(name, change.text) || !ValidRedrive(queues, name, change.redrive) {
        return Err(InvalidQueueAttribute);
      }
      var q := Changed(NewQueue(name), change);
      queues := queues[name := q];
      Save(saveOk);
      r := if saveOk then Ok(q) else Err(SaveFailed);
    }

    method SetQueueAttributes(name: string, change: AttributeChange, saveOk: bool) returns (error: Option<Error>)
      modifies this
      ensures Now() == Advance(old(Now()), Step(SetAttributes(name, change), saveOk))
      ensures name !in old(queues) ==> error == Some(QueueNotFound)
      ensures name in old(queues) ==>
                var q := old(queues)[name];
                var valid := && "FifoQueue" !in change.text && ValidFifoAttributes(IsFifo(q), change.text, q.attributes)
                             && ValidRedrive(old(queues), name, change.redrive);
                error == if !valid then Some(InvalidQueueAttribute) else if saveOk then None else Some(SaveFailed)
      ensures error.None? ==>
                var q := old(queues)[name];
                && name in queues && queues == old(queues)[name := queues[name]]
                && queues[name].messages == q.messages && queues[name].dedup == q.dedup && queues[name].nextSeq == q.nextSeq
                && queues[name].attributes == q.attributes + change.text
                && queues[name].delaySeconds == (if change.delaySeconds.Some? then change.delaySeconds.value else q.delaySeconds)
                && queues[name].visibilityTimeout
                   == (if change.visibilityTimeout.Some? then change.visibilityTimeout.value else q.visibilityTimeout)
                && Configured(old(queues), name, q.redrive, change, queues[name].redrive)
    {
      if name !in queues {
        return Some(QueueNotFound);
      }
      var q := queues[name];
      if "FifoQueue" in change.text || !ValidFifoAttributes(IsFifo(q), change.text, q.attributes)
         || !ValidRedrive(queues, name, change.redrive) {
        return Some(InvalidQueueAttribute);
      }
      queues := queues[name := Changed(q, change)];
      Save(saveOk);
      error := if saveOk then None else Some(SaveFailed);
    }

    method DeleteQueue(name: string, saveOk: bool) returns (error: Option<Error>)
      modifies this
      ensures Now() == Advance(old(Now()), Step(Delete(name), saveOk))
      ensures error.None? ==> queues == old(queues) - {name} && committed == queues
      ensures error == if name !in old(queues) then Some(QueueNotFound) else if saveOk then None else Some(SaveFailed)
    {
      if name !in queues {
        return Some(QueueNotFound);
      }
      queues := queues - {name};
      Save(saveOk);
      error := if saveOk then None else Some(SaveFailed);
    }

    method PurgeQueue(name: string, saveOk: bool) returns (error: Option<Error>)
      modifies this
      ensures Now() == Advance(old(Now()), Step(Purge(name), saveOk))
      ensures error.None? ==> name in old(queues) && queues == old(queues)[name := old(queues)[name].(messages := [])] == committed
      ensures error == if name !in old(queues) then Some(QueueNotFound) else if saveOk then None else Some(SaveFailed)
    {
      if name !in queues {
        return Some(QueueNotFound);
      }
      queues := queues[name := queues[name].(messages := [])];
      Save(saveOk);
      error := if saveOk then None else Some(SaveFailed);
    }

    /** Deletes the expired records one by one. */
    static method Prune(dedup: map<string, DedupRecord>, now: int) returns (pruned: map<string, DedupRecord>)
      ensures pruned == Unexpired(dedup, now)
    {
      pruned := dedup;
      var todo := dedup.Keys;
      while todo != {}
        invariant todo <= dedup.Keys && pruned.Keys <= dedup.Keys
        invariant forall k <- pruned :: pruned[k] == dedup[k]
        invariant forall k <- dedup :: k in pruned <==> k in todo || dedup[k].expiresAt > now
        decreases |todo|
      {
        var key :| key in todo;
        todo := todo - {key};
        if dedup[key].expiresAt <= now {
          pruned := pruned - {key};
        }
      }
    }

    method SendMessage(name: string, m: Sending, now: int, id: string, saveOk: bool) returns (r: Result<SendReply, Error>)
      modifies this
      ensures Now() == Advance(old(Now()), Step(Send(name, m, now, id), saveOk))
      ensures name !in old(queues) ==> r == Err(QueueNotFound)
      ensures name in old(queues) && SendError(old(queues)[name], m).Some? ==> r == Err(SendError(old(queues)[name], m).value)
      ensures name in old(queues) && SendError(old(queues)[name], m).None? ==>
                var (_, saves, reply) := Sent(old(queues)[name], m, now, id);
                r == if saves && !saveOk then Err(SaveFailed) else Ok(reply)
      ensures r.Ok? ==> name in queues && queues == old(queues)[name := queues[name]]
                        && QueueDelivery.SendsAs(old(queues)[name], m, now, id, r.value, queues[name])
    {
      if name !in queues {
        return Err(QueueNotFound);
      }
      var q := queues[name];
      var error := SendError(q, m);
      if error.Some? {
        return Err(error.value);
      }
      QueueDelivery.SentSendsAs(q, m, now, id);
      var message := NewMessage(q, m, now, id);
      if IsFifo(q) {
        var pruned := Prune(q.dedup, now);
        var key := DedupKey(q.attributes, m.group, ChosenDedupId(m));
        if key in pruned {
          queues := queues[name := q.(dedup := pruned)];
          return Ok(Duplicate(pruned[key].id, pruned[key].seqNo));
        }
        q := q.(nextSeq := NextSeq(q.nextSeq), messages := q.messages + [message]);
        q := q.(dedup := pruned[key := DedupRecord(id, q.nextSeq, now + WINDOW)]);
      } else {
        q := q.(messages := q.messages + [message]);
      }
      queues := queues[name := q];
      Save(saveOk);
      r := if saveOk then Ok(Enqueued(message)) else Err(SaveFailed);
    }

    /** The receive loop: builds `remaining` and `result`, blocks groups, and appends to the dead-letter queue. */
    static method ScanMessages(messages: seq<Message>, c: Receiving, dlq: Option<Queue>)
      returns (remaining: seq<Message>, result: seq<Message>, deadLetter: Option<Queue>, changed: bool)
      requires c.max <= |c.ids|
      ensures var s := ScanAll(c, dlq, messages);
              remaining == s.remaining && result == s.result && deadLetter == s.deadLetter && changed == s.changed
    {
      var blocked: set<string> := {};
      remaining, result, deadLetter, changed := [], [], dlq, false;
      var i := 0;
      while i < |messages|
        invariant i <= |messages|
        invariant Scan(remaining, result, blocked, deadLetter, changed) == ScanAll(c, dlq, messages[..i])
      {
        var message := messages[i];
        assert messages[..i + 1][..i] == messages[..i];
        assert ScanAll(c, dlq, messages[..i + 1]) == Visit(c, ScanAll(c, dlq, messages[..i]), message);
        i := i + 1;
        if c.fifo && message.group in blocked {
          assert blocked + {message.group} == blocked;
          remaining := remaining + [message];
          continue;
        }
        if message.visibleAt > c.now {
          remaining := remaining + [message];
          if c.fifo {
            blocked := blocked + {message.group};
          }
          continue;
        }
        if deadLetter.Some? && message.receiveCount >= c.maxReceiveCount {
          deadLetter := Some(Redriven(deadLetter.value, message, c.now));
          changed := true;
          continue;
        }
        if |result| < c.max {
          var handle := c.ids[|result|];
          message := message.(receiveCount := message.receiveCount + 1, receipt := handle, visibleAt := c.now + c.hiddenFor);
          result := result + [message];
          changed := true;
        } else if c.fifo {
          blocked := blocked + {message.group};
        }
        remaining := remaining + [message];
      }
      assert messages[..i] == messages;
    }

    method ReceiveMessages(name: string, max: int, visibility: int, now: int, ids: seq<string>, saveOk: bool)
      returns (r: Result<seq<Message>, Error>)
      requires |ids| >= Clamp(max)
      modifies this
      ensures Now() == Advance(old(Now()), Step(Receive(name, max, visibility, now, ids), saveOk))
      ensures name !in old(queues) ==> r == Err(QueueNotFound)
      ensures name in old(queues) ==>
                var q := old(queues)[name];
                var s := ScanAll(Context(q, max, visibility, now, ids), DeadLetterQueue(old(queues), q), q.messages);
                r == if s.changed && !saveOk then Err(SaveFailed) else Ok(s.result)
      ensures r.Ok? ==>
                QueueDelivery.Delivers(old(queues), name, QueueDelivery.RulesOf(old(queues), name, max, visibility, now), ids, r.value, queues)
    {
      if name !in queues {
        return Err(QueueNotFound);
      }
      QueueDelivery.ReceiveDelivers(queues, Receive(name, max, visibility, now, ids));
      var q := queues[name];
      var c := Context(q, max, visibility, now, ids);
      var deadLetter: Option<Queue> := None;
      if q.redrive.Some? && q.redrive.value.target in queues {
        deadLetter := Some(queues[q.redrive.value.target]);
      }
      var remaining, result, grown, changed := ScanMessages(q.messages, c, deadLetter);
      if grown.Some? && q.redrive.Some? {
        queues := queues[q.redrive.value.target := grown.value];
      }
      queues := queues[name := queues[name].(messages := remaining)];
      if changed {
        Save(saveOk);
        if !saveOk {
          return Err(SaveFailed);
        }
      }
      r := Ok(result);
    }

    static method IndexOfReceipt(messages: seq<Message>, receipt: string) returns (i: nat)
      ensures i == FindReceipt(messages, receipt)
    {
      i := 0;
      while i < |messages| && messages[i].receipt != receipt
        invariant i <= |messages| && forall j :: 0 <= j < i ==> messages[j].receipt != receipt
      {
        i := i + 1;
      }
    }

    method DeleteMessage(name: string, receipt: string, saveOk: bool) returns (error: Option<Error>)
      modifies this
      ensures Now() == Advance(old(Now()), Step(Op.DeleteMessage(name, receipt), saveOk))
      ensures error == Some(QueueNotFound) <==> name !in old(queues)
      ensures error == Some(ReceiptInvalid) <==>
                name in old(queues) && forall m <- old(queues)[name].messages :: m.receipt != receipt
      ensures error !in {Some(QueueNotFound), Some(ReceiptInvalid)} ==> error == if saveOk then None else Some(SaveFailed)
      ensures error.None? ==>
                exists i: nat :: First(old(queues)[name].messages, receipt, i)
                            && var q := old(queues)[name]; queues == old(queues)[name := q.(messages := q.messages[..i] + q.messages[i + 1..])]
    {
      hide Perform, FindReceipt;
      ghost var op := Op.DeleteMessage(name, receipt);
      if name !in queues {
        EditsNone(queues, op);
        return Some(QueueNotFound);
      }
      var q := queues[name];
      var i := IndexOfReceipt(q.messages, receipt);
      if i == |q.messages| {
        EditsNone(queues, op);
        return Some(ReceiptInvalid);
      }
      EditsFirst(queues, op, i);
      assert q.messages[i] in q.messages;
      queues := queues[name := q.(messages := q.messages[..i] + q.messages[i + 1..])];
      Save(saveOk);
      error := if saveOk then None else Some(SaveFailed);
    }

    method ChangeVisibility(name: string, receipt: string, seconds: int, now: int, saveOk: bool) returns (error: Option<Error>)
      modifies this
      ensures Now() == Advance(old(Now()), Step(Op.ChangeVisibility(name, receipt, seconds, now), saveOk))
      ensures error == Some(QueueNotFound) <==> name !in old(queues)
      ensures error == Some(ReceiptInvalid) <==>
                name in old(queues) && forall m <- old(queues)[name].messages :: m.receipt != receipt
      ensures error !in {Some(QueueNotFound), Some(ReceiptInvalid)} ==> error == if saveOk then None else Some(SaveFailed)
      ensures error.None? ==>
                exists i: nat :: First(old(queues)[name].messages, receipt, i)
                            && var q := old(queues)[name]; queues == old(queues)[name := q.(messages := q.messages[i := q.messages[i].(visibleAt := now + 1_000_000_000 * seconds)])]
    {
      hide Perform, FindReceipt;
      ghost var op := Op.ChangeVisibility(name, receipt, seconds, now);
      if name !in queues {
        EditsNone(queues, op);
        return Some(QueueNotFound);
      }
      var q := queues[name];
      var i := IndexOfReceipt(q.messages, receipt);
      if i == |q.messages| {
        EditsNone(queues, op);
        return Some(ReceiptInvalid);
      }
      EditsFirst(queues, op, i);
      assert q.messages[i] in q.messages;
      queues := queues[name := q.(messages := q.messages[i := q.messages[i].(visibleAt := now + Seconds(seconds))])];
      Save(saveOk);
      error := if saveOk then None else Some(SaveFailed);
    }
  }
}
