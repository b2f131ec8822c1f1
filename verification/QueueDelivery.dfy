/**
 What a receive returns, moves and leaves, said of the queue before the call alone, message by message;
 and what that means over runs: a message in flight is not returned again.
 */
module QueueDelivery {
  import opened Common
  import opened Durable
  import opened Queues
  import QueueProofs
  import Runs = QueueRuns

  /** The parameters of a call: the time, the greatest number of messages, until when the returned ones
      are hidden, whether the queue is FIFO, and the limit of a live redrive policy. */
  datatype Rules = Rules(now: int, max: nat, hiddenUntil: int, fifo: bool, limit: Option<int>)

  predicate Visible(r: Rules, m: Message) {
    m.visibleAt <= r.now
  }

  /** Received as often as the policy allows. */
  predicate Spent(r: Rules, m: Message) {
    r.limit.Some? && m.receiveCount >= r.limit.value
  }

  /** In a FIFO queue no message of the group in front of it is in flight or delayed. */
  predicate Open(r: Rules, messages: seq<Message>, i: nat)
    requires i < |messages|
  {
    r.fifo ==> forall j :: 0 <= j < i && messages[j].group == messages[i].group ==> Visible(r, messages[j])
  }

  predicate Eligible(r: Rules, messages: seq<Message>, i: nat)
    requires i < |messages|
  {
    Visible(r, messages[i]) && !Spent(r, messages[i]) && Open(r, messages, i)
  }

  /** How many of the first `n` messages are eligible. */
  function Rank(r: Rules, messages: seq<Message>, n: nat): nat
    requires n <= |messages|
  {
    if n == 0 then 0 else Rank(r, messages, n - 1) + if Eligible(r, messages, n - 1) then 1 else 0
  }

  /** The first `max` eligible messages are returned. */
  predicate Returned(r: Rules, messages: seq<Message>, i: nat)
    requires i < |messages|
  {
    Eligible(r, messages, i) && Rank(r, messages, i) < r.max
  }

  /** A message in front of the rest of its group that stays in the queue without being returned. */
  predicate Blocks(r: Rules, messages: seq<Message>, j: nat)
    requires j < |messages|
  {
    !Visible(r, messages[j]) || (Eligible(r, messages, j) && Rank(r, messages, j) >= r.max)
  }

  /** Visible spent messages are redriven unless their group is blocked. */
  predicate MovesOn(r: Rules, messages: seq<Message>, i: nat)
    requires i < |messages|
  {
    && Visible(r, messages[i]) && Spent(r, messages[i])
    && (r.fifo ==> forall j :: 0 <= j < i && messages[j].group == messages[i].group ==> !Blocks(r, messages, j))
  }

  /** A returned message: received once more, under a new receipt handle, and hidden. */
  function Handed(r: Rules, m: Message, receipt: string): Message {
    m.(receiveCount := m.receiveCount + 1, receipt := receipt, visibleAt := r.hiddenUntil)
  }

  /** The reply: the returned messages in queue order, the k-th under the k-th receipt handle drawn. */
  ghost predicate Replies(r: Rules, messages: seq<Message>, ids: seq<string>, n: nat, reply: seq<Message>)
    requires n <= |messages|
  {
    && |reply| == (if Rank(r, messages, n) < r.max then Rank(r, messages, n) else r.max) <= |ids|
    && forall i: nat :: i < n && Returned(r, messages, i) ==>
         Rank(r, messages, i) < |reply| && reply[Rank(r, messages, i)] == Handed(r, messages[i], ids[Rank(r, messages, i)])
  }

  /** What stays in the queue. */
  function Left(r: Rules, messages: seq<Message>, ids: seq<string>, n: nat): seq<Message>
    requires n <= |messages| && r.max <= |ids|
  {
    if n == 0 then []
    else
      var before, m := Left(r, messages, ids, n - 1), messages[n - 1];
      if MovesOn(r, messages, n - 1) then before
      else if Returned(r, messages, n - 1) then before + [Handed(r, m, ids[Rank(r, messages, n - 1)])]
      else before + [m]
  }

  /** What goes to the dead-letter queue, as it was. */
  function Gone(r: Rules, messages: seq<Message>, n: nat): seq<Message>
    requires n <= |messages|
  {
    if n == 0 then [] else Gone(r, messages, n - 1) + if MovesOn(r, messages, n - 1) then [messages[n - 1]] else []
  }

  /** A message on arrival: visible at once and without a receipt handle; in a FIFO target also
      renumbered, and under its own id for deduplication. */
  ghost predicate Moved(now: int, toFifo: bool, m: Message, m': Message) {
    && m'.id == m.id && m'.body == m.body && m'.group == m.group && m'.receiveCount == m.receiveCount
    && m'.receipt == "" && m'.visibleAt == now
    && (toFifo ==> m'.dedupId == m.id && m'.sentAt == now && m'.seqNo.Some?)
    && (!toFifo ==> m'.dedupId == m.dedupId && m'.sentAt == m.sentAt && m'.seqNo == m.seqNo)
  }

  /** Under what a FIFO queue remembers a redriven message. */
  function RecordKey(target: Queue, m: Message): string {
    if Attribute(target.attributes, "DeduplicationScope") == "messageGroup" then m.group + "\0" + m.id else m.id
  }

  /** No later one is remembered in its place. */
  ghost predicate LastOfKey(target: Queue, gone: seq<Message>, i: nat)
    requires i < |gone|
  {
    forall j :: i < j < |gone| ==> RecordKey(target, gone[j]) != RecordKey(target, gone[i])
  }

  ghost predicate RememberedAt(now: int, target: Queue, gone: seq<Message>, target': Queue, i: nat)
    requires i < |gone| && |target.messages| + i < |target'.messages|
  {
    var key, m' := RecordKey(target, gone[i]), target'.messages[|target.messages| + i];
    && key in target'.dedup && m'.seqNo.Some?
    && target'.dedup[key] == DedupRecord(gone[i].id, m'.seqNo.value, now + 300_000_000_000)
  }

  ghost predicate NotKeyed(target: Queue, gone: seq<Message>, k: string) {
    forall i :: 0 <= i < |gone| ==> RecordKey(target, gone[i]) != k
  }

  /** For five minutes a FIFO target takes a send under the id of a redriven message for a duplicate of it. */
  ghost predicate Remembered(now: int, target: Queue, gone: seq<Message>, target': Queue)
    requires |target'.messages| == |target.messages| + |gone|
  {
    && (forall i: nat :: i < |gone| && LastOfKey(target, gone, i) ==> RememberedAt(now, target, gone, target', i))
    && (forall k :: NotKeyed(target, gone, k) ==>
          (k in target'.dedup <==> k in target.dedup) && (k in target.dedup ==> target'.dedup[k] == target.dedup[k]))
  }

  /** The redriven messages stand behind the target's, in queue order. */
  ghost predicate Arrived(now: int, target: Queue, gone: seq<Message>, target': Queue) {
    var n := |target.messages|;
    && |target'.messages| == n + |gone| && target'.messages[..n] == target.messages
    && (forall i: nat :: i < |gone| ==> Moved(now, IsFifo(target), gone[i], target'.messages[n + i]))
    && target'.attributes == target.attributes
    && (if IsFifo(target) then Remembered(now, target, gone, target') else target'.dedup == target.dedup)
  }

  /** The parameters of a receive from the queue `name`: at most ten messages and at least one are asked
      for, and the queue's own timeout counts where the request has none. */
  function RulesOf(queues: Queues, name: string, max: int, visibility: int, now: int): Rules
    requires name in queues
  {
    var q := queues[name];
    Rules(now, if max < 1 then 1 else if max > 10 then 10 else max,
          now + 1_000_000_000 * (if visibility < 0 then q.visibilityTimeout else visibility),
          IsFifo(q),
          if q.redrive.Some? && q.redrive.value.target in queues then Some(q.redrive.value.maxReceiveCount) else None)
  }

  /** The reply and what the two queues hold afterwards. */
  ghost predicate Delivers(queues: Queues, name: string, r: Rules, ids: seq<string>, reply: seq<Message>, queues': Queues)
    requires name in queues && r.max <= |ids|
  {
    var q := queues[name];
    && Replies(r, q.messages, ids, |q.messages|, reply)
    && (q.redrive.None? || q.redrive.value.target != name ==>
          && queues'.Keys == queues.Keys && queues'[name] == q.(messages := Left(r, q.messages, ids, |q.messages|))
          && (forall n <- queues :: n != name && (q.redrive.Some? ==> n != q.redrive.value.target) ==> queues'[n] == queues[n])
          && (q.redrive.Some? && q.redrive.value.target in queues ==>
                var target := q.redrive.value.target;
                Arrived(r.now, queues[target], Gone(r, q.messages, |q.messages|), queues'[target])))
  }

  /* ------------------------------ The loop decides so ------------------------------ */

  lemma {:induction false} RankGrows(r: Rules, messages: seq<Message>, i: nat, n: nat)
    requires i <= n <= |messages|
    ensures Rank(r, messages, i) <= Rank(r, messages, n)
    decreases n
  {
    if i < n { RankGrows(r, messages, i, n - 1); }
  }

  ghost predicate Agrees(r: Rules, c: Receiving, dlq: Option<Queue>) {
    && r.now == c.now && r.max == c.max <= |c.ids| && r.hiddenUntil == c.now + c.hiddenFor && r.fifo == c.fifo
    && r.limit == if dlq.Some? then Some(c.maxReceiveCount) else None
  }

  /** The variables of the loop after `n` messages. */
  ghost predicate Progress(r: Rules, c: Receiving, dlq: Option<Queue>, messages: seq<Message>, n: nat, s: Scan)
    requires Agrees(r, c, dlq) && n <= |messages|
  {
    && Replies(r, messages, c.ids, n, s.result) && s.remaining == Left(r, messages, c.ids, n)
    && (r.fifo ==> forall g :: g in s.blocked <==> exists j: nat :: j < n && messages[j].group == g && Blocks(r, messages, j))
    && (s.changed <==> s.result != [] || Gone(r, messages, n) != [])
    && s.deadLetter.Some? == dlq.Some?
    && (dlq.Some? ==> Arrived(r.now, dlq.value, Gone(r, messages, n), s.deadLetter.value) && IsFifo(s.deadLetter.value) == IsFifo(dlq.value))
  }

  lemma FateIsDecided(r: Rules, c: Receiving, dlq: Option<Queue>, messages: seq<Message>, n: nat, s: Scan)
    requires Agrees(r, c, dlq) && n < |messages| && Progress(r, c, dlq, messages, n, s)
    ensures FateOf(c, s, messages[n]).Taken? <==> Returned(r, messages, n)
    ensures FateOf(c, s, messages[n]).Exhausted? <==> MovesOn(r, messages, n)
    ensures FateOf(c, s, messages[n]).Passed? ==> Blocks(r, messages, n)
    ensures r.fifo && Blocks(r, messages, n) ==> FateOf(c, s, messages[n]).Passed? || FateOf(c, s, messages[n]).Held?
    ensures r.fifo && FateOf(c, s, messages[n]).Held? ==> Blocks(r, messages, n) || messages[n].group in s.blocked
  {
    hide Left, Gone, Arrived, Rank;
    var m := messages[n];
    forall j: nat | j < n ensures Rank(r, messages, j) <= Rank(r, messages, n) { RankGrows(r, messages, j, n); }
    if r.fifo && m.group in s.blocked {
      var j: nat :| j < n && messages[j].group == m.group && Blocks(r, messages, j);
      assert Rank(r, messages, j) <= Rank(r, messages, n);
    }
  }

  lemma RankStep(r: Rules, messages: seq<Message>, n: nat)
    requires n < |messages|
    ensures Rank(r, messages, n + 1) == Rank(r, messages, n) + if Eligible(r, messages, n) then 1 else 0
  {
  }

  lemma RepliesAt(r: Rules, messages: seq<Message>, ids: seq<string>, n: nat, reply: seq<Message>, more: seq<Message>, i: nat)
    requires n < |messages| && r.max <= |ids| && Replies(r, messages, ids, n, reply) && i <= n
    requires Returned(r, messages, n) ==> |reply| < |ids|
    requires more == if Returned(r, messages, n) then [Handed(r, messages[n], ids[|reply|])] else []
    ensures |reply + more| == (if Rank(r, messages, n + 1) < r.max then Rank(r, messages, n + 1) else r.max)
    ensures Returned(r, messages, i) ==>
              Rank(r, messages, i) < |reply + more| <= |ids|
              && (reply + more)[Rank(r, messages, i)] == Handed(r, messages[i], ids[Rank(r, messages, i)])
  {
    hide Rank, Eligible, Handed;
    RankStep(r, messages, n);
    if i < n && Returned(r, messages, i) {
      assert reply[Rank(r, messages, i)] == Handed(r, messages[i], ids[Rank(r, messages, i)]);
    }
  }

  lemma RepliesSnoc(r: Rules, messages: seq<Message>, ids: seq<string>, n: nat, reply: seq<Message>)
    requires n < |messages| && r.max <= |ids| && Replies(r, messages, ids, n, reply)
    ensures Returned(r, messages, n) ==> |reply| == Rank(r, messages, n) < |ids|
    ensures Replies(r, messages, ids, n + 1, reply + if Returned(r, messages, n) then [Handed(r, messages[n], ids[|reply|])] else [])
  {
    var more := if Returned(r, messages, n) then [Handed(r, messages[n], ids[|reply|])] else [];
    hide Rank, Eligible, Handed;
    RepliesAt(r, messages, ids, n, reply, more, n);
    hide Returned;
    forall i: nat | i < n + 1 && Returned(r, messages, i)
      ensures Rank(r, messages, i) < |reply + more|
              && (reply + more)[Rank(r, messages, i)] == Handed(r, messages[i], ids[Rank(r, messages, i)])
    {
      RepliesAt(r, messages, ids, n, reply, more, i);
    }
  }

  /** What an iteration does to the reply and the queue, by fate. */
  lemma VisitDoes(c: Receiving, s: Scan, m: Message)
    requires c.max <= |c.ids|
    ensures var s', fate := Visit(c, s, m), FateOf(c, s, m);
            && (fate.Taken? ==>
                  && |s.result| < |c.ids|
                  && s'.result == s.result + [Delivered(c, m, |s.result|)] && s'.remaining == s.remaining + [Delivered(c, m, |s.result|)])
            && (!fate.Taken? ==> s'.result == s.result)
            && (fate.Exhausted? ==> s'.remaining == s.remaining)
            && (!fate.Taken? && !fate.Exhausted? ==> s'.remaining == s.remaining + [m])
  {
    hide Redriven;
  }

  lemma RepliesStep(r: Rules, c: Receiving, dlq: Option<Queue>, messages: seq<Message>, n: nat, s: Scan)
    requires Agrees(r, c, dlq) && n < |messages| && Progress(r, c, dlq, messages, n, s)
    ensures Replies(r, messages, c.ids, n + 1, Visit(c, s, messages[n]).result)
    ensures Visit(c, s, messages[n]).remaining == Left(r, messages, c.ids, n + 1)
  {
    FateIsDecided(r, c, dlq, messages, n, s);
    hide MovesOn, Gone, Arrived, Blocks, Rank, Eligible, Replies, Returned, FateOf, Visit;
    RepliesSnoc(r, messages, c.ids, n, s.result);
    VisitDoes(c, s, messages[n]);
    assert s.result + [] == s.result;
  }

  lemma BlockedStep(r: Rules, c: Receiving, dlq: Option<Queue>, messages: seq<Message>, n: nat, s: Scan)
    requires Agrees(r, c, dlq) && n < |messages| && Progress(r, c, dlq, messages, n, s) && r.fifo
    ensures forall g :: g in Visit(c, s, messages[n]).blocked
                        <==> exists j: nat :: j < n + 1 && messages[j].group == g && Blocks(r, messages, j)
  {
    hide Left, Gone, Arrived, Replies, Blocks;
    FateIsDecided(r, c, dlq, messages, n, s);
    var s' := Visit(c, s, messages[n]);
    forall g ensures g in s'.blocked <==> exists j: nat :: j < n + 1 && messages[j].group == g && Blocks(r, messages, j) {
      if j: nat :| j < n + 1 && messages[j].group == g && Blocks(r, messages, j) {
        assert j < n ==> g in s.blocked;
      }
    }
  }

  lemma RememberedSnoc(now: int, target: Queue, gone: seq<Message>, grown: Queue, m: Message)
    requires IsFifo(grown) && grown.attributes == target.attributes && |grown.messages| == |target.messages| + |gone|
    requires Remembered(now, target, gone, grown)
    ensures Remembered(now, target, gone + [m], Redriven(grown, m, now))
  {
    assert DedupKey(grown.attributes, m.group, m.id) == RecordKey(target, m);
    hide IsFifo, NextSeq, DedupKey, RecordKey;
    var grown', more := Redriven(grown, m, now), gone + [m];
    assert more[|gone|] == m && forall j :: 0 <= j < |gone| ==> more[j] == gone[j];
    forall i: nat | i < |more| && LastOfKey(target, more, i) ensures RememberedAt(now, target, more, grown', i) {
      if i < |gone| {
        assert LastOfKey(target, gone, i) && RememberedAt(now, target, gone, grown, i);
        assert grown'.messages[|target.messages| + i] == grown.messages[|target.messages| + i];
      }
    }
    forall k | NotKeyed(target, more, k) ensures k != RecordKey(target, m) && NotKeyed(target, gone, k) {
      assert RecordKey(target, more[|gone|]) != k;
      assert forall i :: 0 <= i < |gone| ==> RecordKey(target, more[i]) != k;
    }
  }

  lemma ArrivedSnoc(now: int, target: Queue, gone: seq<Message>, grown: Queue, m: Message)
    requires Arrived(now, target, gone, grown) && IsFifo(grown) == IsFifo(target)
    ensures Arrived(now, target, gone + [m], Redriven(grown, m, now)) && IsFifo(Redriven(grown, m, now)) == IsFifo(target)
  {
    hide DedupKey, Lower, FifoName, Remembered;
    if IsFifo(target) { RememberedSnoc(now, target, gone, grown, m); }
    var n, grown' := |target.messages|, Redriven(grown, m, now);
    assert grown'.messages == grown.messages + [DeadLettered(grown, m, now)];
    assert grown'.messages[..n] == grown.messages[..n];
    forall i: nat | i < |gone + [m]| ensures Moved(now, IsFifo(target), (gone + [m])[i], grown'.messages[n + i]) {
      if i < |gone| {
        assert Moved(now, IsFifo(target), gone[i], grown.messages[n + i]);
      }
    }
  }

  lemma ArrivedStep(r: Rules, c: Receiving, dlq: Option<Queue>, messages: seq<Message>, n: nat, s: Scan)
    requires Agrees(r, c, dlq) && n < |messages| && Progress(r, c, dlq, messages, n, s)
    ensures var s' := Visit(c, s, messages[n]);
            && (s'.changed <==> s'.result != [] || Gone(r, messages, n + 1) != [])
            && s'.deadLetter.Some? == dlq.Some?
            && (dlq.Some? ==> Arrived(r.now, dlq.value, Gone(r, messages, n + 1), s'.deadLetter.value)
                              && IsFifo(s'.deadLetter.value) == IsFifo(dlq.value))
  {
    hide Left, Replies, MovesOn, Returned, Blocks, IsFifo, Arrived, Redriven;
    FateIsDecided(r, c, dlq, messages, n, s);
    var gone, m := Gone(r, messages, n), messages[n];
    if FateOf(c, s, m).Exhausted? {
      ArrivedSnoc(c.now, dlq.value, gone, s.deadLetter.value, m);
    } else {
      assert Gone(r, messages, n + 1) == gone + [] == gone;
    }
  }

  lemma ProgressStep(r: Rules, c: Receiving, dlq: Option<Queue>, messages: seq<Message>, n: nat, s: Scan)
    requires Agrees(r, c, dlq) && n < |messages| && Progress(r, c, dlq, messages, n, s)
    ensures Progress(r, c, dlq, messages, n + 1, Visit(c, s, messages[n]))
  {
    hide Visit, Left, Gone, Replies, Arrived, Blocks, IsFifo;
    RepliesStep(r, c, dlq, messages, n, s);
    ArrivedStep(r, c, dlq, messages, n, s);
    if r.fifo { BlockedStep(r, c, dlq, messages, n, s); }
  }

  lemma ProgressStarts(r: Rules, c: Receiving, dlq: Option<Queue>, messages: seq<Message>)
    requires Agrees(r, c, dlq)
    ensures Progress(r, c, dlq, messages, 0, Scan([], [], {}, dlq, false))
  {
    hide IsFifo, RecordKey, Blocks;
    assert Rank(r, messages, 0) == 0 && Left(r, messages, c.ids, 0) == [] && Gone(r, messages, 0) == [];
    hide Rank, Left, Gone;
    if dlq.Some? {
      assert dlq.value.messages[..|dlq.value.messages|] == dlq.value.messages;
      assert Remembered(r.now, dlq.value, [], dlq.value);
      assert Arrived(r.now, dlq.value, [], dlq.value);
    }
  }

  /** The loop's variables after any prefix of the queue. */
  lemma {:induction false} LoopProgresses(r: Rules, c: Receiving, dlq: Option<Queue>, messages: seq<Message>, n: nat)
    requires Agrees(r, c, dlq) && n <= |messages|
    ensures Progress(r, c, dlq, messages, n, ScanAll(c, dlq, messages[..n]))
  {
    if n == 0 {
      hide Progress;
      ProgressStarts(r, c, dlq, messages);
    } else {
      hide Visit, Progress;
      LoopProgresses(r, c, dlq, messages, n - 1);
      assert messages[..n][..n - 1] == messages[..n - 1];
      ProgressStep(r, c, dlq, messages, n - 1, ScanAll(c, dlq, messages[..n - 1]));
    }
  }

  lemma ReceiveDelivers(queues: Queues, op: Op)
    requires op.Receive? && WellFormed(op) && op.name in queues
    ensures var r := RulesOf(queues, op.name, op.max, op.visibility, op.now);
            var q := queues[op.name];
            var s := ScanAll(Context(q, op.max, op.visibility, op.now, op.ids), DeadLetterQueue(queues, q), q.messages);
            && Delivers(queues, op.name, r, op.ids, s.result, Perform(queues, op).next)
            && (Perform(queues, op).saves <==> s.result != [] || Gone(r, q.messages, |q.messages|) != [])
  {
    hide ScanAll, Replies, Left, Gone, Arrived, IsFifo, FifoName;
    var r := RulesOf(queues, op.name, op.max, op.visibility, op.now);
    var q := queues[op.name];
    assert q.messages[..|q.messages|] == q.messages;
    LoopProgresses(r, Context(q, op.max, op.visibility, op.now, op.ids), DeadLetterQueue(queues, q), q.messages, |q.messages|);
  }

  /* ------------------------------ Sends ------------------------------ */

  /** The deduplication id of a request, or the digest of its body. */
  function DedupId(m: Sending): string {
    if m.dedupId != "" then m.dedupId else m.digest
  }

  /** `record` is the unexpired record of an earlier send with the same id, in the same group where
      the scope is the message group. */
  ghost predicate Repeats(q: Queue, m: Sending, now: int, record: DedupRecord) {
    var key := if Attribute(q.attributes, "DeduplicationScope") == "messageGroup" then m.group + "\0" + DedupId(m) else DedupId(m);
    key in q.dedup && q.dedup[key] == record && record.expiresAt > now
  }

  /** What an accepted send answers and leaves: a new message at the end, hidden for its delay, or in a
      FIFO queue inside the window of an earlier one the number of that one and no message. */
  ghost predicate SendsAs(q: Queue, m: Sending, now: int, id: string, reply: SendReply, q': Queue) {
    && (reply.Duplicate? <==> IsFifo(q) && exists record :: Repeats(q, m, now, record))
    && (match reply
        case Duplicate(firstId, firstNo) =>
          q'.messages == q.messages && exists record :: Repeats(q, m, now, record) && record.id == firstId && record.seqNo == firstNo
        case Enqueued(message) =>
          && q'.messages == q.messages + [message]
          && message.id == id && message.body == m.body && message.group == m.group
          && message.sentAt == now && message.visibleAt == now + 1_000_000_000 * (if m.delay < 0 then q.delaySeconds else m.delay)
          && message.receiveCount == 0 && message.receipt == ""
          && (if IsFifo(q) then
                && message.dedupId == DedupId(m) && message.seqNo == Some((q.nextSeq + 1) % 0x1_0000_0000_0000_0000)
                && Repeats(q', m, now, DedupRecord(id, q'.nextSeq, now + 300_000_000_000)) && message.seqNo == Some(q'.nextSeq)
              else message.dedupId == "" && message.seqNo == None))
  }

  lemma SentSendsAs(q: Queue, m: Sending, now: int, id: string)
    requires SendError(q, m).None?
    ensures var (q', _, reply) := Sent(q, m, now, id); SendsAs(q, m, now, id, reply, q')
  {
    hide SendError, FifoName, Lower;
    var (q', _, reply) := Sent(q, m, now, id);
    if reply.Duplicate? {
      assert Repeats(q, m, now, q.dedup[DedupKey(q.attributes, m.group, ChosenDedupId(m))]);
    }
  }

  /** Printable ASCII without blanks, 1 to 128 characters. */
  predicate Printable(text: string) {
    0 < |text| <= 128 && forall c <- text :: 0x21 <= c as int <= 0x7E
  }

  /** A send is accepted exactly when its delay is at most 15 minutes and, in a standard queue, it has
      no deduplication id; in a FIFO queue, no delay of its own, a group, and a deduplication id or
      content-based deduplication. */
  lemma SendAcceptedIff(q: Queue, m: Sending)
    ensures var delay := if m.delay < 0 then q.delaySeconds else m.delay;
            SendError(q, m).None? <==>
              && 0 <= delay <= 900
              && (!IsFifo(q) ==> m.dedupId == "")
              && (IsFifo(q) ==>
                    && (m.delaySpecified ==> delay == 0) && Printable(m.group) && Printable(DedupId(m))
                    && (m.dedupId == "" ==> Lower(Attribute(q.attributes, "ContentBasedDeduplication")) == "true"))
  {
    hide IsFifo, Lower;
    assert forall text :: Printable(text) <==> ValidIdentifier(text) by {
      forall text ensures Printable(text) <==> ValidIdentifier(text) {
        if ValidIdentifier(text) { assert forall c <- text :: '!' <= c <= '~'; }
        if Printable(text) { assert forall i :: 0 <= i < |text| ==> text[i] in text; }
      }
    }
  }

  /* ------------------------------ What a caller gets ------------------------------ */

  /** What a receive would return, were its save to go through. */
  ghost function Reply(queues: Queues, op: Op): seq<Message>
    requires op.Receive? && WellFormed(op) && op.name in queues
  {
    var q := queues[op.name];
    ScanAll(Context(q, op.max, op.visibility, op.now, op.ids), DeadLetterQueue(queues, q), q.messages).result
  }

  lemma {:induction false} ReplyIsReturned(r: Rules, messages: seq<Message>, ids: seq<string>, n: nat, reply: seq<Message>, k: nat) returns (i: nat)
    requires n <= |messages| && Replies(r, messages, ids, n, reply) && k < |reply|
    ensures i < n && Returned(r, messages, i) && Rank(r, messages, i) == k
    decreases n
  {
    hide Eligible;
    i := n - 1;
    if !(Eligible(r, messages, i) && Rank(r, messages, i) == k) {
      var shorter := if Rank(r, messages, i) < |reply| then reply[..Rank(r, messages, i)] else reply;
      forall j: nat | j < i ensures Rank(r, messages, j) <= Rank(r, messages, i)
        && (Eligible(r, messages, j) ==> Rank(r, messages, j) < Rank(r, messages, i)) {
        RankGrows(r, messages, j, i);
        RankGrows(r, messages, j + 1, i);
      }
      i := ReplyIsReturned(r, messages, ids, n - 1, shorter, k);
    }
  }

  /** Every message returned was visible, and in a FIFO queue so was all of its group in front of it; it
      keeps its id, body and group, counts one receive more and is hidden for the time asked for. */
  lemma OnlyVisibleAreReturned(queues: Queues, op: Op, k: nat) returns (i: nat)
    requires op.Receive? && WellFormed(op) && op.name in queues && k < |Reply(queues, op)|
    ensures k < |op.ids|
    ensures var q, m' := queues[op.name], Reply(queues, op)[k];
            && i < |q.messages| && q.messages[i].visibleAt <= op.now
            && (IsFifo(q) ==> forall j :: 0 <= j < i && q.messages[j].group == q.messages[i].group ==> q.messages[j].visibleAt <= op.now)
            && m'.id == q.messages[i].id && m'.body == q.messages[i].body && m'.group == q.messages[i].group
            && m'.receiveCount == q.messages[i].receiveCount + 1 && m'.receipt == op.ids[k]
            && m'.visibleAt == op.now + 1_000_000_000 * (if op.visibility < 0 then q.visibilityTimeout else op.visibility)
  {
    hide Perform, ScanAll, Rank, Left, Gone, IsFifo;
    ReceiveDelivers(queues, op);
    var r, q := RulesOf(queues, op.name, op.max, op.visibility, op.now), queues[op.name];
    i := ReplyIsReturned(r, q.messages, op.ids, |q.messages|, Reply(queues, op), k);
  }

  /* ------------------------------ Hidden messages over runs ------------------------------ */

  /** No message with this id becomes visible in the queue before `time`. */
  ghost predicate HiddenUntil(queues: Queues, name: string, id: string, time: int) {
    name in queues ==> forall m <- queues[name].messages :: m.id == id ==> m.visibleAt >= time
  }

  /** The operation queues no other message under the same id, changes no visibility of it, and if it
      receives from the queue, does so before `time`. */
  ghost predicate Leaves(queues: Queues, op: Op, name: string, id: string, time: int) {
    && ((op.Send? || op.Notify?) && op.name == name ==> op.id != id)
    && (Runs.RedrivesInto(queues, op, name) ==> forall m <- queues[op.name].messages :: m.id != id)
    && (op.ChangeVisibility? && op.name == name && name in queues ==>
          forall m <- queues[name].messages :: m.receipt == op.receipt ==> m.id != id)
    && (op.Receive? && op.name == name ==> op.now < time)
  }

  lemma {:induction false} LeftStaysHidden(r: Rules, messages: seq<Message>, ids: seq<string>, n: nat, id: string, time: int)
    requires n <= |messages| && r.max <= |ids| && r.now < time
    requires forall m <- messages :: m.id == id ==> m.visibleAt >= time
    ensures forall m <- Left(r, messages, ids, n) :: m.id == id ==> m.visibleAt >= time
  {
    if n > 0 { LeftStaysHidden(r, messages, ids, n - 1, id, time); }
  }

  lemma {:induction false} GoneIsFromQueue(r: Rules, messages: seq<Message>, n: nat)
    requires n <= |messages|
    ensures forall m <- Gone(r, messages, n) :: m in messages && m.visibleAt <= r.now
  {
    if n > 0 { GoneIsFromQueue(r, messages, n - 1); }
  }

  lemma ArrivedStaysHidden(now: int, target: Queue, gone: seq<Message>, target': Queue, id: string, time: int)
    requires Arrived(now, target, gone, target')
    requires forall m <- target.messages :: m.id == id ==> m.visibleAt >= time
    requires forall i :: 0 <= i < |gone| ==> gone[i].id != id
    ensures forall m <- target'.messages :: m.id == id ==> m.visibleAt >= time
  {
    hide IsFifo;
    var n, messages' := |target.messages|, target'.messages;
    forall m | m in messages' ensures m.id == id ==> m.visibleAt >= time {
      var i :| 0 <= i < |messages'| && messages'[i] == m;
      if i < n {
        assert m == messages'[..n][i] == target.messages[i];
      } else {
        assert Moved(now, IsFifo(target), gone[i - n], messages'[n + (i - n)]);
      }
    }
  }

  lemma ReceiveKeepsHidden(queues: Queues, op: Op, name: string, id: string, time: int)
    requires op.Receive? && WellFormed(op) && QueueProofs.Shaped(queues) && Leaves(queues, op, name, id, time)
    requires HiddenUntil(queues, name, id, time)
    ensures HiddenUntil(Perform(queues, op).next, name, id, time)
  {
    if op.name in queues {
      var q, next := queues[op.name], Perform(queues, op).next;
      var r := RulesOf(queues, op.name, op.max, op.visibility, op.now);
      assert QueueProofs.ShapeOk(op.name, q);
      ReceiveDelivers(queues, op);
      hide ScanAll, Replies, Left, Gone, IsFifo, FifoName, Perform;
      if op.name == name {
        LeftStaysHidden(r, q.messages, op.ids, |q.messages|, id, time);
      } else if Runs.RedrivesInto(queues, op, name) && name in queues {
        GoneIsFromQueue(r, q.messages, |q.messages|);
        ArrivedStaysHidden(r.now, queues[name], Gone(r, q.messages, |q.messages|), next[name], id, time);
      }
    }
  }

  lemma EditKeepsHidden(queues: Queues, op: Op, name: string, id: string, time: int)
    requires (op.DeleteMessage? || op.ChangeVisibility?) && Leaves(queues, op, name, id, time)
    requires HiddenUntil(queues, name, id, time)
    ensures HiddenUntil(Perform(queues, op).next, name, id, time)
  {
    hide Perform;
    QueueProofs.PerformEdits(queues, op);
    if op.name in queues && op.name == name {
      var q := queues[name];
      var i := FindReceipt(q.messages, op.receipt);
      if i < |q.messages| { assert q.messages[i] in q.messages; }
    }
  }

  lemma PerformKeepsHidden(queues: Queues, op: Op, name: string, id: string, time: int)
    requires WellFormed(op) && QueueProofs.Shaped(queues) && Leaves(queues, op, name, id, time)
    requires HiddenUntil(queues, name, id, time)
    ensures HiddenUntil(Perform(queues, op).next, name, id, time)
  {
    hide FindReceipt, ScanAll, SendError, FifoName, IsFifo, ValidCreation, ValidFifoAttributes, ValidRedrive, QueueProofs.Shaped;
    if op.Receive? {
      ReceiveKeepsHidden(queues, op, name, id, time);
    } else if op.DeleteMessage? || op.ChangeVisibility? {
      EditKeepsHidden(queues, op, name, id, time);
    }
  }

  ghost predicate HiddenStore(store: Store<Queues>, name: string, id: string, time: int) {
    HiddenUntil(store.live, name, id, time) && HiddenUntil(store.committed, name, id, time)
  }

  /** A hidden message stays hidden over every run of other operations, whichever saves fail. */
  lemma {:induction false} StaysHidden(states: seq<Store<Queues>>, steps: seq<Step<Op>>, name: string, id: string, time: int, i: nat, j: nat)
    requires Runs.IsRun(states, steps) && i <= j <= |steps| && HiddenStore(states[i], name, id, time)
    requires forall k :: i <= k < j ==> Leaves(states[k].live, steps[k].op, name, id, time)
    ensures HiddenStore(states[j], name, id, time)
    decreases j
  {
    if i < j {
      hide Perform, HiddenUntil, Leaves;
      StaysHidden(states, steps, name, id, time, i, j - 1);
      Runs.AlwaysShaped(states, steps, j - 1);
      Runs.RunStep(states, steps, j - 1);
      PerformKeepsHidden(states[j - 1].live, steps[j - 1].op, name, id, time);
    }
  }

  /** The queue's messages with this id are the one at index `i`. */
  ghost predicate OnlyAt(messages: seq<Message>, id: string, i: nat) {
    i < |messages| && forall j :: 0 <= j < |messages| ==> (messages[j].id == id <==> j == i)
  }

  lemma {:induction false} ReturnedIsHidden(r: Rules, messages: seq<Message>, ids: seq<string>, n: nat, id: string, i: nat)
    requires n <= |messages| && r.max <= |ids| && OnlyAt(messages, id, i) && Returned(r, messages, i)
    ensures forall m <- Left(r, messages, ids, n) :: m.id == id ==> m.visibleAt >= r.hiddenUntil
  {
    if n > 0 { ReturnedIsHidden(r, messages, ids, n - 1, id, i); }
  }

  lemma ReceiveHides(queues: Queues, op: Op, id: string, i: nat, k: nat)
    requires op.Receive? && WellFormed(op) && QueueProofs.Shaped(queues) && op.name in queues
    requires OnlyAt(queues[op.name].messages, id, i) && k < |Reply(queues, op)| && Reply(queues, op)[k].id == id
    ensures var q := queues[op.name];
            HiddenUntil(Perform(queues, op).next, op.name, id,
                        op.now + 1_000_000_000 * (if op.visibility < 0 then q.visibilityTimeout else op.visibility))
    ensures Perform(queues, op).saves
  {
    var q := queues[op.name];
    var r := RulesOf(queues, op.name, op.max, op.visibility, op.now);
    assert QueueProofs.ShapeOk(op.name, q);
    ReceiveDelivers(queues, op);
    hide ScanAll, Left, Gone, IsFifo, FifoName, Perform, Rank;
    var i' := ReplyIsReturned(r, q.messages, op.ids, |q.messages|, Reply(queues, op), k);
    ReturnedIsHidden(r, q.messages, op.ids, |q.messages|, id, i);
  }

  /** The visibility timeout: after a saved receive returned a message, no receive returns it again
      before the time asked for is over, unless its visibility is changed or it is queued anew. */
  lemma NotReturnedInFlight(
    states: seq<Store<Queues>>, steps: seq<Step<Op>>, name: string, id: string, at: nat, first: nat, i: nat, j: nat, k: nat)
    requires Runs.IsRun(states, steps) && i < j < |steps| && steps[i].saved
    requires steps[i].op.Receive? && steps[j].op.Receive? && steps[i].op.name == steps[j].op.name == name
    requires WellFormed(steps[i].op) && WellFormed(steps[j].op) && name in states[i].live && name in states[j].live
    requires OnlyAt(states[i].live[name].messages, id, at)
    requires first < |Reply(states[i].live, steps[i].op)| && Reply(states[i].live, steps[i].op)[first].id == id
    requires k < |Reply(states[j].live, steps[j].op)|
    requires var op, timeout := steps[i].op, states[i].live[name].visibilityTimeout;
             var time := op.now + 1_000_000_000 * (if op.visibility < 0 then timeout else op.visibility);
             && (forall l :: i < l < j ==> Leaves(states[l].live, steps[l].op, name, id, time))
             && steps[j].op.now < time
    ensures Reply(states[j].live, steps[j].op)[k].id != id
  {
    var op, timeout := steps[i].op, states[i].live[name].visibilityTimeout;
    var time := op.now + 1_000_000_000 * (if op.visibility < 0 then timeout else op.visibility);
    Runs.AlwaysShaped(states, steps, i);
    Runs.RunStep(states, steps, i);
    hide Perform, Reply, Leaves, OnlyAt, Runs.IsRun;
    ReceiveHides(states[i].live, op, id, at, first);
    StaysHidden(states, steps, name, id, time, i + 1, j);
    var from := OnlyVisibleAreReturned(states[j].live, steps[j].op, k);
    assert states[j].live[name].messages[from] in states[j].live[name].messages;
  }

  /** The delay: a message that a saved send queued under a new id is not returned before its delay is
      over, the queue's own where the request gives none. */
  lemma NotReturnedWhileDelayed(states: seq<Store<Queues>>, steps: seq<Step<Op>>, name: string, id: string, i: nat, j: nat, k: nat)
    requires Runs.IsRun(states, steps) && i < j < |steps| && steps[i].saved
    requires steps[i].op.Send? && steps[j].op.Receive? && steps[i].op.name == steps[j].op.name == name && steps[i].op.id == id
    requires WellFormed(steps[j].op) && name in states[i].live && name in states[j].live
    requires SendError(states[i].live[name], steps[i].op.sending).None? && Runs.Reply(states[i].live, steps[i].op).Enqueued?
    requires forall m <- states[i].live[name].messages :: m.id != id
    requires k < |Reply(states[j].live, steps[j].op)|
    requires var op, delay := steps[i].op, states[i].live[name].delaySeconds;
             var time := op.now + 1_000_000_000 * (if op.sending.delay < 0 then delay else op.sending.delay);
             && (forall l :: i < l < j ==> Leaves(states[l].live, steps[l].op, name, id, time))
             && steps[j].op.now < time
    ensures Reply(states[j].live, steps[j].op)[k].id != id
  {
    var op, delay := steps[i].op, states[i].live[name].delaySeconds;
    var time := op.now + 1_000_000_000 * (if op.sending.delay < 0 then delay else op.sending.delay);
    Runs.RunStep(states, steps, i);
    hide SendError, IsFifo, Reply, Leaves, Runs.IsRun;
    assert HiddenStore(states[i + 1], name, id, time);
    StaysHidden(states, steps, name, id, time, i + 1, j);
    var from := OnlyVisibleAreReturned(states[j].live, steps[j].op, k);
    assert states[j].live[name].messages[from] in states[j].live[name].messages;
  }
}
